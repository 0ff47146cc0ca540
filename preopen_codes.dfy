/**
 * The `PREOPEN_CODES` setting of `morning_open_sync.py`: a comma-separated list of stock codes
 * for the pre-open expected-price report, where blanks around items and empty items are
 * tolerated.
 */
module PreopenCodes {
  import opened Wrappers
  import opened Text

  /** A code as the report uses it: non-empty, without surrounding blanks, without a comma. */
  predicate WellFormed(code: string) {
    code != [] && Stripped(code)
    && ',' !in code
  }

  /** `[x.strip() for x in parts]`. */
  function StripAll(parts: seq<string>): (r: seq<string>)
    ensures |r| == |parts|
    ensures forall i :: 0 <= i < |parts| ==> r[i] == Strip(parts[i])
  {
    seq(|parts|, i requires 0 <= i < |parts| => Strip(parts[i]))
  }

  /** The items of `xs` that are not empty, in order. */
  function NonBlank(xs: seq<string>): (r: seq<string>)
    ensures |r| <= |xs|
    ensures forall k :: 0 <= k < |r| ==> r[k] != [] && r[k] in xs
    decreases |xs|
  {
    if xs == [] then []
    else (if xs[0] == [] then [] else [xs[0]]) + NonBlank(xs[1..])
  }

  /** `[x.strip() for x in parts if x.strip()]`. */
  function Clean(parts: seq<string>): (r: seq<string>)
    ensures |r| <= |parts|
    ensures forall k :: 0 <= k < |r| ==> r[k] != [] && Stripped(r[k])
    ensures (forall j :: 0 <= j < |parts| ==> ',' !in parts[j]) ==> forall k :: 0 <= k < |r| ==> ',' !in r[k]
  {
    var pieces := StripAll(parts);
    var r := NonBlank(pieces);
    assert (forall j :: 0 <= j < |parts| ==> ',' !in parts[j]) ==> forall k :: 0 <= k < |r| ==> ',' !in r[k] by {
      if forall j :: 0 <= j < |parts| ==> ',' !in parts[j] {
        forall k | 0 <= k < |r|
          ensures ',' !in r[k]
        {
          var i :| 0 <= i < |pieces| && pieces[i] == r[k];
          StripKeepsOut(parts[i], ',');
        }
      }
    }
    r
  }

  /** The codes listed in `raw` (the empty string when the variable is unset). */
  function ParseCodes(raw: string): (r: seq<string>)
    ensures forall k :: 0 <= k < |r| ==> WellFormed(r[k])
  {
    SplitPiecesFree(raw, ',');
    Clean(Split(raw, ','))
  }

  /** Dropping blanks from a concatenation drops them from each part. */
  lemma {:induction false} NonBlankConcat(a: seq<string>, b: seq<string>)
    ensures NonBlank(a + b) == NonBlank(a) + NonBlank(b)
    decreases |a|
  {
    if a == [] {
      assert a + b == b;
    } else {
      assert (a + b)[0] == a[0];
      assert (a + b)[1..] == a[1..] + b;
      NonBlankConcat(a[1..], b);
    }
  }

  /** Every non-empty item is kept, right after what the items before it give. */
  lemma NonBlankComplete(xs: seq<string>, j: nat)
    requires j < |xs| && xs[j] != []
    ensures |NonBlank(xs[..j])| < |NonBlank(xs)| && NonBlank(xs)[|NonBlank(xs[..j])|] == xs[j]
  {
    assert xs == xs[..j] + ([xs[j]] + xs[j + 1..]);
    NonBlankConcat(xs[..j], [xs[j]] + xs[j + 1..]);
    NonBlankConcat([xs[j]], xs[j + 1..]);
    assert NonBlank([xs[j]]) == [xs[j]] by {
      assert [xs[j]][1..] == [];
    }
  }

  /** The `k`-th item kept is the item `j` that the items before it leave `k` items ahead of. */
  lemma {:induction false} NonBlankSound(xs: seq<string>, k: nat)
    requires k < |NonBlank(xs)|
    ensures exists j :: 0 <= j < |xs| && |NonBlank(xs[..j])| == k && NonBlank(xs)[k] == xs[j]
    decreases |xs|
  {
    var head := if xs[0] == [] then [] else [xs[0]];
    var tail := xs[1..];
    assert NonBlank(xs) == head + NonBlank(tail);
    if k < |head| {
      assert xs[..0] == [];
    } else {
      NonBlankSound(tail, k - |head|);
      var i :| 0 <= i < |tail| && |NonBlank(tail[..i])| == k - |head| && NonBlank(tail)[k - |head|] == tail[i];
      NonBlankShift(xs, i);
      assert xs[i + 1] == tail[i];
    }
  }

  /** What a prefix of `xs` keeps is its first item, if kept, and then what the rest keeps. */
  lemma NonBlankShift(xs: seq<string>, i: nat)
    requires i < |xs|
    ensures NonBlank(xs[..i + 1]) == (if xs[0] == [] then [] else [xs[0]]) + NonBlank(xs[1..][..i])
  {
    assert xs[..i + 1] == [xs[0]] + xs[1..][..i];
    NonBlankConcat([xs[0]], xs[1..][..i]);
    assert [xs[0]][1..] == [];
  }

  /** The stripped pieces of a prefix are a prefix of the stripped pieces. */
  lemma StripAllPrefix(parts: seq<string>, j: nat)
    requires j <= |parts|
    ensures StripAll(parts[..j]) == StripAll(parts)[..j]
  {
  }

  /**
   * Every piece that is not blank is kept, stripped, in order: the piece `parts[j]` comes
   * right after what the pieces before it give.
   */
  lemma CleanComplete(parts: seq<string>)
    ensures forall j :: 0 <= j < |parts| && Strip(parts[j]) != [] ==>
      && |Clean(parts[..j])| < |Clean(parts)|
      && Clean(parts)[|Clean(parts[..j])|] == Strip(parts[j])
  {
    forall j | 0 <= j < |parts| && Strip(parts[j]) != []
      ensures |Clean(parts[..j])| < |Clean(parts)|
      ensures Clean(parts)[|Clean(parts[..j])|] == Strip(parts[j])
    {
      StripAllPrefix(parts, j);
      NonBlankComplete(StripAll(parts), j);
    }
  }

  /**
   * Nothing else is kept: the `k`-th code is `parts[j].strip()` for the piece `j` that the
   * pieces before it leave `k` codes ahead of.
   */
  lemma CleanSound(parts: seq<string>, k: nat)
    requires k < |Clean(parts)|
    ensures exists j :: 0 <= j < |parts| && |Clean(parts[..j])| == k && Clean(parts)[k] == Strip(parts[j])
  {
    NonBlankSound(StripAll(parts), k);
    var j :| 0 <= j < |parts| && |NonBlank(StripAll(parts)[..j])| == k && NonBlank(StripAll(parts))[k] == StripAll(parts)[j];
    StripAllPrefix(parts, j);
    assert Clean(parts[..j]) == NonBlank(StripAll(parts)[..j]);
  }

  /** Items that are all non-empty pass through `NonBlank` unchanged. */
  lemma {:induction false} NonBlankKeeps(xs: seq<string>)
    requires forall k :: 0 <= k < |xs| ==> xs[k] != []
    ensures NonBlank(xs) == xs
    decreases |xs|
  {
    if xs != [] {
      NonBlankKeeps(xs[1..]);
    }
  }

  /** Well-formed codes pass through `Clean` unchanged. */
  lemma CleanKeeps(codes: seq<string>)
    requires forall k :: 0 <= k < |codes| ==> WellFormed(codes[k])
    ensures Clean(codes) == codes
  {
    forall k | 0 <= k < |codes|
      ensures StripAll(codes)[k] == codes[k]
    {
      StripFixed(codes[k]);
    }
    assert StripAll(codes) == codes;
    NonBlankKeeps(codes);
  }

  /** Writing a list of well-formed codes with commas and reading it back gives the list. */
  lemma ParseJoin(codes: seq<string>)
    requires forall k :: 0 <= k < |codes| ==> WellFormed(codes[k])
    ensures ParseCodes(Join(codes, ',')) == codes
  {
    if codes == [] {
      assert Join(codes, ',') == "";
      ParseEmpty();
    } else {
      SplitJoin(codes, ',');
      CleanKeeps(codes);
    }
  }

  /** An unset or empty variable lists no codes. */
  lemma ParseEmpty()
    ensures ParseCodes("") == []
  {
    assert Split("", ',') == [""];
    assert StripAll([""]) == [""] by {
      assert Strip("") == [];
    }
    assert [""][1..] == [];
  }

  /**
   * The codes listed are the stripped non-blank pieces between the commas, in order: each
   * such piece is listed, and each code listed is one.
   */
  lemma ParseCodesPieces(raw: string)
    ensures forall j :: 0 <= j < |Split(raw, ',')| && Strip(Split(raw, ',')[j]) != [] ==>
      Strip(Split(raw, ',')[j]) in ParseCodes(raw)
    ensures forall k :: 0 <= k < |ParseCodes(raw)| ==>
      exists j :: 0 <= j < |Split(raw, ',')| && ParseCodes(raw)[k] == Strip(Split(raw, ',')[j])
  {
    var parts := Split(raw, ',');
    CleanComplete(parts);
    forall k | 0 <= k < |ParseCodes(raw)|
      ensures exists j :: 0 <= j < |parts| && ParseCodes(raw)[k] == Strip(parts[j])
    {
      CleanSound(parts, k);
    }
  }
}
