/**
 * `find_undervalued_3year.py`: for the largest listed stocks, the price growth over three
 * years from the monthly chart, keeping the codes that grew least. The market-cap listing and
 * the chart API are inputs: the listing is a frame, and the chart API is a function from the
 * six-digit code and the attempt number to the two frames it replies with.
 */
module Undervalued {
  import opened Wrappers
  import opened Series
  import opened Numerals

  /**
   * A pandas frame: its column labels, its number of rows, each column read with
   * `pd.to_numeric(errors="coerce")` (None where coercion fails), and each column as text.
   */
  datatype Frame = Frame(columns: seq<string>, height: nat, numeric: map<string, seq<Option<real>>>, text: map<string, seq<string>>)

  /** `df.empty`: no rows or no columns. */
  predicate Empty(f: Frame) {
    |f.columns| == 0 || f.height == 0
  }

  function Numeric(f: Frame, col: string): seq<Option<real>> {
    if col in f.numeric then f.numeric[col] else []
  }

  function AsText(f: Frame, col: string): seq<string> {
    if col in f.text then f.text[col] else []
  }

  /** `df.head(n)`: the first `n` rows, or all but the last `-n` rows when `n` is negative. */
  function Head<T>(xs: seq<T>, n: int): (r: seq<T>)
    ensures r <= xs
    ensures n >= 0 ==> |r| == (if n < |xs| then n else |xs|)
    ensures n < 0 ==> |r| == (if |xs| + n > 0 then |xs| + n else 0)
  {
    if n >= 0 then (if n < |xs| then xs[..n] else xs)
    else if |xs| + n > 0 then xs[..|xs| + n]
    else []
  }

  /** The price columns `_pick_price_cols` looks for, in order of preference. */
  const PriceCandidates: seq<string> := ["stck_prpr", "stck_clpr", "stck_prdy_clpr"]

  /** The listing's short-code column. */
  const CodeCol: string := "mksc_shrn_iscd"

  /** The first of `cands` that is among `cols`. */
  function FirstPresent(cands: seq<string>, cols: seq<string>): (r: Option<string>)
    ensures r.None? <==> forall i :: 0 <= i < |cands| ==> cands[i] !in cols
    ensures r.Some? ==> r.value in cols
    ensures r.Some? ==> exists i :: 0 <= i < |cands| && cands[i] == r.value && forall j :: 0 <= j < i ==> cands[j] !in cols
  {
    if cands == [] then None
    else if cands[0] in cols then Some(cands[0])
    else
      var r := FirstPresent(cands[1..], cols);
      assert r.Some? ==> exists i :: 0 <= i < |cands| && cands[i] == r.value && forall j :: 0 <= j < i ==> cands[j] !in cols by {
        if r.Some? {
          var i :| 0 <= i < |cands[1..]| && cands[1..][i] == r.value && forall j :: 0 <= j < i ==> cands[1..][j] !in cols;
          assert cands[i + 1] == r.value;
          assert forall j :: 0 <= j < i + 1 ==> cands[j] !in cols by {
            forall j | 0 <= j < i + 1
              ensures cands[j] !in cols
            {
              if j > 0 {
                assert cands[j] == cands[1..][j - 1];
              }
            }
          }
        }
      }
      r
  }

  /** `_pick_price_cols`: the preferred price column present in a frame, None when none is. */
  function PickPriceCol(cols: seq<string>): (r: Option<string>)
    ensures r.None? <==> "stck_prpr" !in cols && "stck_clpr" !in cols && "stck_prdy_clpr" !in cols
    ensures "stck_prpr" in cols ==> r == Some("stck_prpr")
    ensures "stck_prpr" !in cols && "stck_clpr" in cols ==> r == Some("stck_clpr")
    ensures "stck_prpr" !in cols && "stck_clpr" !in cols && "stck_prdy_clpr" in cols ==> r == Some("stck_prdy_clpr")
  {
    var r := FirstPresent(PriceCandidates, cols);
    assert PriceCandidates[0] == "stck_prpr" && PriceCandidates[1] == "stck_clpr" && PriceCandidates[2] == "stck_prdy_clpr";
    r
  }

  /** `str.zfill(width)`: pads with zeros to `width`, after a leading sign if there is one. */
  function ZFill(s: string, width: int): (r: string)
    ensures |r| == (if |s| >= width then |s| else width)
    ensures |s| >= width ==> r == s
  {
    if |s| >= width then s
    else if s != [] && IsSign(s[0]) then [s[0]] + (Zeros(width - |s|) + s[1..])
    else Zeros(width - |s|) + s
  }

  /** Padding a numeral with `zfill` keeps the number it denotes. */
  lemma ZFillKeepsValue(s: string, width: int)
    requires ParseInt(s).Some?
    ensures ParseInt(ZFill(s, width)) == ParseInt(s)
  {
    if |s| < width {
      if IsSign(s[0]) {
        ZFillSigned(s, width);
      } else {
        ZFillUnsigned(s, width);
      }
    }
  }

  lemma ZFillSigned(s: string, width: int)
    requires ParseInt(s).Some? && |s| < width && IsSign(s[0])
    ensures ParseInt(ZFill(s, width)) == ParseInt(s)
  {
    var z := Zeros(width - |s|);
    var d := s[1..];
    assert ZFill(s, width) == [s[0]] + (z + d);
    LeadingZeros(width - |s|, d);
    assert s == [s[0]] + d;
    ParseSigned(s[0], d);
    ParseSigned(s[0], z + d);
  }

  lemma ZFillUnsigned(s: string, width: int)
    requires ParseInt(s).Some? && |s| < width && !IsSign(s[0])
    ensures ParseInt(ZFill(s, width)) == ParseInt(s)
  {
    var z := Zeros(width - |s|);
    var r := ZFill(s, width);
    assert r == z + s;
    LeadingZeros(width - |s|, s);
    assert r[0] == '0';
  }

  /** A six-digit code is its own normal form, and a shorter digit code is padded to six. */
  lemma ZFillCodes(s: string)
    requires AllDigits(s)
    ensures |s| >= 6 ==> ZFill(s, 6) == s
    ensures |s| < 6 ==> ZFill(s, 6) == Zeros(6 - |s|) + s && AllDigits(ZFill(s, 6))
    ensures ZFill(ZFill(s, 6), 6) == ZFill(s, 6)
  {
    if |s| < 6 {
      assert s == [] || !IsSign(s[0]) by {
        if s != [] {
          assert IsDigit(s[0]);
        }
      }
      LeadingZeros(6 - |s|, s);
    }
  }

  /** The two frames one chart request returns. */
  datatype Reply = Reply(df1: Option<Frame>, df2: Option<Frame>)

  /** A frame that arrived and is not empty. */
  predicate Usable(f: Option<Frame>) {
    f.Some? && !Empty(f.value)
  }

  /** `df1 if df1 is not None and not df1.empty else df2`. */
  function Source(r: Reply): (o: Option<Frame>)
    ensures Usable(o) <==> Usable(r.df1) || Usable(r.df2)
    ensures Usable(r.df1) ==> o == r.df1
    ensures !Usable(r.df1) ==> o == r.df2
  {
    if Usable(r.df1) then r.df1 else r.df2
  }

  const MaxAttempts: nat := 4

  /** The number of requests made from attempt `a` on: up to the first usable reply, at most four in all. */
  function AttemptsFrom(fetch: (string, nat) -> Reply, code: string, a: nat): (n: nat)
    requires a < MaxAttempts
    ensures a < n <= MaxAttempts
    ensures forall b :: a <= b < n - 1 ==> !Usable(Source(fetch(code, b)))
    ensures n < MaxAttempts ==> Usable(Source(fetch(code, n - 1)))
    decreases MaxAttempts - a
  {
    if Usable(Source(fetch(code, a))) || a == MaxAttempts - 1 then a + 1
    else AttemptsFrom(fetch, code, a + 1)
  }

  /**
   * The frame the growth is computed from: the source of the last request made. It is usable
   * exactly when one of the four attempts gave a usable reply.
   */
  function FetchSource(fetch: (string, nat) -> Reply, code: string): (o: Option<Frame>)
    ensures Usable(o) <==> exists b :: 0 <= b < MaxAttempts && Usable(Source(fetch(code, b)))
  {
    var n := AttemptsFrom(fetch, code, 0);
    assert Usable(Source(fetch(code, n - 1))) ==> exists b :: 0 <= b < MaxAttempts && Usable(Source(fetch(code, b)));
    Source(fetch(code, n - 1))
  }

  /** One row of the result: the normalised code, first and last price, and `last / first - 1`. */
  datatype Growth = Growth(code: string, first: real, last: real, growth: real)

  /**
   * The guards of `_growth_over_3y`: no usable frame, no price column, no numeric price or a
   * first price that is not positive give None.
   */
  function GrowthOf(code: string, src: Option<Frame>): (r: Option<Growth>)
    ensures r.None? <==> (!Usable(src) || PickPriceCol(src.value.columns).None? ||
      Somes(Numeric(src.value, PickPriceCol(src.value.columns).value)) == [] ||
      Somes(Numeric(src.value, PickPriceCol(src.value.columns).value))[0] <= 0.0)
    ensures r.Some? ==> r.value.code == ZFill(code, 6) && r.value.first > 0.0
    ensures r.Some? ==> r.value.growth == r.value.last / r.value.first - 1.0
    ensures r.Some? ==> LastSome(Numeric(src.value, PickPriceCol(src.value.columns).value)) == Some(r.value.last)
    ensures r.Some? ==>
      var s := Somes(Numeric(src.value, PickPriceCol(src.value.columns).value));
      s != [] && r.value.first == s[0] && r.value.last == s[|s| - 1]
    ensures r.Some? ==>
      var col := Numeric(src.value, PickPriceCol(src.value.columns).value);
      exists k :: 0 <= k < |col| && col[k] == Some(r.value.first) && forall j :: 0 <= j < k ==> col[j].None?
  {
    if !Usable(src) then None
    else match PickPriceCol(src.value.columns)
      case None => None
      case Some(p) =>
        var s := Somes(Numeric(src.value, p));
        LastSomeIsLastOfSomes(Numeric(src.value, p));
        SomesFirst(Numeric(src.value, p));
        if s == [] || s[0] <= 0.0 then None
        else Some(Growth(ZFill(code, 6), s[0], s[|s| - 1], s[|s| - 1] / s[0] - 1.0))
  }

  /** The growth is negative exactly when the price fell, and zero exactly when it stayed. */
  lemma GrowthSign(g: Growth)
    requires g.first > 0.0 && g.growth == g.last / g.first - 1.0
    ensures g.growth < 0.0 <==> g.last < g.first
    ensures g.growth == 0.0 <==> g.last == g.first
  {
    var q := g.last / g.first;
    assert q * g.first == g.last;
    if q < 1.0 {
      assert q * g.first < g.first;
    } else if q > 1.0 {
      assert q * g.first > g.first;
    }
  }

  /** `_growth_over_3y(code)` with its retry loop; `attempts` is how many requests it made. */
  method GrowthOver3y(code: string, fetch: (string, nat) -> Reply) returns (r: Option<Growth>, ghost attempts: nat)
    ensures attempts == AttemptsFrom(fetch, ZFill(code, 6), 0) && attempts <= MaxAttempts
    ensures r == GrowthOf(code, FetchSource(fetch, ZFill(code, 6)))
  {
    var c := ZFill(code, 6);
    var reply := Reply(None, None);
    var i := 0;
    while i < MaxAttempts
      invariant 0 <= i <= MaxAttempts
      invariant i < MaxAttempts ==> AttemptsFrom(fetch, c, i) == AttemptsFrom(fetch, c, 0)
      invariant i == MaxAttempts ==> AttemptsFrom(fetch, c, 0) == MaxAttempts && reply == fetch(c, MaxAttempts - 1)
      decreases MaxAttempts - i
    {
      reply := fetch(c, i);
      if Usable(Source(reply)) {
        attempts := i + 1;
        break;
      }
      i := i + 1;
    }
    if i == MaxAttempts {
      attempts := MaxAttempts;
    }
    r := GrowthOf(code, Source(reply));
  }

  /** `_top_codes(limit)`: the listing's first `limit` codes, or none without a usable listing. */
  function TopCodes(listing: Option<Frame>, limit: int): (r: seq<string>)
    ensures !Usable(listing) || CodeCol !in listing.value.columns ==> r == []
    ensures Usable(listing) && CodeCol in listing.value.columns ==> r <= AsText(listing.value, CodeCol)
    ensures Usable(listing) && CodeCol in listing.value.columns ==>
      |r| == var n := |AsText(listing.value, CodeCol)|;
        if limit >= 0 then (if limit < n then limit else n) else (if n + limit > 0 then n + limit else 0)
  {
    if !Usable(listing) || CodeCol !in listing.value.columns then []
    else Head(AsText(listing.value, CodeCol), limit)
  }

  /**
   * The growth of one listed code: a row names the code padded to six digits, and a code
   * whose four requests all fail gives no row.
   */
  function Evaluate(fetch: (string, nat) -> Reply, code: string): (r: Option<Growth>)
    ensures r.Some? ==> r.value.code == ZFill(code, 6)
    ensures r.Some? ==> exists b :: 0 <= b < MaxAttempts && Usable(Source(fetch(ZFill(code, 6), b)))
  {
    GrowthOf(code, FetchSource(fetch, ZFill(code, 6)))
  }

  /** The rows `find_undervalued_3y` collects: the codes whose growth is known, in listing order. */
  function Rows(fetch: (string, nat) -> Reply, codes: seq<string>): (r: seq<Growth>)
    ensures |r| <= |codes|
  {
    if codes == [] then []
    else
      var e := Evaluate(fetch, codes[|codes| - 1]);
      Rows(fetch, codes[..|codes| - 1]) + (if e.Some? then [e.value] else [])
  }

  /** Every row is the known growth of one of the listed codes. */
  lemma {:induction false} RowsAreKnownGrowths(fetch: (string, nat) -> Reply, codes: seq<string>)
    ensures forall k :: 0 <= k < |Rows(fetch, codes)| ==>
      exists j :: 0 <= j < |codes| && Evaluate(fetch, codes[j]) == Some(Rows(fetch, codes)[k])
  {
    if codes != [] {
      var init := codes[..|codes| - 1];
      var last := Evaluate(fetch, codes[|codes| - 1]);
      RowsAreKnownGrowths(fetch, init);
      var before := Rows(fetch, init);
      var rs := Rows(fetch, codes);
      assert rs == before + (if last.Some? then [last.value] else []);
      forall k | 0 <= k < |rs|
        ensures exists j :: 0 <= j < |codes| && Evaluate(fetch, codes[j]) == Some(rs[k])
      {
        if k < |before| {
          var j :| 0 <= j < |init| && Evaluate(fetch, init[j]) == Some(before[k]);
          assert codes[j] == init[j] && rs[k] == before[k];
        } else {
          assert last == Some(rs[k]);
        }
      }
    } else {
      assert Rows(fetch, codes) == [];
    }
  }

  /** The rows of a prefix of the listing are a prefix of the rows. */
  lemma {:induction false} RowsPrefix(fetch: (string, nat) -> Reply, codes: seq<string>, i: nat)
    requires i <= |codes|
    ensures Rows(fetch, codes[..i]) <= Rows(fetch, codes)
    decreases |codes| - i
  {
    if i == |codes| {
      assert codes[..i] == codes;
    } else {
      RowsPrefix(fetch, codes, i + 1);
      var p := codes[..i + 1];
      assert p[..|p| - 1] == codes[..i];
      RowsGrow(fetch, p);
    }
  }

  /** Adding a code at the end of the listing only adds rows at the end. */
  lemma RowsGrow(fetch: (string, nat) -> Reply, codes: seq<string>)
    requires codes != []
    ensures Rows(fetch, codes[..|codes| - 1]) <= Rows(fetch, codes)
  {
  }

  /**
   * Every code with a known growth has its row, in listing order: the row of `codes[j]` comes
   * right after the rows of the codes before it.
   */
  lemma RowsComplete(fetch: (string, nat) -> Reply, codes: seq<string>)
    ensures forall j :: 0 <= j < |codes| && Evaluate(fetch, codes[j]).Some? ==>
      && |Rows(fetch, codes[..j])| < |Rows(fetch, codes)|
      && Rows(fetch, codes)[|Rows(fetch, codes[..j])|] == Evaluate(fetch, codes[j]).value
  {
    forall j | 0 <= j < |codes| && Evaluate(fetch, codes[j]).Some?
      ensures |Rows(fetch, codes[..j])| < |Rows(fetch, codes)|
      ensures Rows(fetch, codes)[|Rows(fetch, codes[..j])|] == Evaluate(fetch, codes[j]).value
    {
      RowsPrefix(fetch, codes, j + 1);
      var p := codes[..j + 1];
      assert p[..|p| - 1] == codes[..j] && p[|p| - 1] == codes[j];
      assert Rows(fetch, p) == Rows(fetch, codes[..j]) + [Evaluate(fetch, codes[j]).value];
    }
  }

  predicate SortedByGrowth(xs: seq<Growth>) {
    forall i, j :: 0 <= i < j < |xs| ==> xs[i].growth <= xs[j].growth
  }

  function Insert(g: Growth, xs: seq<Growth>): (r: seq<Growth>)
    requires SortedByGrowth(xs)
    ensures SortedByGrowth(r)
    ensures multiset(r) == multiset(xs) + multiset{g}
    ensures |r| == |xs| + 1
    ensures r[0] == g || (xs != [] && r[0] == xs[0])
  {
    if xs == [] || g.growth <= xs[0].growth then
      SortedCons(g, xs);
      [g] + xs
    else
      SortedTail(xs);
      var t := Insert(g, xs[1..]);
      InsertBehind(g, xs, t);
      [xs[0]] + t
  }

  /**
   * The step of `Insert` that keeps the first row in front: `t` is `g` inserted into the
   * other rows, and `g` grew more than the first row.
   */
  lemma InsertBehind(g: Growth, xs: seq<Growth>, t: seq<Growth>)
    requires SortedByGrowth(xs) && xs != [] && g.growth > xs[0].growth
    requires SortedByGrowth(t) && multiset(t) == multiset(xs[1..]) + multiset{g}
    requires t != [] && (t[0] == g || (|xs| > 1 && t[0] == xs[1]))
    ensures SortedByGrowth([xs[0]] + t)
    ensures multiset([xs[0]] + t) == multiset(xs) + multiset{g}
  {
    SortedCons(xs[0], t);
    assert xs == [xs[0]] + xs[1..];
  }

  /** A row no larger than the first of a sorted sequence can go in front of it. */
  lemma SortedCons(x: Growth, t: seq<Growth>)
    requires SortedByGrowth(t) && (t != [] ==> x.growth <= t[0].growth)
    ensures SortedByGrowth([x] + t)
  {
    var r := [x] + t;
    forall i, j | 0 <= i < j < |r|
      ensures r[i].growth <= r[j].growth
    {
      if i > 0 {
        assert r[i] == t[i - 1] && r[j] == t[j - 1];
      } else {
        assert r[j] == t[j - 1];
      }
    }
  }

  /** The rows after the first of a sorted sequence are sorted. */
  lemma SortedTail(xs: seq<Growth>)
    requires SortedByGrowth(xs) && xs != []
    ensures SortedByGrowth(xs[1..])
  {
    var t := xs[1..];
    forall i, j | 0 <= i < j < |t|
      ensures t[i].growth <= t[j].growth
    {
      assert t[i] == xs[i + 1] && t[j] == xs[j + 1];
    }
  }

  /** `sort_values("growth")`, ascending: a sorted rearrangement of the rows. */
  function SortByGrowth(xs: seq<Growth>): (r: seq<Growth>)
    ensures SortedByGrowth(r)
    ensures multiset(r) == multiset(xs)
  {
    if xs == [] then []
    else
      assert xs == [xs[0]] + xs[1..];
      Insert(xs[0], SortByGrowth(xs[1..]))
  }

  /**
   * The selection is of the lowest growths: every row left out grew at least as much as every
   * row kept, and the kept rows come in ascending order.
   */
  lemma LowestSelected(rows: seq<Growth>, topN: int)
    ensures SortedByGrowth(Head(SortByGrowth(rows), topN))
    ensures multiset(Head(SortByGrowth(rows), topN)) <= multiset(rows)
    ensures forall x, y ::
      (x in multiset(Head(SortByGrowth(rows), topN)) && y in multiset(rows) - multiset(Head(SortByGrowth(rows), topN)))
      ==> x.growth <= y.growth
  {
    var sorted := SortByGrowth(rows);
    var out := Head(sorted, topN);
    PrefixSplit(sorted, out);
  }

  /** A prefix of a sorted sequence is sorted, and nothing after it is smaller than anything in it. */
  lemma PrefixSplit(sorted: seq<Growth>, out: seq<Growth>)
    requires SortedByGrowth(sorted) && out <= sorted
    ensures SortedByGrowth(out)
    ensures multiset(out) <= multiset(sorted)
    ensures forall x, y :: (x in multiset(out) && y in multiset(sorted) - multiset(out)) ==> x.growth <= y.growth
  {
    var tail := sorted[|out|..];
    assert sorted == out + tail;
    assert SortedByGrowth(out) by {
      assert forall i :: 0 <= i < |out| ==> out[i] == sorted[i];
    }
    assert multiset(sorted) - multiset(out) == multiset(tail) by {
      assert multiset(sorted) == multiset(out) + multiset(tail);
    }
    PrefixBelowTail(sorted, out, tail);
  }

  lemma PrefixBelowTail(sorted: seq<Growth>, out: seq<Growth>, tail: seq<Growth>)
    requires SortedByGrowth(sorted) && sorted == out + tail
    ensures forall x, y :: (x in multiset(out) && y in multiset(tail)) ==> x.growth <= y.growth
  {
    forall x: Growth, y: Growth | x in multiset(out) && y in multiset(tail)
      ensures x.growth <= y.growth
    {
      var i :| 0 <= i < |out| && out[i] == x;
      var j :| 0 <= j < |tail| && tail[j] == y;
      assert sorted[i] == x && sorted[|out| + j] == y;
    }
  }

  /**
   * `find_undervalued_3y`: the listing's first `limitCodes` codes, their growths where known,
   * sorted ascending and cut to `topN` rows.
   */
  method FindUndervalued(listing: Option<Frame>, fetch: (string, nat) -> Reply, limitCodes: int, topN: int)
    returns (out: seq<Growth>)
    ensures out == Head(SortByGrowth(Rows(fetch, TopCodes(listing, limitCodes))), topN)
  {
    var codes := TopCodes(listing, limitCodes);
    var rows: seq<Growth> := [];
    for i := 0 to |codes|
      invariant rows == Rows(fetch, codes[..i])
    {
      var r, _ := GrowthOver3y(codes[i], fetch);
      assert codes[..i + 1][..i] == codes[..i];
      if r.Some? {
        rows := rows + [r.value];
      }
    }
    assert codes[..|codes|] == codes;
    if rows == [] {
      return [];
    }
    out := Head(SortByGrowth(rows), topN);
  }
}
