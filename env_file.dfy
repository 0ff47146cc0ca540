/**
 * The `.env` loader `_load_env` of `morning_open_sync.py`: every `KEY=VALUE` line of the file
 * becomes an environment variable unless that variable is already set. The process
 * environment is the `Environment` object; the file is its sequence of lines (an absent file
 * reads as no lines).
 */
module EnvFile {
  import opened Wrappers
  import opened Text

  datatype Entry = Entry(key: string, value: string)

  /**
   * One line of the file: blank lines, comment lines and lines without `=` are skipped;
   * otherwise the stripped line is cut at its first `=` and both halves are stripped.
   */
  function ParseLine(line: string): (r: Option<Entry>)
    ensures r.Some? ==> Stripped(r.value.key) && Stripped(r.value.value)
    ensures r.Some? ==> '=' !in r.value.key
    ensures r.Some? ==> r.value.key == [] || r.value.key[0] != '#'
  {
    var s := Strip(line);
    if s == [] || s[0] == '#' then None
    else match IndexOf(s, '=')
      case None => None
      case Some(i) =>
        var k := Strip(s[..i]);
        assert '=' !in s[..i];
        StripKeepsOut(s[..i], '=');
        assert k == [] || k[0] != '#' by {
          if i > 0 {
            assert TrimStart(s[..i]) == s[..i];
            assert k[0] == s[0];
          }
        }
        Some(Entry(k, Strip(s[i + 1..])))
  }

  /** A line is skipped exactly when it is blank, a comment, or has no `=` once stripped. */
  lemma ParseLineSkips(line: string)
    ensures ParseLine(line).None? <==> (Strip(line) == [] || Strip(line)[0] == '#' || '=' !in Strip(line))
  {
  }

  /** The line a well-formed entry is written as. */
  function Format(e: Entry): string {
    e.key + "=" + e.value
  }

  /**
   * A well-formed entry written as `KEY=VALUE` is read back as itself; an empty key, as in
   * the line `=v`, included.
   */
  lemma ParseFormat(e: Entry)
    requires (e.key == [] || e.key[0] != '#') && '=' !in e.key
    requires Stripped(e.key) && Stripped(e.value)
    ensures ParseLine(Format(e)) == Some(e)
  {
    var line := Format(e);
    assert line == e.key + ['='] + e.value;
    assert line[0] == if e.key == [] then '=' else e.key[0];
    assert line[|line| - 1] == if e.value == [] then '=' else e.value[|e.value| - 1];
    StripFixed(line);
    StripFixed(e.key);
    StripFixed(e.value);
    ParseCut(line, e.key, e.value);
  }

  /** Reading an entry, writing it out and reading it again gives the same entry. */
  lemma ParseIsCanonical(line: string)
    ensures ParseLine(line).Some? ==> ParseLine(Format(ParseLine(line).value)) == ParseLine(line)
  {
    if ParseLine(line).Some? {
      ParseFormat(ParseLine(line).value);
    }
  }

  /**
   * A line that strips to `front=rest`, with no `=` in `front` and a key that is not a
   * comment, is cut at that `=` and both halves are stripped.
   */
  lemma ParseCut(line: string, front: string, rest: string)
    requires Strip(line) == front + ['='] + rest && '=' !in front
    requires Strip(front) == [] || Strip(front)[0] != '#'
    ensures ParseLine(line) == Some(Entry(Strip(front), Strip(rest)))
  {
    var s := Strip(line);
    IndexOfFirst(front, '=', rest);
    CutAt(front, '=', rest);
    if front != [] {
      assert s[0] == front[0];
      assert TrimStart(front) == front;
    }
  }

  /**
   * A line `KEY = VALUE` padded with whitespace anywhere around the key, the `=` and the
   * value is read as that key and value: the line is cut at its first `=` (the value may hold
   * more) and both halves are stripped.
   */
  lemma ParsePadded(w1: string, key: string, w2: string, w3: string, value: string, w4: string)
    requires Blank(w1) && Blank(w2) && Blank(w3) && Blank(w4)
    requires key != [] && key[0] != '#' && '=' !in key
    requires Stripped(key) && Stripped(value)
    ensures ParseLine(w1 + key + w2 + "=" + w3 + value + w4) == Some(Entry(key, value))
  {
    var line := w1 + key + w2 + "=" + w3 + value + w4;
    var front := key + w2;
    var rest := if value == [] then [] else w3 + value;
    PaddedLine(w1, key, w2, w3, value, w4);
    PaddedHalves(key, w2, w3, value);
    ParseCut(line, front, rest);
  }

  /** The two halves of a padded `KEY = VALUE` line strip to the key and the value. */
  lemma PaddedHalves(key: string, w2: string, w3: string, value: string)
    requires Blank(w2) && Blank(w3)
    requires key != [] && '=' !in key && Stripped(key) && Stripped(value)
    ensures '=' !in key + w2 && Strip(key + w2) == key
    ensures Strip(if value == [] then [] else w3 + value) == value
  {
    assert forall i :: 0 <= i < |w2| ==> w2[i] != '=';
    StripPadded([], key, w2);
    assert [] + key + w2 == key + w2;
    if value != [] {
      StripPadded(w3, value, []);
      assert w3 + value + [] == w3 + value;
    }
  }

  /** The stripped form of a padded `KEY = VALUE` line. */
  lemma PaddedLine(w1: string, key: string, w2: string, w3: string, value: string, w4: string)
    requires Blank(w1) && Blank(w2) && Blank(w3) && Blank(w4)
    requires key != [] && Stripped(key) && Stripped(value)
    ensures Strip(w1 + key + w2 + "=" + w3 + value + w4) == key + w2 + ['='] + (if value == [] then [] else w3 + value)
  {
    var rest := if value == [] then [] else w3 + value;
    var mid := key + w2 + ['='] + rest;
    assert mid[0] == key[0];
    if value == [] {
      assert mid[|mid| - 1] == '=';
      assert w1 + key + w2 + "=" + w3 + value + w4 == w1 + mid + (w3 + w4);
      assert Blank(w3 + w4) by {
        forall i | 0 <= i < |w3 + w4|
          ensures IsSpace((w3 + w4)[i])
        {
          if i >= |w3| {
            assert (w3 + w4)[i] == w4[i - |w3|];
          }
        }
      }
      StripPadded(w1, mid, w3 + w4);
    } else {
      assert mid[|mid| - 1] == value[|value| - 1];
      assert w1 + key + w2 + "=" + w3 + value + w4 == w1 + mid + w4;
      StripPadded(w1, mid, w4);
    }
  }

  /** What `os.environ` accepts as a new variable: a non-empty name and no NUL character. */
  predicate Legal(key: string, value: string) {
    key != [] && '\0' !in key && '\0' !in value
  }

  /** The environment after loading, and whether a rejected variable ended the loop early. */
  datatype Loaded = Loaded(env: map<string, string>, stopped: bool)

  /** The file's lines, each as what `ParseLine` makes of it. */
  function ParseAll(lines: seq<string>): (r: seq<Option<Entry>>)
    ensures |r| == |lines|
    ensures forall i :: 0 <= i < |lines| ==> r[i] == ParseLine(lines[i])
  {
    seq(|lines|, i requires 0 <= i < |lines| => ParseLine(lines[i]))
  }

  /**
   * Loading parsed lines into `env`: `setdefault` leaves a variable already set alone, and
   * a new variable the environment refuses raises, which the surrounding handler turns into
   * abandoning the rest of the file.
   */
  function LoadEntries(env: map<string, string>, ps: seq<Option<Entry>>): (r: Loaded)
    ensures env.Keys <= r.env.Keys
    ensures forall k :: k in env ==> r.env[k] == env[k]
    ensures forall k :: k in r.env ==> k in env || Legal(k, r.env[k])
    decreases |ps|
  {
    if ps == [] then Loaded(env, false)
    else match ps[0]
      case None => LoadEntries(env, ps[1..])
      case Some(e) =>
        if e.key in env then LoadEntries(env, ps[1..])
        else if !Legal(e.key, e.value) then Loaded(env, true)
        else LoadEntries(env[e.key := e.value], ps[1..])
  }

  /**
   * Loading the lines of a file: variables already set keep their values, and every variable
   * added is the entry of one of the file's lines.
   */
  function Load(env: map<string, string>, lines: seq<string>): (r: Loaded)
    ensures forall k :: k in env ==> k in r.env && r.env[k] == env[k]
    ensures forall k :: k in r.env && k !in env ==>
      exists j :: 0 <= j < |lines| && ParseLine(lines[j]) == Some(Entry(k, r.env[k]))
  {
    var ps := ParseAll(lines);
    var r := LoadEntries(env, ps);
    assert forall k :: k in r.env && k !in env ==>
      exists j :: 0 <= j < |lines| && ParseLine(lines[j]) == Some(Entry(k, r.env[k])) by {
      forall k | k in r.env && k !in env
        ensures exists j :: 0 <= j < |lines| && ParseLine(lines[j]) == Some(Entry(k, r.env[k]))
      {
        LoadAddsFileEntries(env, ps, k);
      }
    }
    r
  }

  /** Every variable the file adds is one of its entries. */
  lemma {:induction false} LoadAddsFileEntries(env: map<string, string>, ps: seq<Option<Entry>>, k: string)
    requires k in LoadEntries(env, ps).env && k !in env
    ensures exists j :: 0 <= j < |ps| && ps[j] == Some(Entry(k, LoadEntries(env, ps).env[k]))
    decreases |ps|
  {
    var r := LoadEntries(env, ps);
    var rest := ps[1..];
    var e := ps[0];
    if e.Some? && e.value.key !in env && Legal(e.value.key, e.value.value) {
      var env1 := env[e.value.key := e.value.value];
      if k == e.value.key {
        assert r.env[k] == env1[k];
        assert ps[0] == Some(Entry(k, r.env[k]));
      } else {
        LoadAddsFileEntries(env1, rest, k);
        var j :| 0 <= j < |rest| && rest[j] == Some(Entry(k, r.env[k]));
        assert ps[j + 1] == rest[j];
      }
    } else if e.None? || e.value.key in env {
      LoadAddsFileEntries(env, rest, k);
      var j :| 0 <= j < |rest| && rest[j] == Some(Entry(k, r.env[k]));
      assert ps[j + 1] == rest[j];
    }
  }

  /** Entries the environment accepts as new variables. */
  predicate AllLegal(ps: seq<Option<Entry>>) {
    forall i :: 0 <= i < |ps| && ps[i].Some? ==> Legal(ps[i].value.key, ps[i].value.value)
  }

  /** A file whose entries are all acceptable is read to the end. */
  lemma {:induction false} NeverStops(env: map<string, string>, ps: seq<Option<Entry>>)
    requires AllLegal(ps)
    ensures !LoadEntries(env, ps).stopped
    decreases |ps|
  {
    if ps != [] {
      var rest := ps[1..];
      assert forall i :: 0 <= i < |rest| ==> rest[i] == ps[i + 1];
      var e := ps[0];
      if e.Some? && e.value.key !in env {
        NeverStops(env[e.value.key := e.value.value], rest);
      } else {
        NeverStops(env, rest);
      }
    }
  }

  /**
   * A variable not yet set takes the value of its first entry, when that entry and every entry
   * before it are acceptable.
   */
  lemma {:induction false} FirstOccurrenceWins(env: map<string, string>, ps: seq<Option<Entry>>, j: nat)
    requires j < |ps| && AllLegal(ps[..j + 1])
    requires ps[j].Some? && ps[j].value.key !in env
    requires forall i :: 0 <= i < j && ps[i].Some? ==> ps[i].value.key != ps[j].value.key
    ensures ps[j].value.key in LoadEntries(env, ps).env
    ensures LoadEntries(env, ps).env[ps[j].value.key] == ps[j].value.value
    decreases |ps|
  {
    var e := ps[0];
    var rest := ps[1..];
    assert forall i :: 0 <= i < |rest| ==> rest[i] == ps[i + 1];
    assert forall i :: 0 <= i <= j ==> ps[..j + 1][i] == ps[i];
    if j > 0 {
      assert forall i :: 0 <= i < j ==> rest[..j][i] == ps[..j + 1][i + 1];
      if e.None? || e.value.key in env {
        FirstOccurrenceWins(env, rest, j - 1);
      } else {
        FirstOccurrenceWins(env[e.value.key := e.value.value], rest, j - 1);
      }
    }
  }

  /**
   * Loading a file in two parts is loading the first part and then the second, unless the
   * first part was abandoned, in which case the second has no effect.
   */
  lemma {:induction false} LoadConcat(env: map<string, string>, a: seq<Option<Entry>>, b: seq<Option<Entry>>)
    ensures !LoadEntries(env, a).stopped ==> LoadEntries(env, a + b) == LoadEntries(LoadEntries(env, a).env, b)
    ensures LoadEntries(env, a).stopped ==> LoadEntries(env, a + b) == LoadEntries(env, a)
    decreases |a|
  {
    if a == [] {
      assert a + b == b;
    } else {
      assert (a + b)[0] == a[0];
      assert (a + b)[1..] == a[1..] + b;
      var e := a[0];
      if e.None? || e.value.key in env {
        LoadConcat(env, a[1..], b);
      } else if Legal(e.value.key, e.value.value) {
        LoadConcat(env[e.value.key := e.value.value], a[1..], b);
      }
    }
  }

  /** `os.environ`: the process environment, updated in place. */
  class Environment {
    var vars: map<string, string>

    constructor (vars: map<string, string>)
      ensures this.vars == vars
    {
      this.vars := vars;
    }

    /** `os.environ.setdefault(key, value)`; `raised` is the ValueError a refused variable raises. */
    method SetDefault(key: string, value: string) returns (raised: bool)
      modifies this
      ensures raised <==> key !in old(vars) && !Legal(key, value)
      ensures vars == if key in old(vars) || raised then old(vars) else old(vars)[key := value]
    {
      if key in vars {
        return false;
      }
      if !Legal(key, value) {
        return true;
      }
      vars := vars[key := value];
      return false;
    }
  }

  /** `_load_env`: reads the lines in order into `environ`, stopping at the first refused one. */
  method LoadEnv(environ: Environment, lines: seq<string>)
    modifies environ
    ensures environ.vars == Load(old(environ.vars), lines).env
  {
    ghost var ps := ParseAll(lines);
    var i := 0;
    while i < |lines|
      invariant 0 <= i <= |lines|
      invariant LoadEntries(environ.vars, ps[i..]) == Load(old(environ.vars), lines)
    {
      assert ps[i..][0] == ps[i] && ps[i..][1..] == ps[i + 1..];
      var parsed := ParseLine(lines[i]);
      if parsed.Some? {
        var raised := environ.SetDefault(parsed.value.key, parsed.value.value);
        if raised {
          return;
        }
      }
      i := i + 1;
    }
  }
}
