/**
 * `_StdoutFilter` of `morning_open_sync.py`: a line-buffering wrapper around standard output
 * that drops every complete line mentioning one of the websocket library's chatter markers.
 * The wrapped stream is modelled by the sequence of strings handed to its `write`.
 */
module StdoutFilter {
  import opened Wrappers
  import opened Text

  /** The five substrings that mark a line as websocket noise. */
  const Markers: seq<string> := ["PINGPONG", "send message >>", "received message >>", "### RECV", "### SEND"]

  /** `any(x in line for x in markers)`. */
  predicate AnyIn(line: string, markers: seq<string>)
    decreases |markers|
  {
    markers != [] && (Contains(line, markers[0]) || AnyIn(line, markers[1..]))
  }

  predicate IsNoise(line: string) {
    AnyIn(line, Markers)
  }

  /** A line is noise exactly when it contains one of the markers. */
  lemma {:induction false} AnyInSome(line: string, markers: seq<string>)
    ensures AnyIn(line, markers) <==> exists k :: 0 <= k < |markers| && Contains(line, markers[k])
    decreases |markers|
  {
    if markers != [] {
      AnyInSome(line, markers[1..]);
      if !Contains(line, markers[0]) && AnyIn(line, markers[1..]) {
        var k :| 0 <= k < |markers[1..]| && Contains(line, markers[1..][k]);
        assert Contains(line, markers[k + 1]);
      }
      if exists k :: 0 <= k < |markers| && Contains(line, markers[k]) {
        var k :| 0 <= k < |markers| && Contains(line, markers[k]);
        if k > 0 {
          assert markers[1..][k - 1] == markers[k];
        }
      }
    }
  }

  /** The complete (newline-terminated) lines of `t`, each without its newline. */
  function Lines(t: string): (r: seq<string>)
    ensures forall k :: 0 <= k < |r| ==> '\n' !in r[k]
    decreases |t|
  {
    match IndexOf(t, '\n')
    case None => []
    case Some(i) => [t[..i]] + Lines(t[i + 1..])
  }

  /** What follows the last newline of `t`: the part still waiting for its newline. */
  function Rest(t: string): (r: string)
    ensures '\n' !in r
    decreases |t|
  {
    match IndexOf(t, '\n')
    case None => t
    case Some(i) => Rest(t[i + 1..])
  }

  /** Lines put back together, each followed by its newline. */
  function Framed(ls: seq<string>): string {
    if ls == [] then "" else ls[0] + "\n" + Framed(ls[1..])
  }

  /** The strings the filter passes on for a run of complete lines. */
  function Kept(ls: seq<string>): (r: seq<string>)
    ensures |r| <= |ls|
  {
    if ls == [] then [] else Passed(ls[0]) + Kept(ls[1..])
  }

  /** What `write` passes on for one complete line: the line and its newline, unless it is noise. */
  function Passed(line: string): (r: seq<string>)
    ensures |r| <= 1
  {
    if IsNoise(line) then [] else [line + "\n"]
  }

  /** One step of `Lines` and `Rest` at the first newline. */
  lemma Unfold(t: string, i: nat)
    requires IndexOf(t, '\n') == Some(i)
    ensures Lines(t) == [t[..i]] + Lines(t[i + 1..])
    ensures Rest(t) == Rest(t[i + 1..])
  {
  }

  lemma UnfoldLast(t: string)
    requires IndexOf(t, '\n').None?
    ensures Lines(t) == [] && Rest(t) == t
  {
  }

  lemma KeptCons(l: string, ls: seq<string>)
    ensures Kept([l] + ls) == Passed(l) + Kept(ls)
  {
    assert ([l] + ls)[0] == l;
    assert ([l] + ls)[1..] == ls;
  }

  lemma FramedCons(l: string, ls: seq<string>)
    ensures Framed([l] + ls) == l + "\n" + Framed(ls)
  {
    assert ([l] + ls)[0] == l;
    assert ([l] + ls)[1..] == ls;
  }

  /** Splitting into lines loses nothing: the framed lines followed by the rest are the text. */
  lemma {:induction false} LinesConserve(t: string)
    ensures Framed(Lines(t)) + Rest(t) == t
    decreases |t|
  {
    var o := IndexOf(t, '\n');
    if o.Some? {
      var i := o.value;
      var u := t[i + 1..];
      Unfold(t, i);
      LinesConserve(u);
      FramedCons(t[..i], Lines(u));
      Around(t, i);
      calc {
        Framed(Lines(t)) + Rest(t);
        t[..i] + "\n" + Framed(Lines(u)) + Rest(u);
        t[..i] + "\n" + (Framed(Lines(u)) + Rest(u));
        t[..i] + [t[i]] + u;
        t;
      }
    }
  }

  lemma {:induction false} KeptAppend(a: seq<string>, b: seq<string>)
    ensures Kept(a + b) == Kept(a) + Kept(b)
  {
    if a == [] {
      assert a + b == b;
    } else {
      var h, t := a[0], a[1..];
      KeptAppend(t, b);
      assert a == [h] + t;
      assert a + b == [h] + (t + b);
      KeptCons(h, t + b);
      KeptCons(h, t);
      Assoc(Passed(h), Kept(t), Kept(b));
    }
  }

  /** A passed string is a whole line with its newline, and it carries no marker. */
  lemma {:induction false} KeptClean(ls: seq<string>)
    ensures forall k :: 0 <= k < |Kept(ls)| ==>
      exists x :: x in ls && !IsNoise(x) && Kept(ls)[k] == x + "\n"
  {
    if ls != [] {
      var tail := ls[1..];
      KeptClean(tail);
      var head := Passed(ls[0]);
      assert ls == [ls[0]] + tail;
      KeptCons(ls[0], tail);
      forall k | 0 <= k < |Kept(ls)|
        ensures exists x :: x in ls && !IsNoise(x) && Kept(ls)[k] == x + "\n"
      {
        if k < |head| {
          var x := ls[0];
          assert x in ls && !IsNoise(x) && Kept(ls)[k] == x + "\n";
        } else {
          assert Kept(ls)[k] == Kept(tail)[k - |head|];
          var x :| x in tail && !IsNoise(x) && Kept(tail)[k - |head|] == x + "\n";
          assert x in ls && !IsNoise(x) && Kept(ls)[k] == x + "\n";
        }
      }
    } else {
      assert Kept(ls) == [];
    }
  }

  /** Every line without a marker is passed on. */
  lemma {:induction false} KeptComplete(ls: seq<string>, j: nat)
    requires j < |ls| && !IsNoise(ls[j])
    ensures ls[j] + "\n" in Kept(ls)
  {
    assert ls == [ls[0]] + ls[1..];
    KeptCons(ls[0], ls[1..]);
    if j > 0 {
      KeptComplete(ls[1..], j - 1);
    }
  }

  /**
   * The lines of a text split in two are the lines of the first part followed by those of
   * what the first part left pending glued to the second: so chunking does not matter.
   */
  lemma {:induction false} LinesConcat(a: string, b: string)
    ensures Lines(a + b) == Lines(a) + Lines(Rest(a) + b)
    ensures Rest(a + b) == Rest(Rest(a) + b)
    decreases |a|
  {
    var o := IndexOf(a, '\n');
    if o.None? {
      UnfoldLast(a);
      assert Lines(a) + Lines(Rest(a) + b) == Lines(a + b);
    } else {
      var i := o.value;
      var u := a[i + 1..];
      Unfold(a, i);
      LinesConcat(u, b);
      FirstLineOfConcat(a, b, i);
      var p, l1, l2 := a[..i], Lines(u), Lines(Rest(u) + b);
      assert Lines(a + b) == [p] + (l1 + l2);
      assert Lines(a) == [p] + l1;
      Assoc([p], l1, l2);
    }
  }

  lemma Assoc(x: seq<string>, y: seq<string>, z: seq<string>)
    ensures x + (y + z) == (x + y) + z
  {
  }

  /** The first newline of `a` is also the first newline of `a + b`. */
  lemma FirstLineOfConcat(a: string, b: string, i: nat)
    requires IndexOf(a, '\n') == Some(i)
    ensures Lines(a + b) == [a[..i]] + Lines(a[i + 1..] + b)
    ensures Rest(a + b) == Rest(a[i + 1..] + b)
  {
    assert (a + b)[i] == '\n';
    assert forall j :: 0 <= j < i ==> (a + b)[j] == a[j];
    assert IndexOf(a + b, '\n') == Some(i);
    Unfold(a + b, i);
    assert (a + b)[..i] == a[..i];
    assert (a + b)[i + 1..] == a[i + 1..] + b;
  }

  /** Text without a newline completes no line: a write of it passes nothing on and only grows the buffer. */
  lemma NoNewlineNoOutput(buf: string, s: string)
    requires '\n' !in buf && '\n' !in s
    ensures Kept(Lines(buf + s)) == [] && Rest(buf + s) == buf + s
  {
    assert '\n' !in buf + s;
    UnfoldLast(buf + s);
  }

  /** What `flush` passes on for the pending text. */
  function Flushed(pending: string): (r: seq<string>)
    ensures |r| <= 1
    ensures r != [] <==> pending != [] && !IsNoise(pending)
    ensures forall k :: 0 <= k < |r| ==> r[k] == pending
  {
    if pending != [] && !IsNoise(pending) then [pending] else []
  }

  /** One turn of the `write` loop: cutting off the first line and passing it on loses nothing. */
  lemma WriteStep(written: seq<string>, buf: string, i: nat)
    requires IndexOf(buf, '\n') == Some(i)
    ensures written + Kept(Lines(buf)) == (written + Passed(buf[..i])) + Kept(Lines(buf[i + 1..]))
    ensures Rest(buf) == Rest(buf[i + 1..])
  {
    var line, after := buf[..i], buf[i + 1..];
    Unfold(buf, i);
    KeptCons(line, Lines(after));
    Assoc(written, Passed(line), Kept(Lines(after)));
  }

  /** The `write` loop ends when no newline is left: nothing more is passed on. */
  lemma WriteDone(written: seq<string>, buf: string)
    requires IndexOf(buf, '\n').None?
    ensures written + Kept(Lines(buf)) == written && Rest(buf) == buf && '\n' !in buf
  {
    UnfoldLast(buf);
    assert Kept([]) == [];
  }

  /** Bytes go in through `Write` and `Flush`; `written` is what the wrapped stream received. */
  class Filter {
    var buf: string
    var written: seq<string>

    constructor ()
      ensures buf == "" && written == []
      ensures Valid()
    {
      buf := "";
      written := [];
    }

    /** The text still held back never contains a newline: every method keeps this. */
    predicate Valid()
      reads this
    {
      '\n' !in buf
    }

    /**
     * Appends `s` and passes on every line it completes that is not noise; what follows the
     * last newline stays buffered.
     */
    method Write(s: string)
      modifies this
      ensures written == old(written) + Kept(Lines(old(buf) + s))
      ensures buf == Rest(old(buf) + s)
      ensures Valid()
    {
      buf := buf + s;
      ghost var out := old(written) + Kept(Lines(buf));
      ghost var rest := Rest(buf);
      var nl := IndexOf(buf, '\n');
      while nl.Some?
        invariant nl == IndexOf(buf, '\n')
        invariant written + Kept(Lines(buf)) == out
        invariant Rest(buf) == rest
        decreases |buf|
      {
        var line := buf[..nl.value];
        var after := buf[nl.value + 1..];
        WriteStep(written, buf, nl.value);
        buf := after;
        if !IsNoise(line) {
          assert Passed(line) == [line + "\n"];
          written := written + [line + "\n"];
        } else {
          assert Passed(line) == [];
          assert written + Passed(line) == written;
        }
        nl := IndexOf(buf, '\n');
      }
      WriteDone(written, buf);
    }

    /** Passes on the pending text, unless it is empty or noise, and empties the buffer. */
    method Flush()
      modifies this
      ensures buf == ""
      ensures written == old(written) + Flushed(old(buf))
      ensures Valid()
    {
      if buf != "" {
        if !IsNoise(buf) {
          written := written + [buf];
        }
        buf := "";
      }
    }
  }

  /**
   * Two writes pass on exactly what one write of the joined text would: the filter's output
   * does not depend on how the text was cut into `write` calls.
   */
  lemma WriteTwiceIsWriteOnce(buf: string, a: string, b: string)
    ensures Kept(Lines(buf + a)) + Kept(Lines(Rest(buf + a) + b)) == Kept(Lines(buf + a + b))
    ensures Rest(Rest(buf + a) + b) == Rest(buf + a + b)
  {
    LinesConcat(buf + a, b);
    KeptAppend(Lines(buf + a), Lines(Rest(buf + a) + b));
  }
}
