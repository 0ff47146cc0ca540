/**
 * The earlier, signal-only monitor of `examples_llm/domestic_futureoption/wag_dog_monitor.py`.
 * It keeps the same two readings and backwardation latch as the main monitor but holds no
 * position: it sends one entry alert, at most once per monitor, when both readings reach
 * their thresholds inside the 09:00-10:30 window, and it has no exit.
 */
module EntryAlertMonitor {
  import opened Wrappers
  import opened Series
  import opened Ticks

  /** Telegram messages as tagged events. */
  datatype Event =
    | BackwardationWarning(basis: real)
    | EntryAlert(basis: real, netBuy: real)

  datatype Config = Config(basisTh: real, nabtNtbyTh: int)

  /** The monitor's mutable attributes. */
  datatype State = State(lastBasis: Option<real>, lastNabtNtby: Option<real>, notifiedBuy: bool, notifiedWarn: bool)

  datatype Outcome = Outcome(next: State, events: seq<Event>)

  /** The attributes set by `__init__`. */
  const Initial: State := State(None, None, false, false)

  /** Both readings are known and both reach their threshold. */
  predicate EntryRule(cfg: Config, basis: Option<real>, netBuy: Option<real>) {
    && basis.Some? && netBuy.Some?
    && basis.value >= cfg.basisTh
    && netBuy.value >= cfg.nabtNtbyTh as real
  }

  function Warnings(es: seq<Event>): nat {
    if es == [] then 0
    else (if es[0].BackwardationWarning? then 1 else 0) + Warnings(es[1..])
  }

  function EntryAlerts(es: seq<Event>): nat {
    if es == [] then 0
    else (if es[0].EntryAlert? then 1 else 0) + EntryAlerts(es[1..])
  }

  lemma {:induction false} CountsAppend(a: seq<Event>, b: seq<Event>)
    ensures Warnings(a + b) == Warnings(a) + Warnings(b)
    ensures EntryAlerts(a + b) == EntryAlerts(a) + EntryAlerts(b)
  {
    if a != [] {
      CountsAppend(a[1..], b);
      assert (a + b)[0] == a[0];
      assert (a + b)[1..] == a[1..] + b;
    } else {
      assert a + b == b;
    }
  }

  /** The entry latch: alert once, when the rule holds and no alert was sent before. */
  function EntryCheck(cfg: Config, s: State): (o: Outcome)
    ensures o.next == s.(notifiedBuy := o.next.notifiedBuy)
    ensures o.next.notifiedBuy <==> s.notifiedBuy || EntryRule(cfg, s.lastBasis, s.lastNabtNtby)
    ensures EntryAlerts(o.events) == (if o.next.notifiedBuy && !s.notifiedBuy then 1 else 0)
    ensures Warnings(o.events) == 0
    // the alert carries the two readings
    ensures o.events == if o.next.notifiedBuy && !s.notifiedBuy
      then [EntryAlert(s.lastBasis.value, s.lastNabtNtby.value)] else []
  {
    if EntryRule(cfg, s.lastBasis, s.lastNabtNtby) && !s.notifiedBuy then
      Outcome(s.(notifiedBuy := true), [EntryAlert(s.lastBasis.value, s.lastNabtNtby.value)])
    else
      Outcome(s, [])
  }

  /** One call of `on_result(ws, tr_id, result, data_map)` at clock reading `hm`. */
  function Step(cfg: Config, s: State, hm: int, result: Option<Tick>): (o: Outcome)
    // an empty result, or one of another transaction id, changes nothing
    ensures result.None? ==> o == Outcome(s, [])
    ensures result.Some? && result.value.trId != FuturesTr && result.value.trId != ProgramTr ==> o == Outcome(s, [])
    // a basis result never touches the net buy and vice versa; parse failures keep the old value
    ensures result.Some? && result.value.trId == FuturesTr ==>
      o.next.lastNabtNtby == s.lastNabtNtby && o.next.lastBasis == Refresh(s.lastBasis, Column(result.value, BasisCol))
    ensures result.Some? && result.value.trId == ProgramTr ==>
      o.next.lastBasis == s.lastBasis && o.next.lastNabtNtby == Refresh(s.lastNabtNtby, Column(result.value, NetBuyCol))
    // the entry alert: at most once, and only inside the window with both readings at threshold
    ensures o.next.notifiedBuy <==> (s.notifiedBuy ||
      (result.Some? && (result.value.trId == FuturesTr || result.value.trId == ProgramTr) &&
       InWindow(hm) && EntryRule(cfg, o.next.lastBasis, o.next.lastNabtNtby)))
    ensures EntryAlerts(o.events) == (if o.next.notifiedBuy && !s.notifiedBuy then 1 else 0)
    // the backwardation warning: latched, after a futures result with a negative basis in the window
    ensures o.next.notifiedWarn <==> (s.notifiedWarn ||
      (result.Some? && result.value.trId == FuturesTr && InWindow(hm) && o.next.lastBasis.Some? && o.next.lastBasis.value < 0.0))
    ensures Warnings(o.events) == (if o.next.notifiedWarn && !s.notifiedWarn then 1 else 0)
    // what is sent, in order: the warning with the basis, then the alert with both readings
    ensures o.events ==
      (if o.next.notifiedWarn && !s.notifiedWarn then [BackwardationWarning(o.next.lastBasis.value)] else []) +
      (if o.next.notifiedBuy && !s.notifiedBuy then [EntryAlert(o.next.lastBasis.value, o.next.lastNabtNtby.value)] else [])
  {
    match result
    case None => Outcome(s, [])
    case Some(t) =>
      if t.trId == FuturesTr then
        var s1 := s.(lastBasis := Refresh(s.lastBasis, Column(t, BasisCol)));
        if s1.lastBasis.Some? && InWindow(hm) then
          var w := if s1.lastBasis.value < 0.0 && !s1.notifiedWarn
            then Outcome(s1.(notifiedWarn := true), [BackwardationWarning(s1.lastBasis.value)])
            else Outcome(s1, []);
          var e := EntryCheck(cfg, w.next);
          CountsAppend(w.events, e.events);
          Outcome(e.next, w.events + e.events)
        else
          Outcome(s1, [])
      else if t.trId == ProgramTr then
        var s1 := s.(lastNabtNtby := Refresh(s.lastNabtNtby, Column(t, NetBuyCol)));
        if s1.lastNabtNtby.Some? && InWindow(hm) then EntryCheck(cfg, s1)
        else Outcome(s1, [])
      else
        Outcome(s, [])
  }

  datatype Input = Input(hm: int, result: Option<Tick>)

  /** The monitor fed a sequence of results in arrival order. */
  function Run(cfg: Config, s: State, inputs: seq<Input>): Outcome
    decreases |inputs|
  {
    if inputs == [] then Outcome(s, [])
    else
      var first := Step(cfg, s, inputs[0].hm, inputs[0].result);
      var rest := Run(cfg, first.next, inputs[1..]);
      Outcome(rest.next, first.events + rest.events)
  }

  /**
   * Over any sequence of results each latch fires at most once, not at all once set, and is
   * never reset.
   */
  lemma {:induction false} RunAlertsAtMostOnce(cfg: Config, s: State, inputs: seq<Input>)
    ensures EntryAlerts(Run(cfg, s, inputs).events) <= (if s.notifiedBuy then 0 else 1)
    ensures Warnings(Run(cfg, s, inputs).events) <= (if s.notifiedWarn then 0 else 1)
    ensures s.notifiedBuy ==> Run(cfg, s, inputs).next.notifiedBuy
    ensures s.notifiedWarn ==> Run(cfg, s, inputs).next.notifiedWarn
    decreases |inputs|
  {
    if inputs != [] {
      var first := Step(cfg, s, inputs[0].hm, inputs[0].result);
      var rest := Run(cfg, first.next, inputs[1..]);
      RunAlertsAtMostOnce(cfg, first.next, inputs[1..]);
      CountsAppend(first.events, rest.events);
    }
  }

  /** From construction on, at most one entry alert and one warning are ever sent. */
  lemma SessionFromConstruction(cfg: Config, inputs: seq<Input>)
    ensures EntryAlerts(Run(cfg, Initial, inputs).events) <= 1
    ensures Warnings(Run(cfg, Initial, inputs).events) <= 1
  {
    RunAlertsAtMostOnce(cfg, Initial, inputs);
  }

  /** The monitor object: the attributes `on_result` updates in place. */
  class Monitor {
    const futCode: string
    const idxKeys: seq<string>
    const basisTh: real
    const nabtNtbyTh: int
    var lastBasis: Option<real>
    var lastNabtNtby: Option<real>
    var notifiedBuy: bool
    var notifiedWarn: bool
    /** Everything sent so far, oldest first. */
    ghost var events: seq<Event>

    function Cfg(): Config {
      Config(basisTh, nabtNtbyTh)
    }

    function Snapshot(): State
      reads this
    {
      State(lastBasis, lastNabtNtby, notifiedBuy, notifiedWarn)
    }

    constructor (futCode: string, idxKeys: seq<string>, basisTh: real := 0.20, nabtNtbyTh: int := 1500)
      ensures this.futCode == futCode && this.idxKeys == idxKeys
      ensures this.basisTh == basisTh && this.nabtNtbyTh == nabtNtbyTh
      ensures Snapshot() == Initial && events == []
    {
      this.futCode := futCode;
      this.idxKeys := idxKeys;
      this.basisTh := basisTh;
      this.nabtNtbyTh := nabtNtbyTh;
      lastBasis := None;
      lastNabtNtby := None;
      notifiedBuy := false;
      notifiedWarn := false;
      events := [];
    }

    /** `on_result` for `result` (None for a None or empty frame) with the clock at `hm`. */
    method OnResult(hm: int, result: Option<Tick>)
      modifies this
      ensures Snapshot() == Step(Cfg(), old(Snapshot()), hm, result).next
      ensures events == old(events) + Step(Cfg(), old(Snapshot()), hm, result).events
    {
      if result.None? {
        return;
      }
      var t := result.value;
      if t.trId == FuturesTr {
        OnFutures(hm, t);
      } else if t.trId == ProgramTr {
        OnProgram(hm, t);
      }
    }

    /** `on_result` for a futures result: the basis, the warning latch and the entry check. */
    method OnFutures(hm: int, t: Tick)
      requires t.trId == FuturesTr
      modifies this
      ensures Snapshot() == Step(Cfg(), old(Snapshot()), hm, Some(t)).next
      ensures events == old(events) + Step(Cfg(), old(Snapshot()), hm, Some(t)).events
    {
      var col := Column(t, BasisCol);
      if col.Some? {
        var v := LastSome(col.value);
        if v.Some? {
          lastBasis := v;
        }
      }
      if lastBasis.Some? && InWindow(hm) {
        if lastBasis.value < 0.0 && !notifiedWarn {
          events := events + [BackwardationWarning(lastBasis.value)];
          notifiedWarn := true;
        }
        if lastBasis.value >= basisTh && lastNabtNtby.Some? && lastNabtNtby.value >= nabtNtbyTh as real && !notifiedBuy {
          events := events + [EntryAlert(lastBasis.value, lastNabtNtby.value)];
          notifiedBuy := true;
        }
      }
    }

    /** `on_result` for a program-trade result: the net buy and the entry check. */
    method OnProgram(hm: int, t: Tick)
      requires t.trId == ProgramTr
      modifies this
      ensures Snapshot() == Step(Cfg(), old(Snapshot()), hm, Some(t)).next
      ensures events == old(events) + Step(Cfg(), old(Snapshot()), hm, Some(t)).events
    {
      var col := Column(t, NetBuyCol);
      if col.Some? {
        var v := LastSome(col.value);
        if v.Some? {
          lastNabtNtby := v;
        }
      }
      if lastNabtNtby.Some? && InWindow(hm) {
        if lastBasis.Some? && lastBasis.value >= basisTh && lastNabtNtby.value >= nabtNtbyTh as real && !notifiedBuy {
          events := events + [EntryAlert(lastBasis.value, lastNabtNtby.value)];
          notifiedBuy := true;
        }
      }
    }
  }
}
