/**
 * The arbitrage-signal monitor of `wag_dog_monitor.py`: it keeps the last futures basis and
 * the last program-trade net buy, raises a one-shot backwardation warning, and inside the
 * 09:00-10:30 window opens and closes a single position with entry and exit thresholds.
 *
 * `Step` is the pure meaning of one `on_result` call; `Monitor.OnResult` is the imperative
 * method over the object's fields, proved to agree with `Step`. The properties of the
 * monitor are stated on `Step` and, across a sequence of results, on `Run`.
 */
module WagDogMonitor {
  import opened Wrappers
  import opened Series
  import opened Ticks

  /** What the monitor reports: logging and Telegram messages as tagged events. */
  datatype Event =
    | BackwardationWarning(basis: real)
    | StateLog(when: string, shownBasis: Option<real>, shownNetBuy: Option<real>, holding: bool)
    | BuySignal(basis: real, netBuy: real)
    | SellSignal(basis: real, netBuy: real)

  /** The two thresholds given to the constructor. */
  datatype Config = Config(basisTh: real, nabtNtbyTh: int)

  /** The monitor's mutable attributes. */
  datatype State = State(
    lastBasis: Option<real>,
    lastNabtNtby: Option<real>,
    notifiedBuy: bool,
    notifiedWarn: bool,
    hasPosition: bool,
    entryBasis: Option<real>,
    entryNabt: Option<real>)

  /** The new attributes after one call, and the events the call reported, in order. */
  datatype Outcome = Outcome(next: State, events: seq<Event>)

  /** The attributes set by `__init__`. */
  const Initial: State := State(None, None, false, false, false, None, None)

  /** The entry snapshot is all-or-nothing and present exactly while a position is held. */
  predicate PositionInv(s: State) {
    if s.hasPosition then s.entryBasis.Some? && s.entryNabt.Some?
    else s.entryBasis.None? && s.entryNabt.None?
  }

  function Max(a: real, b: real): real {
    if a >= b then a else b
  }

  /** The basis level below which a held position is closed: `max(0.05, basis_th * 0.7)`. */
  function ExitBasisFloor(cfg: Config): real {
    Max(0.05, cfg.basisTh * 0.7)
  }

  /** Both readings are known and both reach their entry threshold. */
  predicate EntryRule(cfg: Config, basis: Option<real>, netBuy: Option<real>) {
    && basis.Some? && netBuy.Some?
    && basis.value >= cfg.basisTh
    && netBuy.value >= cfg.nabtNtbyTh as real
  }

  /** Both readings are known and one of them has fallen below its exit level. */
  predicate ExitRule(cfg: Config, basis: Option<real>, netBuy: Option<real>) {
    && basis.Some? && netBuy.Some?
    && (basis.value < ExitBasisFloor(cfg) || netBuy.value < cfg.nabtNtbyTh as real * 0.6)
  }

  /** Number of backwardation warnings among `es`. */
  function Warnings(es: seq<Event>): nat {
    if es == [] then 0
    else (if es[0].BackwardationWarning? then 1 else 0) + Warnings(es[1..])
  }

  /** Number of buy and sell signals among `es`. */
  function Signals(es: seq<Event>): nat {
    if es == [] then 0
    else (if es[0].BuySignal? || es[0].SellSignal? then 1 else 0) + Signals(es[1..])
  }

  /** The kinds of the buy and sell signals among `es`, in order: `true` for a buy, `false` for a sell. */
  function Kinds(es: seq<Event>): seq<bool> {
    if es == [] then []
    else (if es[0].BuySignal? then [true] else if es[0].SellSignal? then [false] else []) + Kinds(es[1..])
  }

  /** `ks` alternates, starting with `first`. */
  predicate Alternates(ks: seq<bool>, first: bool)
    decreases |ks|
  {
    ks == [] || (ks[0] == first && Alternates(ks[1..], !first))
  }

  lemma {:induction false} WarningsAppend(a: seq<Event>, b: seq<Event>)
    ensures Warnings(a + b) == Warnings(a) + Warnings(b)
  {
    if a != [] {
      WarningsAppend(a[1..], b);
      assert (a + b)[0] == a[0];
      assert (a + b)[1..] == a[1..] + b;
    } else {
      assert a + b == b;
    }
  }

  lemma {:induction false} SignalsAppend(a: seq<Event>, b: seq<Event>)
    ensures Signals(a + b) == Signals(a) + Signals(b)
  {
    if a != [] {
      SignalsAppend(a[1..], b);
      assert (a + b)[0] == a[0];
      assert (a + b)[1..] == a[1..] + b;
    } else {
      assert a + b == b;
    }
  }

  lemma {:induction false} KindsAppend(a: seq<Event>, b: seq<Event>)
    ensures Kinds(a + b) == Kinds(a) + Kinds(b)
  {
    if a != [] {
      KindsAppend(a[1..], b);
      assert (a + b)[0] == a[0];
      assert (a + b)[1..] == a[1..] + b;
    } else {
      assert a + b == b;
    }
  }

  /**
   * Tick ingestion: a futures result can only replace `last_basis`, a program-trade result
   * only `last_nabt_ntby`; a missing column or a column without a number keeps the old
   * reading, and any other transaction id changes nothing.
   */
  function Ingest(s: State, t: Tick): (r: State)
    ensures r.(lastBasis := s.lastBasis, lastNabtNtby := s.lastNabtNtby) == s
    ensures r.lastBasis == if t.trId == FuturesTr then Refresh(s.lastBasis, Column(t, BasisCol)) else s.lastBasis
    ensures r.lastNabtNtby == if t.trId == ProgramTr then Refresh(s.lastNabtNtby, Column(t, NetBuyCol)) else s.lastNabtNtby
    ensures s.lastBasis.Some? ==> r.lastBasis.Some?
    ensures s.lastNabtNtby.Some? ==> r.lastNabtNtby.Some?
  {
    if t.trId == FuturesTr then s.(lastBasis := Refresh(s.lastBasis, Column(t, BasisCol)))
    else if t.trId == ProgramTr then s.(lastNabtNtby := Refresh(s.lastNabtNtby, Column(t, NetBuyCol)))
    else s
  }

  /**
   * The backwardation latch, checked after a futures result: inside the window, a known
   * negative basis raises the warning unless it was raised before.
   */
  function Warn(s: State, hm: int, trId: string): (o: Outcome)
    ensures o.next == s.(notifiedWarn := o.next.notifiedWarn)
    ensures o.next.notifiedWarn <==>
      s.notifiedWarn || (trId == FuturesTr && InWindow(hm) && s.lastBasis.Some? && s.lastBasis.value < 0.0)
    ensures Warnings(o.events) == (if o.next.notifiedWarn && !s.notifiedWarn then 1 else 0)
    ensures Signals(o.events) == 0 && Kinds(o.events) == []
    // the warning carries the basis
    ensures o.events == if o.next.notifiedWarn && !s.notifiedWarn then [BackwardationWarning(s.lastBasis.value)] else []
  {
    if trId == FuturesTr && s.lastBasis.Some? && InWindow(hm) && s.lastBasis.value < 0.0 && !s.notifiedWarn then
      Outcome(s.(notifiedWarn := true), [BackwardationWarning(s.lastBasis.value)])
    else
      Outcome(s, [])
  }

  /**
   * The decision block. Outside the window nothing happens. Inside it the state is logged,
   * then a flat monitor opens a position when the entry rule holds (taking the current
   * readings as the entry snapshot), and otherwise a holding monitor closes it when the exit
   * rule holds (clearing the snapshot). The two branches are exclusive.
   */
  function Decide(cfg: Config, s: State, hm: int, when: string): (o: Outcome)
    ensures PositionInv(s) ==> PositionInv(o.next)
    ensures o.next.(hasPosition := s.hasPosition, entryBasis := s.entryBasis, entryNabt := s.entryNabt) == s
    ensures !InWindow(hm) ==> o == Outcome(s, [])
    ensures (!s.hasPosition && o.next.hasPosition) <==> (InWindow(hm) && !s.hasPosition && EntryRule(cfg, s.lastBasis, s.lastNabtNtby))
    ensures (s.hasPosition && !o.next.hasPosition) <==> (InWindow(hm) && s.hasPosition && ExitRule(cfg, s.lastBasis, s.lastNabtNtby))
    ensures !s.hasPosition && o.next.hasPosition ==> o.next.entryBasis == s.lastBasis && o.next.entryNabt == s.lastNabtNtby
    ensures o.next.hasPosition == s.hasPosition ==> o.next == s
    ensures Signals(o.events) == (if o.next.hasPosition != s.hasPosition then 1 else 0)
    ensures Warnings(o.events) == 0
    // what is reported: the state line, then a buy on entry and a sell on exit, with the readings
    ensures InWindow(hm) && !s.hasPosition && EntryRule(cfg, s.lastBasis, s.lastNabtNtby) ==>
      o.events == [StateLog(when, s.lastBasis, s.lastNabtNtby, s.hasPosition), BuySignal(s.lastBasis.value, s.lastNabtNtby.value)]
    ensures InWindow(hm) && s.hasPosition && ExitRule(cfg, s.lastBasis, s.lastNabtNtby) ==>
      o.events == [StateLog(when, s.lastBasis, s.lastNabtNtby, s.hasPosition), SellSignal(s.lastBasis.value, s.lastNabtNtby.value)]
    ensures InWindow(hm) && o.next.hasPosition == s.hasPosition ==>
      o.events == [StateLog(when, s.lastBasis, s.lastNabtNtby, s.hasPosition)]
    ensures Kinds(o.events) == if o.next.hasPosition != s.hasPosition then [o.next.hasPosition] else []
  {
    if !InWindow(hm) then Outcome(s, [])
    else
      var log := StateLog(when, s.lastBasis, s.lastNabtNtby, s.hasPosition);
      if s.lastBasis.Some? && s.lastNabtNtby.Some? then
        var b, n := s.lastBasis.value, s.lastNabtNtby.value;
        if !s.hasPosition && b >= cfg.basisTh && n >= cfg.nabtNtbyTh as real then
          SignalsAppend([log], [BuySignal(b, n)]);
          WarningsAppend([log], [BuySignal(b, n)]);
          KindsAppend([log], [BuySignal(b, n)]);
          Outcome(s.(hasPosition := true, entryBasis := Some(b), entryNabt := Some(n)), [log] + [BuySignal(b, n)])
        else if s.hasPosition && (b < Max(0.05, cfg.basisTh * 0.7) || n < cfg.nabtNtbyTh as real * 0.6) then
          SignalsAppend([log], [SellSignal(b, n)]);
          WarningsAppend([log], [SellSignal(b, n)]);
          KindsAppend([log], [SellSignal(b, n)]);
          Outcome(s.(hasPosition := false, entryBasis := None, entryNabt := None), [log] + [SellSignal(b, n)])
        else
          Outcome(s, [log])
      else
        Outcome(s, [log])
  }

  /** One call of `on_result(ws, tr_id, result, data_map)` at clock reading `hm`/`clock`. */
  function Step(cfg: Config, s: State, hm: int, clock: string, result: Option<Tick>): (o: Outcome)
    // an empty result changes nothing
    ensures result.None? ==> o == Outcome(s, [])
    // all-or-nothing entry snapshot
    ensures PositionInv(s) ==> PositionInv(o.next)
    // stale readings persist and never return to None
    ensures result.Some? && result.value.trId != FuturesTr ==> o.next.lastBasis == s.lastBasis
    ensures result.Some? && result.value.trId != ProgramTr ==> o.next.lastNabtNtby == s.lastNabtNtby
    ensures s.lastBasis.Some? ==> o.next.lastBasis.Some?
    ensures s.lastNabtNtby.Some? ==> o.next.lastNabtNtby.Some?
    // outside the window only the readings move
    ensures !InWindow(hm) ==> o.events == [] && o.next == s.(lastBasis := o.next.lastBasis, lastNabtNtby := o.next.lastNabtNtby)
    // entry from flat, on the readings after ingestion, for any transaction id
    ensures (!s.hasPosition && o.next.hasPosition) <==>
      (result.Some? && InWindow(hm) && !s.hasPosition && EntryRule(cfg, o.next.lastBasis, o.next.lastNabtNtby))
    ensures !s.hasPosition && o.next.hasPosition ==>
      o.next.entryBasis == o.next.lastBasis && o.next.entryNabt == o.next.lastNabtNtby
    // exit from open
    ensures (s.hasPosition && !o.next.hasPosition) <==>
      (result.Some? && InWindow(hm) && s.hasPosition && ExitRule(cfg, o.next.lastBasis, o.next.lastNabtNtby))
    ensures s.hasPosition && o.next.hasPosition ==> o.next.entryBasis == s.entryBasis && o.next.entryNabt == s.entryNabt
    // at most one signal, and only with a change of position
    ensures Signals(o.events) == (if o.next.hasPosition != s.hasPosition then 1 else 0)
    // the one-shot backwardation warning
    ensures o.next.notifiedWarn <==> (s.notifiedWarn ||
      (result.Some? && result.value.trId == FuturesTr && InWindow(hm) && o.next.lastBasis.Some? && o.next.lastBasis.value < 0.0))
    ensures Warnings(o.events) == (if o.next.notifiedWarn && !s.notifiedWarn then 1 else 0)
    ensures o.next.notifiedBuy == s.notifiedBuy
  {
    match result
    case None => Outcome(s, [])
    case Some(t) =>
      var when := TickTime(t.bsopHour, clock);
      var w := Warn(Ingest(s, t), hm, t.trId);
      var d := Decide(cfg, w.next, hm, when);
      WarningsAppend(w.events, d.events);
      SignalsAppend(w.events, d.events);
      Outcome(d.next, w.events + d.events)
  }

  /** A result that is present is ingested, checked for the warning and then decided on. */
  lemma StepUnfold(cfg: Config, s: State, hm: int, clock: string, t: Tick)
    ensures var w := Warn(Ingest(s, t), hm, t.trId);
      var d := Decide(cfg, w.next, hm, TickTime(t.bsopHour, clock));
      Step(cfg, s, hm, clock, Some(t)) == Outcome(d.next, w.events + d.events)
  {
  }

  /**
   * What one call signals: a buy on entry, carrying the entry snapshot, and a sell on exit,
   * carrying the readings after ingestion; nothing when the position stays.
   */
  lemma StepSignals(cfg: Config, s: State, hm: int, clock: string, result: Option<Tick>)
    ensures var o := Step(cfg, s, hm, clock, result);
      Kinds(o.events) == if o.next.hasPosition != s.hasPosition then [o.next.hasPosition] else []
    ensures var o := Step(cfg, s, hm, clock, result);
      !s.hasPosition && o.next.hasPosition ==>
        o.next.entryBasis.Some? && o.next.entryNabt.Some? && BuySignal(o.next.entryBasis.value, o.next.entryNabt.value) in o.events
    ensures var o := Step(cfg, s, hm, clock, result);
      s.hasPosition && !o.next.hasPosition ==>
        o.next.lastBasis.Some? && o.next.lastNabtNtby.Some? && SellSignal(o.next.lastBasis.value, o.next.lastNabtNtby.value) in o.events
  {
    if result.Some? {
      var t := result.value;
      var w := Warn(Ingest(s, t), hm, t.trId);
      var d := Decide(cfg, w.next, hm, TickTime(t.bsopHour, clock));
      StepUnfold(cfg, s, hm, clock, t);
      KindsAppend(w.events, d.events);
    }
  }

  /** One result handed to the callback, with the clock readings at that moment. */
  datatype Input = Input(hm: int, clock: string, result: Option<Tick>)

  /**
   * The monitor fed a sequence of results in arrival order: at most one signal per result,
   * and an odd number exactly when the position changed.
   */
  function Run(cfg: Config, s: State, inputs: seq<Input>): (o: Outcome)
    ensures Signals(o.events) <= |inputs|
    ensures Signals(o.events) % 2 == (if o.next.hasPosition != s.hasPosition then 1 else 0)
    decreases |inputs|
  {
    if inputs == [] then Outcome(s, [])
    else
      var first := Step(cfg, s, inputs[0].hm, inputs[0].clock, inputs[0].result);
      var rest := Run(cfg, first.next, inputs[1..]);
      SignalsCompose(s, first, rest, |inputs| - 1);
      Outcome(rest.next, first.events + rest.events)
  }

  /** One step followed by a run: the signal counts add up. */
  lemma SignalsCompose(s: State, first: Outcome, rest: Outcome, n: nat)
    requires Signals(first.events) == (if first.next.hasPosition != s.hasPosition then 1 else 0)
    requires Signals(rest.events) <= n
    requires Signals(rest.events) % 2 == (if rest.next.hasPosition != first.next.hasPosition then 1 else 0)
    ensures Signals(first.events + rest.events) <= n + 1
    ensures Signals(first.events + rest.events) % 2 == (if rest.next.hasPosition != s.hasPosition then 1 else 0)
  {
    SignalsAppend(first.events, rest.events);
  }

  /** A step's kinds followed by an alternating run's kinds still alternate, from the old position. */
  lemma KindsCompose(p0: bool, p1: bool, kf: seq<bool>, kr: seq<bool>)
    requires kf == if p1 != p0 then [p1] else []
    requires Alternates(kr, !p1)
    ensures Alternates(kf + kr, !p0)
  {
    if p1 != p0 {
      assert (kf + kr)[0] == !p0 && (kf + kr)[1..] == kr;
    } else {
      assert kf + kr == kr;
    }
  }

  /** An alternating sequence ends on its first kind after an odd length, on the other after an even one. */
  lemma {:induction false} AlternatesLast(ks: seq<bool>, first: bool)
    requires Alternates(ks, first) && ks != []
    ensures ks[|ks| - 1] == if |ks| % 2 == 1 then first else !first
    decreases |ks|
  {
    if |ks| > 1 {
      AlternatesLast(ks[1..], !first);
    }
  }

  /**
   * Alternating kinds from the other side of `p0`, whose number is odd exactly when `p2`
   * differs from `p0`, end on `p2`; none at all means `p2` is `p0`.
   */
  lemma AlternationEnds(p0: bool, o: Outcome)
    requires Alternates(Kinds(o.events), !p0)
    requires Signals(o.events) % 2 == (if o.next.hasPosition != p0 then 1 else 0)
    ensures Kinds(o.events) != [] ==> Kinds(o.events)[|Kinds(o.events)| - 1] == o.next.hasPosition
    ensures Kinds(o.events) == [] ==> o.next.hasPosition == p0
  {
    KindsCount(o.events);
    if Kinds(o.events) != [] {
      AlternatesLast(Kinds(o.events), !p0);
    }
  }

  /** Counting the signals is counting their kinds. */
  lemma {:induction false} KindsCount(es: seq<Event>)
    ensures |Kinds(es)| == Signals(es)
  {
    if es != [] {
      KindsCount(es[1..]);
    }
  }

  /**
   * Over any sequence of results the signals alternate between buy and sell, starting with a
   * buy from a flat monitor and a sell from a holding one.
   */
  lemma {:induction false} RunAlternates(cfg: Config, s: State, inputs: seq<Input>)
    ensures Alternates(Kinds(Run(cfg, s, inputs).events), !s.hasPosition)
    decreases |inputs|
  {
    if inputs == [] {
      assert Run(cfg, s, inputs).events == [];
    } else {
      var first := Step(cfg, s, inputs[0].hm, inputs[0].clock, inputs[0].result);
      var rest := Run(cfg, first.next, inputs[1..]);
      RunAlternates(cfg, first.next, inputs[1..]);
      StepSignals(cfg, s, inputs[0].hm, inputs[0].clock, inputs[0].result);
      KindsAppend(first.events, rest.events);
      KindsCompose(s.hasPosition, first.next.hasPosition, Kinds(first.events), Kinds(rest.events));
    }
  }

  /**
   * The last signal of a run matches the final position (a buy iff it ends holding), and a
   * run without signals ends in the position it started from.
   */
  lemma RunEndsOnPosition(cfg: Config, s: State, inputs: seq<Input>)
    ensures var o := Run(cfg, s, inputs);
      Kinds(o.events) != [] ==> Kinds(o.events)[|Kinds(o.events)| - 1] == o.next.hasPosition
    ensures var o := Run(cfg, s, inputs);
      Kinds(o.events) == [] ==> o.next.hasPosition == s.hasPosition
  {
    RunAlternates(cfg, s, inputs);
    AlternationEnds(s.hasPosition, Run(cfg, s, inputs));
  }

  /** The all-or-nothing position invariant holds after any sequence of results. */
  lemma {:induction false} RunKeepsPositionInv(cfg: Config, s: State, inputs: seq<Input>)
    requires PositionInv(s)
    ensures PositionInv(Run(cfg, s, inputs).next)
    decreases |inputs|
  {
    if inputs != [] {
      var first := Step(cfg, s, inputs[0].hm, inputs[0].clock, inputs[0].result);
      RunKeepsPositionInv(cfg, first.next, inputs[1..]);
    }
  }

  /**
   * The backwardation warning fires at most once over any sequence of results, not at all
   * once it has fired, and the latch is never reset.
   */
  lemma {:induction false} RunWarnsAtMostOnce(cfg: Config, s: State, inputs: seq<Input>)
    ensures Warnings(Run(cfg, s, inputs).events) <= (if s.notifiedWarn then 0 else 1)
    ensures s.notifiedWarn ==> Run(cfg, s, inputs).next.notifiedWarn
    decreases |inputs|
  {
    if inputs != [] {
      var first := Step(cfg, s, inputs[0].hm, inputs[0].clock, inputs[0].result);
      var rest := Run(cfg, first.next, inputs[1..]);
      RunWarnsAtMostOnce(cfg, first.next, inputs[1..]);
      WarningsAppend(first.events, rest.events);
    }
  }

  /** A reading, once known, stays known over any sequence of results. */
  lemma {:induction false} RunKeepsReadings(cfg: Config, s: State, inputs: seq<Input>)
    ensures s.lastBasis.Some? ==> Run(cfg, s, inputs).next.lastBasis.Some?
    ensures s.lastNabtNtby.Some? ==> Run(cfg, s, inputs).next.lastNabtNtby.Some?
    decreases |inputs|
  {
    if inputs != [] {
      var first := Step(cfg, s, inputs[0].hm, inputs[0].clock, inputs[0].result);
      RunKeepsReadings(cfg, first.next, inputs[1..]);
    }
  }

  /**
   * From construction on: the invariant always holds, at most one warning is sent, and the
   * signals run buy, sell, buy, ... with the first one a buy.
   */
  lemma SessionFromConstruction(cfg: Config, inputs: seq<Input>)
    ensures PositionInv(Run(cfg, Initial, inputs).next)
    ensures Warnings(Run(cfg, Initial, inputs).events) <= 1
    ensures Alternates(Kinds(Run(cfg, Initial, inputs).events), true)
  {
    RunKeepsPositionInv(cfg, Initial, inputs);
    RunWarnsAtMostOnce(cfg, Initial, inputs);
    RunAlternates(cfg, Initial, inputs);
  }

  /**
   * Hysteresis: with `basis_th >= 0.05` and a non-negative net-buy threshold, readings that
   * satisfy the entry rule never satisfy the exit rule.
   */
  lemma Hysteresis(cfg: Config, basis: Option<real>, netBuy: Option<real>)
    requires cfg.basisTh >= 0.05 && cfg.nabtNtbyTh >= 0
    ensures EntryRule(cfg, basis, netBuy) ==> !ExitRule(cfg, basis, netBuy)
  {
  }

  /** Without the 0.05 floor under `basis_th` the band collapses: a reading can meet both rules. */
  lemma HysteresisNeedsFloor(cfg: Config)
    requires 0.0 < cfg.basisTh < 0.05 && cfg.nabtNtbyTh >= 0
    ensures EntryRule(cfg, Some(cfg.basisTh), Some(cfg.nabtNtbyTh as real))
    ensures ExitRule(cfg, Some(cfg.basisTh), Some(cfg.nabtNtbyTh as real))
  {
  }

  /**
   * A held position whose readings still meet the entry rule is kept by any result that
   * leaves the readings as they are (a result of another transaction id, or one without a
   * new number).
   */
  lemma HeldOnEntryLevels(cfg: Config, s: State, hm: int, clock: string, result: Option<Tick>)
    requires cfg.basisTh >= 0.05 && cfg.nabtNtbyTh >= 0
    requires s.hasPosition && EntryRule(cfg, s.lastBasis, s.lastNabtNtby)
    requires result.Some? ==>
      Ingest(s, result.value).lastBasis == s.lastBasis && Ingest(s, result.value).lastNabtNtby == s.lastNabtNtby
    ensures Step(cfg, s, hm, clock, result).next.hasPosition
  {
    Hysteresis(cfg, s.lastBasis, s.lastNabtNtby);
  }

  /** The monitor object: the attributes `on_result` updates in place. */
  class Monitor {
    const futCode: string
    const idxKeys: seq<string>
    const basisTh: real
    const nabtNtbyTh: int
    var lastBasis: Option<real>
    var lastNabtNtby: Option<real>
    var notifiedBuy: bool
    var notifiedWarn: bool
    var hasPosition: bool
    var entryBasis: Option<real>
    var entryNabt: Option<real>
    /** Everything reported so far, oldest first. */
    ghost var events: seq<Event>

    function Cfg(): Config {
      Config(basisTh, nabtNtbyTh)
    }

    function Snapshot(): State
      reads this
    {
      State(lastBasis, lastNabtNtby, notifiedBuy, notifiedWarn, hasPosition, entryBasis, entryNabt)
    }

    ghost predicate Valid()
      reads this
    {
      PositionInv(Snapshot())
    }

    constructor (futCode: string, idxKeys: seq<string>, basisTh: real := 0.20, nabtNtbyTh: int := 1500)
      ensures this.futCode == futCode && this.idxKeys == idxKeys
      ensures this.basisTh == basisTh && this.nabtNtbyTh == nabtNtbyTh
      ensures Snapshot() == Initial && events == []
      ensures Valid()
    {
      this.futCode := futCode;
      this.idxKeys := idxKeys;
      this.basisTh := basisTh;
      this.nabtNtbyTh := nabtNtbyTh;
      lastBasis := None;
      lastNabtNtby := None;
      notifiedBuy := false;
      notifiedWarn := false;
      hasPosition := false;
      entryBasis := None;
      entryNabt := None;
      events := [];
    }

    /**
     * `on_result` for the result `result` (None for a None or empty frame), with the wall
     * clock read as `hm` (`HHMM`) and `clock` (`HH:MM:SS`).
     */
    method OnResult(hm: int, clock: string, result: Option<Tick>)
      requires Valid()
      modifies this
      ensures Valid()
      ensures Snapshot() == Step(Cfg(), old(Snapshot()), hm, clock, result).next
      ensures events == old(events) + Step(Cfg(), old(Snapshot()), hm, clock, result).events
    {
      if result.None? {
        return;
      }
      var t := result.value;
      var when := TickTime(t.bsopHour, clock);
      StepUnfold(Cfg(), Snapshot(), hm, clock, t);
      TakeReading(hm, t);
      DecisionBlock(hm, when);
    }

    /**
     * The part of `on_result` that depends on the transaction id: store the new basis or
     * net buy, and after a futures result check the backwardation latch.
     */
    method TakeReading(hm: int, t: Tick)
      requires Valid()
      modifies this
      ensures Valid()
      ensures Snapshot() == Warn(Ingest(old(Snapshot()), t), hm, t.trId).next
      ensures events == old(events) + Warn(Ingest(old(Snapshot()), t), hm, t.trId).events
    {
      if t.trId == FuturesTr {
        var col := Column(t, BasisCol);
        if col.Some? {
          var v := LastSome(col.value);
          if v.Some? {
            lastBasis := v;
          }
        }
        if lastBasis.Some? && InWindow(hm) {
          if lastBasis.value < 0.0 && !notifiedWarn {
            events := events + [BackwardationWarning(lastBasis.value)];
            notifiedWarn := true;
          }
        }
      } else if t.trId == ProgramTr {
        var col := Column(t, NetBuyCol);
        if col.Some? {
          var v := LastSome(col.value);
          if v.Some? {
            lastNabtNtby := v;
          }
        }
      }
    }

    /**
     * The decision block at the end of `on_result`, run on the readings already ingested:
     * inside the window it logs the state and opens or closes the position.
     */
    method DecisionBlock(hm: int, when: string)
      requires Valid()
      modifies this
      ensures Valid()
      ensures Snapshot() == Decide(Cfg(), old(Snapshot()), hm, when).next
      ensures events == old(events) + Decide(Cfg(), old(Snapshot()), hm, when).events
    {
      if InWindow(hm) {
        events := events + [StateLog(when, lastBasis, lastNabtNtby, hasPosition)];
        if lastBasis.Some? && lastNabtNtby.Some? {
          if !hasPosition && lastBasis.value >= basisTh && lastNabtNtby.value >= nabtNtbyTh as real {
            events := events + [BuySignal(lastBasis.value, lastNabtNtby.value)];
            hasPosition := true;
            entryBasis := lastBasis;
            entryNabt := lastNabtNtby;
          } else if hasPosition {
            var exitByBasis := lastBasis.value < Max(0.05, basisTh * 0.7);
            var exitByNabt := lastNabtNtby.value < nabtNtbyTh as real * 0.6;
            if exitByBasis || exitByNabt {
              events := events + [SellSignal(lastBasis.value, lastNabtNtby.value)];
              hasPosition := false;
              entryBasis := None;
              entryNabt := None;
            }
          }
        }
      }
    }
  }
}
