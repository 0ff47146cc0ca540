/**
 * What both versions of the arbitrage-signal monitor share: the shape of one websocket
 * result, the two subscriptions it can come from, the 09:00-10:30 window and the way a
 * stored reading is refreshed from a result.
 */
module Ticks {
  import opened Wrappers
  import opened Series

  /** Transaction id of the index-futures execution feed, which carries the basis. */
  const FuturesTr: string := "H0IFCNT0"
  /** Transaction id of the index program-trade feed, which carries the net buy. */
  const ProgramTr: string := "H0UPPGM0"
  /** Column holding the market basis in a futures result. */
  const BasisCol: string := "mrkt_basis"
  /** Column holding the non-arbitrage net-buy quantity in a program-trade result. */
  const NetBuyCol: string := "nabt_smtn_ntby_qty"

  /**
   * One non-empty result frame handed to `on_result` (a `None` or empty frame is modelled
   * by `None` around it). `numeric` maps each column name to its cells after numeric
   * coercion; `bsopHour` is `str()` of the last `bsop_hour` cell, None when that column
   * is absent or could not be read.
   */
  datatype Tick = Tick(trId: string, numeric: map<string, seq<Option<real>>>, bsopHour: Option<string>)

  /** The coerced cells of column `name`, None when the frame has no such column. */
  function Column(t: Tick, name: string): (r: Option<seq<Option<real>>>)
    ensures r.Some? <==> name in t.numeric
  {
    if name in t.numeric then Some(t.numeric[name]) else None
  }

  /**
   * The stored reading after `x = float(to_numeric(col).dropna().iloc[-1])` inside a
   * `try ... except: pass`: the last number of the column when there is one, otherwise
   * (no such column, or no cell that parses) the previous reading.
   */
  function Refresh(prev: Option<real>, col: Option<seq<Option<real>>>): (r: Option<real>)
    ensures r == prev || (col.Some? && r == LastSome(col.value))
    ensures r != prev ==> r.Some?
    ensures col.Some? && (exists k :: 0 <= k < |col.value| && col.value[k].Some?) ==> r == LastSome(col.value)
    ensures (col.None? || forall k :: 0 <= k < |col.value| ==> col.value[k].None?) ==> r == prev
  {
    match col
    case None => prev
    case Some(cells) =>
      match LastSome(cells)
      case Some(v) => Some(v)
      case None => prev
  }

  /** `_now_hm()`: the clock reading `HH:MM` as the integer `HHMM`. */
  function ClockHm(hour: nat, minute: nat): (r: int)
    requires hour < 24 && minute < 60
    ensures 0 <= r <= 2359
    ensures r / 100 == hour && r % 100 == minute
  {
    hour * 100 + minute
  }

  /**
   * `_in_window()`: the clock reading lies in 09:00-10:30, both ends included. The hour is
   * then 9 or 10, and at 10 the minutes are at most 30.
   */
  predicate InWindow(hm: int)
    ensures InWindow(hm) ==> hm / 100 == 9 || (hm / 100 == 10 && hm % 100 <= 30)
  {
    900 <= hm <= 1030
  }

  /**
   * Comparing the `HHMM` integer, as the source does, is the same as comparing minutes
   * since midnight against 09:00 and 10:30.
   */
  lemma WindowIsTimeOfDay(hour: nat, minute: nat)
    requires hour < 24 && minute < 60
    ensures InWindow(ClockHm(hour, minute)) <==> 9 * 60 <= hour * 60 + minute <= 10 * 60 + 30
    ensures InWindow(ClockHm(9, 0)) && InWindow(ClockHm(10, 30))
    ensures !InWindow(ClockHm(8, 59)) && !InWindow(ClockHm(10, 31))
  {
  }

  /**
   * The time label of a result: `HH:MM:SS` built from the first six characters of the
   * `bsop_hour` text when it has at least six, the wall-clock label `clock` otherwise.
   */
  function TickTime(bsopHour: Option<string>, clock: string): (r: string)
    ensures bsopHour.Some? && |bsopHour.value| >= 6 ==>
      && |r| == 8 && r[2] == ':' && r[5] == ':'
      && r[..2] == bsopHour.value[..2] && r[3..5] == bsopHour.value[2..4] && r[6..] == bsopHour.value[4..6]
    ensures !(bsopHour.Some? && |bsopHour.value| >= 6) ==> r == clock
  {
    match bsopHour
    case Some(s) =>
      if |s| >= 6 then s[..2] + ":" + s[2..4] + ":" + s[4..6] else clock
    case None => clock
  }
}
