# Arbitrage-signal monitor and helper scripts of open-trading-api, in Dafny

This project models the decision logic of a set of trading scripts built on the Korea
Investment & Securities open API, and proves properties of that model.

**The two arbitrage-signal monitors.** This is the main part.
- The monitor in `wag_dog_monitor.py` (module `WagDogMonitor`) watches two websocket feeds:
  - index-futures executions (`H0IFCNT0`), which carry the market basis;
  - index program trades (`H0UPPGM0`), which carry the non-arbitrage net buy.
- It keeps the last reading of each feed.
- It raises a one-shot backwardation warning.
- Inside the 09:00-10:30 window, it moves a single position between flat and open. The entry
  and exit thresholds form a hysteresis band.
- The earlier variant in `examples_llm/domestic_futureoption/wag_dog_monitor.py` (module
  `EntryAlertMonitor`) has the same readings and warning. It holds no position: it sends an
  entry alert at most once and has no exit.

How the monitors are modelled:
- Each monitor is a `class` whose fields are the Python attributes.
- Its `OnResult` method updates the fields in place.
- `OnResult` is proved equal to a pure `Step` function over a `State` datatype.
- The monitor's properties are stated on `Step`. Properties across any sequence of results are
  lemmas over `Run`, the fold of `Step`.
- Alerts and log lines are a ghost sequence of tagged events, not strings.
- The wall clock is a parameter: the integer `HHMM` and the `HH:MM:SS` label.
- A websocket result is a `Tick`: its transaction id, its columns after numeric coercion, and
  its `bsop_hour` text.

**Smaller cores from the same repository:**
- `morning_open_sync.py`:
  - the line-buffering standard-output filter `_StdoutFilter` (`StdoutFilter`), a class whose
    `Write` loop is proved against `Lines`/`Rest`/`Kept`;
  - the `.env` loader `_load_env` (`EnvFile`), a loop over the file's lines into an
    `Environment` object that stands for `os.environ`;
  - the `PREOPEN_CODES` list (`PreopenCodes`).
- The same `.env` loader appears at `wag_dog_monitor.py:22-34` and at
  `examples_llm/domestic_futureoption/wag_dog_monitor.py:20-32`. There the `try` also covers the
  existence test, which makes no difference to the result, so `EnvFile` models all three.
- `examples_llm/domestic_stock/find_undervalued_3year.py` (`Undervalued`):
  - the price-column choice;
  - `zfill(6)` code normalisation;
  - the retry loop and growth guards of `_growth_over_3y`;
  - the listing cut of `_top_codes`;
  - the filter, sort and head of `find_undervalued_3y`.
  - The market-cap listing and the chart API are inputs. The chart API is a total function from
    code and attempt number to the two frames it returns.
- The quote formatters:
  - `format_row` of `app/price_poll.py` (`PricePoll`);
  - `format_price` and `format_investor` of `app/oneyear.py` (`OneYear`);
  - both are over a small table model (`QuoteTable`).
- The order button of `app/stock3.py` (`OrderForm`):
  - the form checks, their messages and order;
  - the arguments passed to `order_cash`;
  - the single line each click appends to the result view.
- Shared pieces:
  - Python's `str.strip`, `find`, `split` and `join` (`Text`);
  - `int()` and `str()` on decimal numerals (`Numerals`);
  - `to_numeric(...).dropna().iloc[-1]` (`Series`);
  - the tick shape and the 09:00-10:30 window (`Ticks`).

The monitor's window is inclusive at both ends, 09:00 and 10:30. Its exit rule is
`basis < max(0.05, 0.7 * basis_th)` or `net buy < 0.6 * nabt_ntby_th`.

## Model

| member | source | states |
|---|---|---|
| WagDogMonitor.Ingest | wag_dog_monitor.py:89-107 | a futures result can only replace `last_basis` and a program-trade result only `last_nabt_ntby`; a missing column or one with no number keeps the old reading; any other transaction id changes nothing; a known reading stays known |
| WagDogMonitor.Warn | wag_dog_monitor.py:96-100 | only `notified_warn` can change; it becomes set iff it was set already, or a futures result in the window has a known negative basis; exactly one warning is reported iff the latch was just set, and it carries the basis; nothing else is reported |
| WagDogMonitor.Decide | wag_dog_monitor.py:108-125 | outside the window nothing happens. A flat monitor opens iff in the window and both readings reach their thresholds, and the entry snapshot is then the current readings. A holding monitor closes iff in the window and the exit rule holds. Entry and exit exclude each other. The position invariant is preserved. With no change of position the state is unchanged. The state line is reported first; it is followed by a buy signal with both readings on entry, by a sell signal with both readings on exit, and by nothing otherwise. One signal is reported iff the position changed, and it is a buy exactly when the new position is held |
| WagDogMonitor.Step | wag_dog_monitor.py:75-127 | one `on_result` call: an empty result changes nothing; the position invariant is preserved; stale readings persist and never return to None; outside the window only the readings move; entry and exit as above, on the readings after ingestion, for any transaction id; a held position keeps its snapshot; at most one signal, exactly when the position changes; the warning latch as above, with at most one warning; `notified_buy` is never touched |
| WagDogMonitor.Run | wag_dog_monitor.py:108-125 | over any sequence of results there is at most one signal per result, and their number is odd exactly when the position changed |
| WagDogMonitor.StepSignals | wag_dog_monitor.py:110-125 | the signal of one `on_result` call is a buy on entry, carrying the entry snapshot, and a sell on exit, carrying the readings after ingestion; there is none when the position stays |
| WagDogMonitor.RunAlternates | wag_dog_monitor.py:108-125 | over any sequence of results the signals alternate between buy and sell, starting with a buy from a flat monitor and a sell from a holding one |
| WagDogMonitor.RunEndsOnPosition | wag_dog_monitor.py:108-125 | the last signal of a run is a buy iff the run ends holding a position, and a run without signals ends in the position it started from |
| WagDogMonitor.RunKeepsPositionInv | wag_dog_monitor.py:108-125 | over any sequence of results, `has_position` holds iff both `entry_basis` and `entry_nabt` are set |
| WagDogMonitor.RunWarnsAtMostOnce | wag_dog_monitor.py:96-100 | over any sequence of results at most one backwardation warning is sent, none once the latch is set, and the latch is never reset |
| WagDogMonitor.RunKeepsReadings | wag_dog_monitor.py:89-107 | a reading once known stays known over any sequence of results |
| WagDogMonitor.SessionFromConstruction | wag_dog_monitor.py:55-127 | from the constructed state: the position invariant always holds, at most one warning is ever sent, and the signals run buy, sell, buy, ... starting with a buy |
| WagDogMonitor.Hysteresis | wag_dog_monitor.py:111-120 | with `basis_th >= 0.05` and a non-negative net-buy threshold, readings that meet the entry rule never meet the exit rule |
| WagDogMonitor.HysteresisNeedsFloor | wag_dog_monitor.py:118-118 | for `0 < basis_th < 0.05` the readings `(basis_th, nabt_ntby_th)` meet both the entry and the exit rule |
| WagDogMonitor.HeldOnEntryLevels | wag_dog_monitor.py:108-125 | with `basis_th >= 0.05` and a non-negative net-buy threshold, a held position whose readings meet the entry rule is kept by every result whose ingestion leaves both readings as they were: no result, another transaction id, or a futures or program-trade result without a new number |
| WagDogMonitor.Monitor.constructor | wag_dog_monitor.py:56-67 | thresholds default to 0.20 and 1500, all readings and the snapshot are None, both latches and the position are off; the position invariant holds |
| WagDogMonitor.Monitor.OnResult | wag_dog_monitor.py:75-127 | the new fields are `Step` of the old ones and the reported events are appended; the position invariant is kept |
| WagDogMonitor.Monitor.TakeReading | wag_dog_monitor.py:89-107 | the fields after the transaction-specific part of `on_result` are `Warn(Ingest(...))` of the old ones |
| WagDogMonitor.Monitor.DecisionBlock | wag_dog_monitor.py:108-125 | the fields after the decision block are `Decide` of the old ones; the position invariant is kept |
| Ticks.Column | wag_dog_monitor.py:90-90 | a column is found iff the frame has it |
| Ticks.Refresh | wag_dog_monitor.py:91-95 | the stored reading becomes the column's last number when it has one; otherwise it keeps the old reading; it only ever changes to a number |
| Ticks.TickTime | wag_dog_monitor.py:81-88 | with a `bsop_hour` of at least six characters the label is `HH:MM:SS` made from its first six; otherwise it is the wall clock |
| Ticks.WindowIsTimeOfDay | wag_dog_monitor.py:36-42 | comparing `HHMM` with 900 and 1030 is comparing the time of day with 09:00 and 10:30, both included |
| Ticks.ClockHm | wag_dog_monitor.py:36-38 | `HHMM` lies in 0..2359 and gives back the hour as `HHMM / 100` and the minutes as `HHMM % 100` |
| Ticks.InWindow | wag_dog_monitor.py:40-42 | a reading in the window has hour 9, or hour 10 with at most 30 minutes |
| Series.Somes | wag_dog_monitor.py:93-93 | `dropna()` keeps only numbers of the column and adds none |
| Series.SomesUnit | wag_dog_monitor.py:93-93 | one cell gives its number if it holds one, and nothing otherwise |
| Series.SomesAppend | wag_dog_monitor.py:93-93 | `dropna()` of two columns end to end is their two `dropna()`s end to end; with `SomesUnit` this fixes `dropna()` as every number in row order |
| Series.SomesEmpty | wag_dog_monitor.py:93-93 | `dropna()` is empty iff no cell holds a number |
| Series.SomesFirst | examples_llm/domestic_stock/find_undervalued_3year.py:67-70 | the first element of `dropna()` is the column's first number: it is a cell, and every cell before it holds none |
| Series.LastSome | wag_dog_monitor.py:93-93 | None iff the column has no number; otherwise the last number of the column |
| Series.LastSomeIsLastOfSomes | wag_dog_monitor.py:93-93 | the last number is the last element of `dropna()` |
| EntryAlertMonitor.EntryCheck | examples_llm/domestic_futureoption/wag_dog_monitor.py:80-82 | only `notified_buy` changes; it becomes set iff it was set or both readings reach their thresholds; one alert iff it was just set, carrying the basis and the net buy, and nothing else |
| EntryAlertMonitor.Step | examples_llm/domestic_futureoption/wag_dog_monitor.py:64-95 | an empty result or another transaction id changes nothing; a basis result never touches the net buy and vice versa, and a parse failure keeps the old value; the entry alert latch becomes set iff it was set, or after either feed in the window both readings reach their thresholds, with one alert exactly then; the warning latch becomes set iff it was set or a futures result in the window has a negative basis, with one warning exactly then; what is sent is the warning with the new basis, if the latch was just set, followed by the alert with the new basis and net buy, if that latch was just set |
| EntryAlertMonitor.RunAlertsAtMostOnce | examples_llm/domestic_futureoption/wag_dog_monitor.py:76-93 | over any sequence of results each latch fires at most once, never once set, and is never reset |
| EntryAlertMonitor.SessionFromConstruction | examples_llm/domestic_futureoption/wag_dog_monitor.py:53-95 | from the constructed state at most one entry alert and one warning are ever sent |
| EntryAlertMonitor.Monitor.constructor | examples_llm/domestic_futureoption/wag_dog_monitor.py:54-62 | thresholds default to 0.20 and 1500; readings None; both latches off |
| EntryAlertMonitor.Monitor.OnResult | examples_llm/domestic_futureoption/wag_dog_monitor.py:64-95 | the new fields are `Step` of the old ones and the alerts sent are appended |
| EntryAlertMonitor.Monitor.OnFutures | examples_llm/domestic_futureoption/wag_dog_monitor.py:69-82 | for a futures result the new fields are `Step` of the old ones and the alerts sent are appended |
| EntryAlertMonitor.Monitor.OnProgram | examples_llm/domestic_futureoption/wag_dog_monitor.py:83-93 | for a program-trade result the new fields are `Step` of the old ones and the alerts sent are appended |
| StdoutFilter.AnyInSome | morning_open_sync.py:18-18 | a line counts as noise iff one of the markers occurs in it as a substring |
| Text.ContainsAt | morning_open_sync.py:18-18 | `t in s` holds iff `t` is the slice of `s` at some position |
| StdoutFilter.Lines | morning_open_sync.py:16-17 | the complete lines cut off at each newline contain no newline |
| StdoutFilter.Rest | morning_open_sync.py:16-17 | what stays after the last newline contains no newline |
| StdoutFilter.Kept | morning_open_sync.py:18-19 | no more strings are passed on than there are lines |
| StdoutFilter.LinesConserve | morning_open_sync.py:15-17 | the processed lines, each with its newline, followed by the new buffer are exactly the old buffer plus the written text |
| StdoutFilter.KeptClean | morning_open_sync.py:18-19 | every string passed on is one line plus `"\n"`, and that line contains none of the five markers |
| StdoutFilter.KeptComplete | morning_open_sync.py:18-19 | every line without a marker is passed on |
| StdoutFilter.LinesConcat | morning_open_sync.py:15-17 | the lines of `a + b` are the lines of `a` followed by those of `a`'s remainder glued to `b` |
| StdoutFilter.NoNewlineNoOutput | morning_open_sync.py:15-16 | writing text without a newline passes nothing on and only extends the buffer |
| StdoutFilter.Flushed | morning_open_sync.py:20-24 | `flush` passes on the buffer verbatim, with no newline added, iff it is non-empty and has no marker; an empty buffer passes nothing |
| StdoutFilter.Filter.constructor | morning_open_sync.py:11-13 | the buffer starts empty and nothing has been written; the buffer holds no newline |
| StdoutFilter.Filter.Write | morning_open_sync.py:14-19 | the wrapped stream receives exactly the kept complete lines of the old buffer plus the text; the new buffer is what follows the last newline, so it holds no newline |
| StdoutFilter.Filter.Flush | morning_open_sync.py:20-24 | the buffer is empty afterwards and the stream receives `Flushed` of the old buffer; so a second flush passes nothing on; the buffer holds no newline |
| StdoutFilter.WriteTwiceIsWriteOnce | morning_open_sync.py:14-19 | two writes pass on, and leave buffered, exactly what one write of the joined text would |
| Text.Strip | morning_open_sync.py:58-58 | `strip()` removes only whitespace from either end, and the result starts and ends with a non-space |
| Text.StripPadded | morning_open_sync.py:58-58 | non-blank stripped text surrounded by whitespace strips to itself |
| Text.IndexOf | morning_open_sync.py:61-61 | finds the first occurrence of the character, and None iff it does not occur |
| Text.SplitPiecesFree | morning_open_sync.py:280-280 | no piece of `split(c)` holds `c` |
| Text.JoinSplit | morning_open_sync.py:280-280 | joining the pieces of `split(c)` with `c` gives the text back: no character is lost |
| Text.SplitJoin | morning_open_sync.py:280-280 | splitting a `c`-join of `c`-free pieces gives the pieces back |
| Text.Join | morning_open_sync.py:280-280 | the join starts with the first part and is as long as the parts plus one separator per gap |
| EnvFile.ParseLine | morning_open_sync.py:58-61 | a parsed entry has a stripped key and value, and a key without `=` that does not start with `#` |
| EnvFile.ParseCut | morning_open_sync.py:58-62 | a line that strips to `front=rest`, with no `=` in `front` and a key that is not a comment, is cut at that first `=` and both halves are stripped |
| EnvFile.ParsePadded | morning_open_sync.py:58-62 | a `KEY = VALUE` line with whitespace anywhere around the key, the `=` and the value reads as exactly that key and value, even when the value holds another `=` |
| EnvFile.ParseLineSkips | morning_open_sync.py:59-60 | a line is skipped iff, once stripped, it is empty, starts with `#` or has no `=` |
| EnvFile.ParseFormat | morning_open_sync.py:58-62 | a well-formed `KEY=VALUE` line, the empty key included, is read back as that key and value, so the cut is at the first `=` |
| EnvFile.ParseIsCanonical | morning_open_sync.py:58-62 | an entry read from a line, written out and read again is the same entry, for every entry, the empty key included |
| EnvFile.ParseAll | morning_open_sync.py:57-61 | each line of the file is parsed on its own, in order |
| EnvFile.Load | morning_open_sync.py:52-64 | loading a file's lines keeps every variable already set, and every variable it adds is the entry of one of the lines |
| EnvFile.LoadEntries | morning_open_sync.py:57-64 | variables already set are never overwritten or removed; every new variable is one the environment accepts |
| EnvFile.LoadAddsFileEntries | morning_open_sync.py:62-62 | every variable the loader adds is one of the file's entries, with that entry's value |
| EnvFile.NeverStops | morning_open_sync.py:55-64 | when every entry is acceptable, the whole file is read |
| EnvFile.FirstOccurrenceWins | morning_open_sync.py:57-62 | a variable not set before gets the value of its first entry in the file, when that entry and every entry before it are acceptable to the environment |
| EnvFile.LoadConcat | morning_open_sync.py:57-62 | loading a file in two parts is loading the first and then the second, unless the first was abandoned |
| EnvFile.Environment.SetDefault | morning_open_sync.py:62-62 | `setdefault` leaves a set variable alone, adds a new acceptable one, and raises for an empty name or a NUL character |
| EnvFile.LoadEnv | morning_open_sync.py:52-64 | the environment after the loop is the model loader's result for the lines; a raise abandons the rest of the file |
| PreopenCodes.Clean | morning_open_sync.py:280-280 | every code kept is non-empty and stripped, there are no more codes than pieces, and no code gains a comma |
| PreopenCodes.ParseCodes | morning_open_sync.py:280-280 | every listed code is non-empty, stripped and comma-free |
| PreopenCodes.StripAll | morning_open_sync.py:280-280 | each piece is replaced by its `strip()`, in place |
| PreopenCodes.NonBlank | morning_open_sync.py:280-280 | everything kept is non-empty and one of the items |
| PreopenCodes.CleanComplete | morning_open_sync.py:280-280 | every piece that is not blank once stripped is kept, stripped, right after what the pieces before it give, so the order is kept |
| PreopenCodes.CleanSound | morning_open_sync.py:280-280 | nothing else is kept: the `k`-th code is the stripped piece `j` for which the pieces before `j` give exactly `k` codes |
| PreopenCodes.ParseCodesPieces | morning_open_sync.py:280-280 | the codes listed for a setting are exactly the stripped non-blank pieces between its commas |
| PreopenCodes.CleanKeeps | morning_open_sync.py:280-280 | well-formed codes pass through unchanged and in order |
| PreopenCodes.ParseJoin | morning_open_sync.py:280-280 | a comma-joined list of well-formed codes is read back as that list |
| PreopenCodes.ParseEmpty | morning_open_sync.py:280-280 | an unset or empty variable lists no codes |
| Undervalued.FirstPresent | examples_llm/domestic_stock/find_undervalued_3year.py:43-47 | None iff no candidate is present; otherwise the first candidate that is present |
| Undervalued.PickPriceCol | examples_llm/domestic_stock/find_undervalued_3year.py:41-47 | `stck_prpr` if present, else `stck_clpr`, else `stck_prdy_clpr`; None iff none is present |
| Undervalued.Head | examples_llm/domestic_stock/find_undervalued_3year.py:84-84 | `head(n)` is a prefix of at most `n` rows, or all but the last `-n` rows when `n` is negative |
| Undervalued.ZFill | examples_llm/domestic_stock/find_undervalued_3year.py:56-56 | the result has the requested width or the original length, whichever is larger, and a long enough code is unchanged |
| Undervalued.ZFillKeepsValue | examples_llm/domestic_stock/find_undervalued_3year.py:56-56 | padding a numeral keeps the integer it denotes, signs included |
| Undervalued.ZFillCodes | examples_llm/domestic_stock/find_undervalued_3year.py:75-75 | a digit code shorter than six is left-padded with zeros, a longer one is unchanged, and normalising twice is normalising once |
| Undervalued.Source | examples_llm/domestic_stock/find_undervalued_3year.py:57-57 | the chosen frame is the first one when that is usable and the second one otherwise; it is usable iff either reply frame is |
| Undervalued.AttemptsFrom | examples_llm/domestic_stock/find_undervalued_3year.py:54-60 | at most four requests are made; every request but the last gave nothing usable; fewer than four only when the last one did |
| Undervalued.FetchSource | examples_llm/domestic_stock/find_undervalued_3year.py:54-61 | the frame used after the retry loop is usable iff one of the four requests gave a usable reply |
| Undervalued.GrowthOf | examples_llm/domestic_stock/find_undervalued_3year.py:61-75 | None iff there is no usable frame, no price column, no numeric price, or a first price that is not positive; otherwise the code is zero-padded to six, `start` is the first and `end` the last number of the price column (for `start`, a cell with every cell before it empty; for `end`, the last cell holding a number), and growth is end / start - 1 |
| Undervalued.GrowthSign | examples_llm/domestic_stock/find_undervalued_3year.py:74-74 | the growth is negative iff the price fell and zero iff it stayed |
| Undervalued.GrowthOver3y | examples_llm/domestic_stock/find_undervalued_3year.py:49-75 | the retry loop makes the model's number of attempts and returns the growth of the last reply's frame |
| Undervalued.TopCodes | examples_llm/domestic_stock/find_undervalued_3year.py:77-84 | no codes without a usable listing or its code column; otherwise a prefix of the listing's codes of exactly `head(limit)`'s length: `min(limit, n)` for `limit >= 0`, and `max(n + limit, 0)` for a negative `limit` |
| Undervalued.Evaluate | examples_llm/domestic_stock/find_undervalued_3year.py:92-92 | a code's row names the code padded to six digits, and a code whose four requests all failed gives no row |
| Undervalued.Rows | examples_llm/domestic_stock/find_undervalued_3year.py:90-94 | no more rows than codes |
| Undervalued.RowsAreKnownGrowths | examples_llm/domestic_stock/find_undervalued_3year.py:91-94 | every row is the known growth of a listed code |
| Undervalued.RowsComplete | examples_llm/domestic_stock/find_undervalued_3year.py:91-94 | every listed code whose growth is known has its row, in listing order: it comes right after the rows of the codes before it |
| Undervalued.RowsPrefix | examples_llm/domestic_stock/find_undervalued_3year.py:91-94 | the rows of the first codes of the listing are a prefix of all the rows |
| Undervalued.SortByGrowth | examples_llm/domestic_stock/find_undervalued_3year.py:102-102 | the rows in ascending order of growth, as a rearrangement of the input |
| Undervalued.LowestSelected | examples_llm/domestic_stock/find_undervalued_3year.py:102-102 | the kept rows are ascending, are drawn from the rows, and no row left out grew less than a kept one |
| Undervalued.FindUndervalued | examples_llm/domestic_stock/find_undervalued_3year.py:86-104 | the output is the first `top_n` of the sorted known growths of the listing's first `limit_codes` codes |
| Numerals.ParseInt | app/stock3.py:130-131 | `int()` succeeds iff the text is an optional sign and at least one ASCII digit; the value is the digits' value, negated for `-` |
| Numerals.NatToString | app/stock3.py:147-148 | `str(n)` is a non-empty digit string without a leading zero |
| Numerals.IntToString | app/stock3.py:147-148 | `str(n)` has a minus sign exactly for negative `n`, then the non-empty digits of `abs(n)` with no leading zero |
| Numerals.ParseShow | app/stock3.py:147-148 | `int(str(n)) == n` for every integer |
| Numerals.LeadingZeros | examples_llm/domestic_stock/find_undervalued_3year.py:56-56 | leading zeros do not change a digit string's value |
| PricePoll.FormatRow | app/price_poll.py:44-53 | starts with `name(code)`; an empty table gives `price: N/A`; with price and rate it gives the `price=… change=… rate=…%` form, with `None` for a missing change; otherwise the first row's dict |
| PricePoll.FirstRowOnly | app/price_poll.py:47-53 | only the first row matters |
| PricePoll.NotAvailableIffEmpty | app/price_poll.py:45-53 | the N/A line appears iff the table is empty |
| OneYear.FormatPrice | app/oneyear.py:71-80 | starts with `name(code)`; an empty table gives `price: N/A` |
| OneYear.SameAsPricePoll | app/oneyear.py:71-80 | `format_price` writes the same line as `format_row` for every quote, so it has all of `format_row`'s properties |
| OneYear.FormatInvestor | app/oneyear.py:83-88 | no alert for an empty table, otherwise exactly one, `ALERT name(code) investor data received` |
| OrderForm.Validate | app/stock3.py:118-137 | a blank field gives the missing-input outcome; otherwise a non-integer quantity or price gives the not-numeric outcome; otherwise a non-positive one gives the not-positive outcome; otherwise the form is accepted with both numbers positive and equal to `int()` of the texts |
| OrderForm.Request | app/stock3.py:116-150 | the order carries the stripped account, account-product and product fields, passes the three choices through, writes quantity and price so that `int()` reads them back, and names the KRX exchange |
| OrderForm.ClickMessage | app/stock3.py:125-156 | a refused form shows one of the three form messages: the missing-input one for a blank field, the not-a-number one when `int()` refuses the quantity or the price, and the not-positive one when either is zero or negative; an accepted one shows the reply table, the empty-reply message or `에러: ` and the error text |
| OrderForm.RequestCarriesNumbers | app/stock3.py:139-150 | for accepted (positive) numbers, the quantity and price sent read back as those numbers and are written with no sign or leading zero; the account, account-product and product fields are stripped; the exchange is KRX |
| OrderForm.LeadingZerosDropped | app/stock3.py:130-148 | `"007"` is sent as `"7"` and `"+1500"` as `"1500"` |
| OrderForm.RefusalIsAFormMessage | app/stock3.py:125-137 | a refused form shows one of the three form messages, whatever the broker would have replied |
| OrderForm.TradingApp.OnOrderClick | app/stock3.py:115-156 | an order is sent iff the form is accepted, with stripped fields, `str(int(...))` quantities and exchange KRX; each click appends exactly one line: the form message, the reply table, the empty-reply message or the error text |

## Left out

- Brokerage and websocket plumbing (`ka.auth`, `KISWebSocket`, subscriptions, `market_cap`, `inquire_daily_itemchartprice`, `order_cash`, the price and investor fetchers): foreign calls. Their replies are inputs of the model.
- Telegram and DeepSeek HTTP calls, `telegram_test.py`: network I/O. Telegram messages and log lines are the monitors' tagged events.
- Text formatting of floats (`_state_log`, the `.2f` alert bodies, `_fmt_pct`, `growth_pct` and its rounding, printing `to_string`): float formatting is not modelled. Events carry the numbers themselves.
- Floating point: prices, readings and thresholds are `real`. `inf`, `nan` and rounding are not modelled.
- The `main` functions, `threading.Timer`, `os._exit`, polling `while True` loops, `time.sleep` and `ka.smart_sleep`: process control and scheduling.
- The `morning_open_sync.py` report builders (`_resolve_fut_name`, `_fallback_pct_via_board`, `_auto_futures_code`, `_preopen_expected_lines`): pandas over remote data.
- The `sys.stdout` replacement and logger setup: environment plumbing. Only the filter class is modelled, with its wrapped stream as the sequence of strings written to it.
- PyQt widget construction, authentication and prefilling in `app/stock3.py`: UI. The form is the eight widget texts at the time of the click.
- pandas internals: frames are column maps; `to_numeric` coercion is already applied (None where a cell does not parse); the `to_dict()` repr is an opaque string that starts with `{`; `str()` of a cell is given as text.
- An empty result frame: `Tick` carries no row count, so a frame that is `None` or empty is given to `OnResult` as `None`, which the source's first test also turns away.
- EnvFile.Environment.SetDefault: models the POSIX `os.environ`, where names are case-sensitive. On Windows, where the `app/` files run, names compare without case, so `Foo=1` followed by `FOO=2` keeps 1, while the model adds both.
- The `.env` file I/O: an absent file is no lines. Decoding errors and a UTF-8 byte-order mark are not modelled.
- Exceptions raised by the chart API and the listing call: not modelled. The fetch always returns two optional frames.
- WagDogMonitor.Monitor.OnResult: reads the clock once per call (`hm` and `clock`). The source calls `_in_window()` for the warning and again for the decision block, so a call that straddles 10:30 could see two different readings.
- WagDogMonitor.Monitor.OnResult: a `str()` of the last `bsop_hour` cell that raises is given as an absent `bsop_hour`, which the source's `except` also turns into the wall clock.
- EntryAlertMonitor.Monitor.OnResult: reads the clock once per call, like the main monitor.
- Numerals.ParseInt: Python's `int()` also accepts underscores between digits and non-ASCII Unicode digits. Only an optional sign and ASCII digits are modelled. CPython's limit on the length of an `int()` conversion (4300 digits by default from version 3.11) is not modelled either: the model accepts a longer quantity or price and sends the order, where the source shows the not-a-number message.
- Undervalued.SortByGrowth: pandas' default `sort_values` is not stable, so rows with equal growth may come out in another order. `SortByGrowth` is one sorted rearrangement. `LowestSelected` holds for the selection it makes, and the same argument applies to any sorted rearrangement.
- Undervalued.FindUndervalued: the result is the sequence of rows. The `growth_pct` column, `reset_index` and the printed table are not modelled.
- Undervalued.GrowthOver3y: the date range `d1`/`d2` comes from the clock. It is folded into the fetch function, which also receives the attempt number.
- PricePoll.FormatRow: a cell that pandas holds as NaN is a present value in the model; only a Python `None` or an absent key is a missing one.
