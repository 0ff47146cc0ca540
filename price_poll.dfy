/** `format_row` of `app/price_poll.py`: one log line per polled quote. */
module PricePoll {
  import opened Wrappers
  import opened QuoteTable

  /**
   * The quote line: N/A for an empty table; price, change and rate when the first row has a
   * price and a rate (a missing change shows as `None`); otherwise the first row's dict.
   */
  function FormatRow(df: Table, name: string, code: string): (r: string)
    ensures Label(name, code) <= r
    ensures Empty(df) ==> r == NotAvailable(name, code)
    ensures !Empty(df) && Get(df.rows[0], "stck_prpr").Some? && Get(df.rows[0], "prdy_ctrt").Some? ==>
      r == Label(name, code) + " price=" + Get(df.rows[0], "stck_prpr").value +
        " change=" + Show(Get(df.rows[0], "prdy_vrss")) + " rate=" + Get(df.rows[0], "prdy_ctrt").value + "%"
    ensures !Empty(df) && (Get(df.rows[0], "stck_prpr").None? || Get(df.rows[0], "prdy_ctrt").None?) ==>
      r == Label(name, code) + " " + df.rows[0].dump
  {
    if Empty(df) then NotAvailable(name, code)
    else
      var row := df.rows[0];
      var price := Get(row, "stck_prpr");
      var chg := Get(row, "prdy_vrss");
      var rate := Get(row, "prdy_ctrt");
      if price.Some? && rate.Some? then
        Label(name, code) + " price=" + price.value + " change=" + Show(chg) + " rate=" + rate.value + "%"
      else
        Label(name, code) + " " + row.dump
  }

  /** Only the first row is read: tables that agree on it give the same line. */
  lemma FirstRowOnly(a: Table, b: Table, name: string, code: string)
    requires !Empty(a) && !Empty(b) && a.rows[0] == b.rows[0]
    ensures FormatRow(a, name, code) == FormatRow(b, name, code)
  {
  }

  /** The N/A line appears exactly for an empty table. */
  lemma NotAvailableIffEmpty(df: Table, name: string, code: string)
    requires WellFormed(df)
    ensures FormatRow(df, name, code) == NotAvailable(name, code) <==> Empty(df)
  {
    var r := FormatRow(df, name, code);
    var l := Label(name, code);
    if !Empty(df) {
      assert r[..|l|] == l;
      assert NotAvailable(name, code)[|l| + 1] == 'p';
      if Get(df.rows[0], "stck_prpr").Some? && Get(df.rows[0], "prdy_ctrt").Some? {
        assert NotAvailable(name, code)[|l| + 6] == ':';
        assert |r| > |l| + 6 && r[|l| + 6] == '=';
      } else {
        assert r[|l| + 1] == '{';
      }
    }
  }
}
