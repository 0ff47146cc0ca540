/** `format_price` and `format_investor` of `app/oneyear.py`. */
module OneYear {
  import opened Wrappers
  import opened QuoteTable
  import PricePoll

  /** The quote line, as `format_price` builds it. */
  function FormatPrice(name: string, code: string, df: Table): (r: string)
    ensures Label(name, code) <= r
    ensures Empty(df) ==> r == NotAvailable(name, code)
  {
    if Empty(df) then NotAvailable(name, code)
    else
      var row := df.rows[0];
      var p := Get(row, "stck_prpr");
      var c := Get(row, "prdy_vrss");
      var rt := Get(row, "prdy_ctrt");
      if p.Some? && rt.Some? then
        Label(name, code) + " price=" + p.value + " change=" + Show(c) + " rate=" + rt.value + "%"
      else
        Label(name, code) + " " + row.dump
  }

  /** `format_price` writes exactly the line `price_poll.format_row` writes for the same quote. */
  lemma SameAsPricePoll(name: string, code: string, df: Table)
    ensures FormatPrice(name, code, df) == PricePoll.FormatRow(df, name, code)
  {
  }

  /** The investor alerts: none for an empty table, otherwise the one received notice. */
  function FormatInvestor(name: string, code: string, df: Table): (r: seq<string>)
    ensures r == [] <==> Empty(df)
    ensures |r| <= 1
    ensures forall k :: 0 <= k < |r| ==> r[k] == "ALERT " + Label(name, code) + " investor data received"
  {
    if Empty(df) then [] else ["ALERT " + Label(name, code) + " investor data received"]
  }
}
