/**
 * The single-quote tables the polling scripts print: a frame whose first row maps column
 * names to values. A value is held as the text `str()` gives it, or None for a null value;
 * the row also carries the text of its `to_dict()` representation, which is not modelled
 * further except that, being a dict's repr, it starts with `{`.
 */
module QuoteTable {
  import opened Wrappers

  datatype Row = Row(cells: map<string, Option<string>>, dump: string)

  /** A frame: its number of columns and its rows. */
  datatype Table = Table(width: nat, rows: seq<Row>)

  /** `df.empty`. */
  predicate Empty(t: Table) {
    t.width == 0 || t.rows == []
  }

  /** A row whose dict representation has the shape Python gives it. */
  predicate WellFormed(t: Table) {
    forall k :: 0 <= k < |t.rows| ==> |t.rows[k].dump| > 0 && t.rows[k].dump[0] == '{'
  }

  /** `row.get(key, None)`. */
  function Get(row: Row, key: string): Option<string> {
    if key in row.cells then row.cells[key] else None
  }

  /** A value as an f-string shows it: `None` for a missing one. */
  function Show(v: Option<string>): string {
    if v.Some? then v.value else "None"
  }

  /** `f"{name}({code})"`, the label every report line starts with. */
  function Label(name: string, code: string): string {
    name + "(" + code + ")"
  }

  /** The line for a table without data. */
  function NotAvailable(name: string, code: string): string {
    Label(name, code) + " price: N/A"
  }
}
