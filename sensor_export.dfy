/**
 * The sensor data export: the table, start and end parameters, the quoting
 * of the table and timestamp identifiers per dialect, the query's WHERE and
 * ORDER BY, the sheet built from the result (a single "no data" row with no
 * header when it is empty) and the sheet and file names.
 */
module SensorExport {

  import opened Wrappers
  import opened Strings
  import opened Sorting
  import opened MsQuery
  import opened Sheet
  import opened Dialects

  const Tables: seq<string> := ["t700", "t500"]

  /** The lowercased table, start and end, or the 400 for a missing or unknown one. */
  function Params(table: Option<string>, start: Option<string>, end: Option<string>): (r: Response<(string, string, string)>)
    ensures r.Fail? ==> r == Fail(400, "Invalid parameters")
    ensures r.Ok? <==>
      start.Some? && start.value != "" && end.Some? && end.value != "" && ToLower(table.GetOr("")) in Tables
    ensures r.Ok? ==> r.body == (ToLower(table.value), start.value, end.value)
  {
    var t := ToLower(table.GetOr(""));
    if t == "" || start.None? || start.value == "" || end.None? || end.value == "" || t !in Tables
    then Fail(400, "Invalid parameters")
    else Ok((t, start.value, end.value))
  }

  lemma LowerCharIs(c: char, lower: char)
    requires 'a' <= lower <= 'z' || '0' <= lower <= '9'
    ensures LowerChar(c) == lower <==> c == lower || ('a' <= lower <= 'z' && c == (lower as int - 32) as char)
  {
  }

  /** The accepted table names are exactly t500 and t700 with either case of `t`. */
  lemma AcceptedTables(x: string)
    ensures ToLower(x) in Tables <==> x in ["t700", "T700", "t500", "T500"]
  {
    if |x| == 4 {
      LowerCharIs(x[0], 't');
      LowerCharIs(x[1], '7');
      LowerCharIs(x[1], '5');
      LowerCharIs(x[2], '0');
      LowerCharIs(x[3], '0');
      if ToLower(x) == "t700" || ToLower(x) == "t500" {
        assert x == [x[0], x[1], x[2], x[3]];
      }
    }
  }

  // ----- the statement -----

  function TimestampColumn(d: Dialect): string {
    if d == MsSql then "[timestamp]" else "`timestamp`"
  }

  /** `fmtTimestampExpr`: the timestamp as `YYYY-MM-DD HH:MM:SS` under the alias formatted_timestamp. */
  function FmtTimestampExpr(d: Dialect): string {
    if d == MsSql then "CONVERT(VARCHAR(19), " + TimestampColumn(d) + ", 120)" + " AS formatted_timestamp"
    else "DATE_FORMAT(" + TimestampColumn(d) + ", '%Y-%m-%d %H:%i:%s')" + " AS formatted_timestamp"
  }

  /** The statement, around its one `BETWEEN ? AND ?`. */
  function SqlText(d: Dialect, table: string): string {
    SqlHead(d, table) + " BETWEEN ? AND ?" + SqlTail(d)
  }

  function SqlHead(d: Dialect, table: string): string {
    "\n      SELECT\n        *,\n        " + FmtTimestampExpr(d)
    + "\n      FROM " + QTable(d, table)
    + "\n      WHERE " + TimestampColumn(d)
  }

  function SqlTail(d: Dialect): string {
    "\n      ORDER BY " + TimestampColumn(d) + " ASC\n    "
  }

  lemma NoMarkInPieces(d: Dialect, table: string)
    requires '?' !in table
    ensures '?' !in SqlHead(d, table) && '?' !in SqlTail(d)
  {
    NoMarkA();
    NoMarkB();
    NoMarkC();
    NoMarkD();
    QuotingKeeps(d, table, '?');
  }

  lemma NoMarkA()
    ensures '?' !in "CONVERT(VARCHAR(19), " && '?' !in ", 120)" && '?' !in " AS formatted_timestamp"
  {
  }

  lemma NoMarkB()
    ensures '?' !in "DATE_FORMAT(" && '?' !in ", '%Y-%m-%d %H:%i:%s')" && '?' !in "[timestamp]" && '?' !in "`timestamp`"
  {
  }

  lemma NoMarkC()
    ensures '?' !in "[]`" && '?' !in "dbo." && '?' !in "\n      ORDER BY " && '?' !in " ASC\n    "
  {
  }

  lemma NoMarkD()
    ensures '?' !in "\n      SELECT\n        *,\n        " && '?' !in "\n      FROM " && '?' !in "\n      WHERE "
  {
  }

  /** The two bound values, start and end, match the statement's two placeholders. */
  lemma SqlPlaceholders(d: Dialect, table: string)
    requires '?' !in table
    ensures Placeholders(SqlText(d, table)) == 2
  {
    NoMarkInPieces(d, table);
    var a, b, c := SqlHead(d, table), " BETWEEN ? AND ?", SqlTail(d);
    CountCharAppend(a + b, c, '?');
    CountCharAppend(a, b, '?');
    CountBetween();
  }

  lemma CountBetween()
    ensures CountChar(" BETWEEN ? AND ?", '?') == 2
  {
  }

  /** For SQL Server, the adapter sends start and end as @p0 and @p1. */
  lemma MsSqlParameters(table: string, start: string, end: string)
    requires '?' !in table
    ensures PreparedParams(SqlText(MsSql, table), [Str(start), Str(end)])
      == [NamedParam("p0", Str(start)), NamedParam("p1", Str(end))]
  {
    SqlPlaceholders(MsSql, table);
    var ps := [Str(start), Str(end)];
    ScalarArgs(ps, 2);
    assert ps[..2] == ps;
    FirstNames();
  }

  /** A sensor table row: its `timestamp` as DATETIME text and all its columns in order. */
  datatype SensorRow = SensorRow(timestamp: string, columns: seq<(string, Value)>)

  /** `timestamp BETWEEN start AND end`. */
  predicate InRange(r: SensorRow, lo: string, hi: string) {
    LexLe(lo, r.timestamp) && LexLe(r.timestamp, hi)
  }

  /** `ORDER BY timestamp ASC`. */
  predicate TimestampLe(a: SensorRow, b: SensorRow) {
    LexLe(a.timestamp, b.timestamp)
  }

  lemma TimestampLePreorder()
    ensures TotalPreorder(TimestampLe)
  {
    forall a: SensorRow, b: SensorRow ensures TimestampLe(a, b) || TimestampLe(b, a) {
      LexTrichotomy(a.timestamp, b.timestamp);
    }
    forall a: SensorRow, b: SensorRow, c: SensorRow | TimestampLe(a, b) && TimestampLe(b, c) ensures TimestampLe(a, c) {
      if a.timestamp != b.timestamp && b.timestamp != c.timestamp {
        LexTransitive(a.timestamp, b.timestamp, c.timestamp);
      }
    }
  }

  function Filter(table: seq<SensorRow>, lo: string, hi: string): (r: seq<SensorRow>)
    ensures forall x :: x in r <==> x in table && InRange(x, lo, hi)
    ensures forall x :: multiset(r)[x] == if InRange(x, lo, hi) then multiset(table)[x] else 0
  {
    if table == [] then []
    else
      var rest := Filter(table[1..], lo, hi);
      assert forall x :: x in table <==> x == table[0] || x in table[1..];
      assert table == [table[0]] + table[1..];
      if InRange(table[0], lo, hi) then [table[0]] + rest else rest
  }

  /** `SELECT *, … AS formatted_timestamp`: the row's columns followed by its timestamp text. */
  function Selected(r: SensorRow): Record {
    Record(r.columns + [("formatted_timestamp", Str(Take(r.timestamp, 19)))])
  }

  function Query(table: seq<SensorRow>, lo: string, hi: string): (result: seq<Record>)
    ensures |result| == |Filter(table, lo, hi)|
  {
    var sorted := Sort(Filter(table, lo, hi), TimestampLe);
    SortLength(Filter(table, lo, hi), TimestampLe);
    seq(|sorted|, i requires 0 <= i < |sorted| => Selected(sorted[i]))
  }

  /** The rows in range, each as often as the table holds it, in timestamp order. */
  lemma QuerySpec(table: seq<SensorRow>, lo: string, hi: string)
    ensures var sorted := Sort(Filter(table, lo, hi), TimestampLe);
      && multiset(sorted) == multiset(Filter(table, lo, hi))
      && (forall x :: multiset(sorted)[x] == if InRange(x, lo, hi) then multiset(table)[x] else 0)
      && (forall x :: x in sorted <==> x in table && InRange(x, lo, hi))
      && (forall i, j :: 0 <= i < j < |sorted| ==> LexLe(sorted[i].timestamp, sorted[j].timestamp))
      && (forall i :: 0 <= i < |sorted| ==> Query(table, lo, hi)[i] == Selected(sorted[i]))
  {
    TimestampLePreorder();
    SortSorted(Filter(table, lo, hi), TimestampLe);
    SortLength(Filter(table, lo, hi), TimestampLe);
  }

  // ----- the sheet -----

  const NoData: string := "No data found for selected range."

  /** `${table.toUpperCase()} Export`. */
  function SheetName(table: string): string {
    ToUpper(table) + " Export"
  }

  lemma SheetNames()
    ensures SheetName("t500") == "T500 Export" && SheetName("t700") == "T700 Export"
  {
  }

  /** The columns the sheet gets: none when empty, else the first row's keys. */
  function SensorColumns(rows: seq<Record>): seq<Column> {
    if rows == [] then [] else ColumnsFor(Keys(rows[0]))
  }

  /** The data rows the sheet gets. */
  function SensorRows(rows: seq<Record>): seq<seq<Value>> {
    if rows == [] then [[Str(NoData)]]
    else seq(|rows|, i requires 0 <= i < |rows| => Place(SensorColumns(rows), rows[i]))
  }

  predicate DistinctKeys(r: Record) {
    forall i, j :: 0 <= i < j < |r.entries| ==> r.entries[i].0 != r.entries[j].0
  }

  /**
   * An empty result shows one "no data" row and no header. Otherwise the header
   * is the first row's keys and each row, when it has those keys in that
   * order, shows its values in order.
   */
  lemma SensorSheetSpec(rows: seq<Record>)
    ensures rows == [] ==> ShownOf(SensorColumns(rows), SensorRows(rows)) == [[Str(NoData)]]
    ensures rows != [] && rows[0].entries != [] ==>
      var shown := ShownOf(SensorColumns(rows), SensorRows(rows));
      && |shown| == |rows| + 1
      && shown[0] == HeaderCells(ColumnsFor(Keys(rows[0])))
      && (DistinctKeys(rows[0]) ==> forall i, k :: 0 <= i < |rows| && Keys(rows[i]) == Keys(rows[0]) && 0 <= k < |rows[i].entries| ==>
            shown[i + 1][k] == rows[i].entries[k].1)
  {
    if rows != [] && rows[0].entries != [] && DistinctKeys(rows[0]) {
      var cs := SensorColumns(rows);
      forall i | 0 <= i < |rows| && Keys(rows[i]) == Keys(rows[0])
        ensures forall k :: 0 <= k < |rows[i].entries| ==> Place(cs, rows[i])[k] == rows[i].entries[k].1
      {
        assert forall k :: 0 <= k < |rows[i].entries| ==> rows[i].entries[k].0 == Keys(rows[0])[k] == cs[k].key;
        PlaceAligned(cs, rows[i]);
      }
    }
  }

  /** The route's sheet: the "no data" row, or the columns and then every row in order. */
  method BuildSensorSheet(table: string, rows: seq<Record>) returns (sheet: Worksheet)
    ensures fresh(sheet)
    ensures sheet.name == SheetName(table)
    ensures sheet.columns == SensorColumns(rows) && sheet.rows == SensorRows(rows)
  {
    sheet := new Worksheet(SheetName(table));
    if |rows| == 0 {
      sheet.AddValues([Str(NoData)]);
    } else {
      sheet.SetColumns(ColumnsFor(Keys(rows[0])));
      var i := 0;
      while i < |rows|
        invariant 0 <= i <= |rows|
        invariant sheet.name == SheetName(table) && sheet.columns == SensorColumns(rows)
        invariant sheet.rows == seq(i, k requires 0 <= k < i => Place(SensorColumns(rows), rows[k]))
      {
        sheet.AddRecord(rows[i]);
        i := i + 1;
      }
    }
  }

  /** `${table} ${start} s.d ${end}.xlsx`. */
  function FileName(table: string, start: string, end: string): (f: string)
    ensures |f| == |table| + |start| + |end| + 11
    ensures f[..|table|] == table && f[|f| - 5..] == ".xlsx"
    ensures f[|table| + 1..|table| + 1 + |start|] == start
    ensures f[|f| - 5 - |end|..|f| - 5] == end
    ensures f[|table|] == ' ' && f[|table| + 1 + |start|..|table| + 6 + |start|] == " s.d "
  {
    table + " " + start + " s.d " + end + ".xlsx"
  }
}
