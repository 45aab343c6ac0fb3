/**
 * The task log export: the date parameters, the inclusive bounds and the
 * query's WHERE and ORDER BY, the shaping of each result row into a sheet
 * row, the single "no data" row and the file name.
 * A DATETIME is held as its `YYYY-MM-DD HH:MM:SS` text, whose character
 * order is its chronological order; the driver's conversion of that text to
 * a JavaScript value is the parameter `toJs` and the local calendar fields
 * of an instant the parameter `local`.
 */
module TasksExport {

  import opened Wrappers
  import opened Strings
  import opened Sorting
  import opened MsQuery
  import opened LocalTime
  import opened Sheet
  import opened TaskModel
  import TasksRoute

  // ----- isYMD and the parameters -----

  /** `/^\d{4}-\d{2}-\d{2}$/`. */
  predicate IsYMD(s: string) {
    && |s| == 10
    && AllDigits(s[..4]) && s[4] == '-' && AllDigits(s[5..7]) && s[7] == '-' && AllDigits(s[8..])
  }

  /** Reference reading of the pattern: three dash-separated fields of 4, 2 and 2 digits. */
  predicate YMDFields(s: string) {
    var p := Split(s, '-');
    |p| == 3 && |p[0]| == 4 && |p[1]| == 2 && |p[2]| == 2 && AllDigits(p[0]) && AllDigits(p[1]) && AllDigits(p[2])
  }

  lemma IsYMDFields(s: string)
    ensures IsYMD(s) <==> YMDFields(s)
  {
    if IsYMD(s) {
      var y, m, d := s[..4], s[5..7], s[8..];
      assert '-' !in y && '-' !in m && '-' !in d by {
        assert forall i :: 0 <= i < 4 ==> IsDigit(y[i]);
        assert forall i :: 0 <= i < 2 ==> IsDigit(m[i]) && IsDigit(d[i]);
      }
      assert s == y + ['-'] + (m + ['-'] + d);
      SplitFirst(y, '-', m + ['-'] + d);
      SplitFirst(m, '-', d);
      SplitWithout(d, '-');
    }
    if YMDFields(s) {
      var p := Split(s, '-');
      JoinSplit(s, '-');
      assert p[1..][1..] == [p[2]];
      assert Join(p[1..][1..], "-") == p[2];
      assert Join(p[1..], "-") == p[1] + "-" + p[2];
      assert Join(p, "-") == p[0] + "-" + (p[1] + "-" + p[2]);
      assert s[..4] == p[0] && s[5..7] == p[1] && s[8..] == p[2];
    }
  }

  /** The start and end bounds of the query, or the 400 for a missing or malformed date. */
  function Bounds(start: Option<string>, end: Option<string>): (r: Response<(string, string)>)
    ensures r.Ok? <==> start.Some? && end.Some? && IsYMD(start.value) && IsYMD(end.value)
    ensures r.Ok? ==> r.body == (start.value + " 00:00:00", end.value + " 23:59:59")
    ensures r.Fail? ==> r == Fail(400, "Invalid parameters. Use ?start=YYYY-MM-DD&end=YYYY-MM-DD")
  {
    if start.None? || start.value == "" || end.None? || end.value == "" || !IsYMD(start.value) || !IsYMD(end.value)
    then Fail(400, "Invalid parameters. Use ?start=YYYY-MM-DD&end=YYYY-MM-DD")
    else Ok((start.value + " 00:00:00", end.value + " 23:59:59"))
  }

  // ----- the query -----

  /** `due_date IS NOT NULL AND due_date BETWEEN ? AND ?`. */
  predicate Selected(r: TaskRow, lo: string, hi: string) {
    r.due.Some? && LexLe(lo, r.due.value) && LexLe(r.due.value, hi)
  }

  /** A DATETIME text with an hour below 24 and minutes and seconds below 60. */
  predicate ValidDateTime(s: string) {
    TasksRoute.IsSqlDateTime(s) && (s[11] < '2' || (s[11] == '2' && s[12] <= '3')) && s[14] <= '5' && s[17] <= '5'
  }

  lemma ClockBounds(t: string)
    requires |t| == 9 && t[0] == ' ' && t[3] == ':' && t[6] == ':'
    requires forall i :: 1 <= i < 9 && i != 3 && i != 6 ==> IsDigit(t[i])
    requires (t[1] < '2' || (t[1] == '2' && t[2] <= '3')) && t[4] <= '5' && t[7] <= '5'
    ensures LexLe(" 00:00:00", t) && LexLe(t, " 23:59:59")
  {
    LexPointwise(" 00:00:00", t);
    var h, rest := t[..3], t[3..];
    LexPointwise(rest, ":59:59");
    assert LexLe(h, " 23") by {
      var u: string := " 23";
      assert h[0] == u[0] && h[1..] == [t[1], t[2]] && u[1..] == "23";
      assert LexLess(h, u) == LexLess(h[1..], "23");
      if h[1] == '2' {
        assert h[1..][1..] == [t[2]];
        assert LexLess(h[1..], "23") == LexLess([t[2]], "3");
        if h[2] != '3' {
          assert LexLess([t[2]], "3");
        } else {
          assert h == " 23";
        }
      }
    }
    assert t == h + rest;
    assert " 23:59:59" == " 23" + ":59:59";
    LexConcat(h, rest, " 23", ":59:59");
  }

  /** The bounds make the range inclusive of whole days: a row is selected exactly when its date lies from start to end. */
  lemma SelectedByDate(r: TaskRow, start: string, end: string)
    requires IsYMD(start) && IsYMD(end)
    requires r.due.Some? && ValidDateTime(r.due.value)
    ensures Selected(r, start + " 00:00:00", end + " 23:59:59")
      <==> LexLe(start, r.due.value[..10]) && LexLe(r.due.value[..10], end)
  {
    var s := r.due.value;
    var date, time := s[..10], s[10..];
    assert s == date + time;
    ClockBounds(time);
    LexConcat(start, " 00:00:00", date, time);
    LexConcat(date, time, end, " 23:59:59");
    if start == date && start + " 00:00:00" != s {
      assert " 00:00:00" != time;
    }
    if date == end && s != end + " 23:59:59" {
      assert time != " 23:59:59";
    }
  }

  /** `FIELD(status, 'todo', 'in_progress', 'blocked', 'done')`: 0 for NULL and anything else. */
  function FieldRank(status: Option<string>): nat {
    if status == Some("todo") then 1
    else if status == Some("in_progress") then 2
    else if status == Some("blocked") then 3
    else if status == Some("done") then 4
    else 0
  }

  /** `due_date ASC` with NULL first, as MySQL sorts it. */
  predicate DueBefore(a: Option<string>, b: Option<string>) {
    (a.None? && b.Some?) || (a.Some? && b.Some? && LexLess(a.value, b.value))
  }

  /** `ORDER BY FIELD(status, …), due_date ASC, id ASC`. */
  predicate ExportLe(a: TaskRow, b: TaskRow) {
    if FieldRank(a.status) != FieldRank(b.status) then FieldRank(a.status) < FieldRank(b.status)
    else if a.due != b.due then DueBefore(a.due, b.due)
    else a.id <= b.id
  }

  lemma DueBeforeTotal(a: Option<string>, b: Option<string>)
    ensures a != b ==> DueBefore(a, b) || DueBefore(b, a)
    ensures !(DueBefore(a, b) && DueBefore(b, a))
  {
    if a.Some? && b.Some? {
      LexTrichotomy(a.value, b.value);
    }
  }

  lemma DueBeforeTransitive(a: Option<string>, b: Option<string>, c: Option<string>)
    requires DueBefore(a, b) && DueBefore(b, c)
    ensures DueBefore(a, c)
  {
    if a.Some? {
      LexTransitive(a.value, b.value, c.value);
    }
  }

  lemma ExportLePreorder()
    ensures TotalPreorder(ExportLe)
  {
    forall a, b ensures ExportLe(a, b) || ExportLe(b, a) {
      DueBeforeTotal(a.due, b.due);
    }
    forall a, b, c | ExportLe(a, b) && ExportLe(b, c) ensures ExportLe(a, c) {
      DueBeforeTotal(a.due, b.due);
      DueBeforeTotal(b.due, c.due);
      DueBeforeTotal(a.due, c.due);
      if FieldRank(a.status) == FieldRank(b.status) == FieldRank(c.status) && a.due != b.due && b.due != c.due {
        DueBeforeTransitive(a.due, b.due, c.due);
      }
    }
  }

  function Filter(table: seq<TaskRow>, lo: string, hi: string): (r: seq<TaskRow>)
    ensures forall t :: t in r <==> t in table && Selected(t, lo, hi)
    ensures forall t :: multiset(r)[t] == if Selected(t, lo, hi) then multiset(table)[t] else 0
  {
    if table == [] then []
    else
      var rest := Filter(table[1..], lo, hi);
      assert forall t :: t in table <==> t == table[0] || t in table[1..];
      assert table == [table[0]] + table[1..];
      if Selected(table[0], lo, hi) then [table[0]] + rest else rest
  }

  /** The rows the query returns, in its order. */
  function Query(table: seq<TaskRow>, lo: string, hi: string): seq<TaskRow> {
    Sort(Filter(table, lo, hi), ExportLe)
  }

  /** The query returns exactly the selected rows, each as often as the table holds it. */
  lemma QuerySpec(table: seq<TaskRow>, lo: string, hi: string)
    ensures forall t :: t in Query(table, lo, hi) <==> t in table && Selected(t, lo, hi)
    ensures forall t :: multiset(Query(table, lo, hi))[t] == if Selected(t, lo, hi) then multiset(table)[t] else 0
  {
    SortLength(Filter(table, lo, hi), ExportLe);
  }

  /** The query's rows are ordered by status rank, then due date, then id. */
  lemma QueryOrder(table: seq<TaskRow>, lo: string, hi: string, i: nat, j: nat)
    requires i < j < |Query(table, lo, hi)|
    ensures var q := Query(table, lo, hi);
      && FieldRank(q[i].status) <= FieldRank(q[j].status)
      && (FieldRank(q[i].status) == FieldRank(q[j].status) ==>
            q[i].due.Some? && q[j].due.Some? && LexLe(q[i].due.value, q[j].due.value))
      && (FieldRank(q[i].status) == FieldRank(q[j].status) && q[i].due == q[j].due ==> q[i].id <= q[j].id)
  {
    var f := Filter(table, lo, hi);
    ExportLePreorder();
    SortSorted(f, ExportLe);
    SortLength(f, ExportLe);
    var q := Query(table, lo, hi);
    assert ExportLe(q[i], q[j]);
    assert q[i] in q && q[j] in q;
  }

  // ----- row shaping -----

  /** What the driver hands back for a DATETIME: null, its text, or a Date instant. */
  datatype DueValue = DueNull | DueText(text: string) | DueDate(ms: int)

  /** A result row as the route sees it. */
  datatype ResultRow = ResultRow(
    id: int, title: Option<string>, description: Option<string>, due: DueValue, status: Option<string>, picLapangan: Option<string>)

  function ResultOf(r: TaskRow, toJs: string -> DueValue): ResultRow {
    ResultRow(r.id, r.title, r.description, if r.due.Some? then toJs(r.due.value) else DueNull, r.status, r.picLapangan)
  }

  /** `fmt`: empty for a falsy value, the first ten characters of a text, the local date of a Date. */
  function Fmt(d: DueValue, local: int -> Fields): string {
    match d
    case DueNull => ""
    case DueText(s) => if s == "" then "" else Take(s, 10)
    case DueDate(ms) => FormatYMD(local(ms))
  }

  /** A DATETIME text or a Date with a four-digit local year both come out as a `YYYY-MM-DD` the parameters accept. */
  lemma FmtIsDate(d: DueValue, local: int -> Fields)
    requires d.DueText? ==> TasksRoute.IsSqlDateTime(d.text)
    requires d.DueDate? ==> ValidFields(local(d.ms)) && 1000 <= local(d.ms).year <= 9999
    ensures d.DueNull? <==> Fmt(d, local) == ""
    ensures d.DueText? ==> Fmt(d, local) == d.text[..10] && IsYMD(Fmt(d, local))
    ensures d.DueDate? ==> IsYMD(Fmt(d, local))
  {
    if d.DueDate? {
      FormatYMDSpec(local(d.ms));
    }
    if d.DueText? {
      var s := Fmt(d, local);
      assert s == d.text[..10];
      assert s[..4] == d.text[..4] && s[5..7] == d.text[5..7] && s[8..] == d.text[8..10];
    }
  }

  /** `String(r.status || "").replace(/_/g, " ")`. */
  function StatusCell(status: Option<string>): (s: string)
    ensures status.None? ==> s == ""
    ensures status.Some? ==> |s| == |status.value| && '_' !in s
    ensures status.Some? ==> forall i :: 0 <= i < |status.value| ==>
      s[i] == if status.value[i] == '_' then ' ' else status.value[i]
  {
    ReplaceAll(status.GetOr(""), '_', ' ')
  }

  /** `x ?? ""`. */
  function OrEmpty(v: Option<string>): Value {
    Str(v.GetOr(""))
  }

  /** A nullable text column as a cell. */
  function Cell(v: Option<string>): Value {
    if v.Some? then Str(v.value) else Null
  }

  const TaskColumns: seq<Column> := [
    Column("ID", "id", Some(8)),
    Column("Title", "title", Some(30)),
    Column("Description", "description", Some(40)),
    Column("Due Date", "due_date", Some(16)),
    Column("Status", "status", Some(16)),
    Column("PIC Lapangan", "pic_lapangan", Some(20)),
    Column("PIC Maintenance", "pic_maintenance", Some(20))
  ]

  /** The object passed to `sheet.addRow` for one result row; it has no `pic_maintenance`. */
  function RowRecord(r: ResultRow, local: int -> Fields): Record {
    Record([
      ("id", Num(r.id as real)),
      ("title", Cell(r.title)),
      ("description", OrEmpty(r.description)),
      ("due_date", Str(Fmt(r.due, local))),
      ("status", Str(StatusCell(r.status))),
      ("pic_lapangan", OrEmpty(r.picLapangan))
    ])
  }

  const NoData: string := "No data found for selected range."

  /** The rows the sheet ends with: one per result row, in order, or the single "no data" row. */
  function TaskSheetRows(rows: seq<ResultRow>, local: int -> Fields): seq<seq<Value>> {
    seq(|rows|, i requires 0 <= i < |rows| => Place(TaskColumns, RowRecord(rows[i], local)))
    + (if |rows| == 0 then [Place(TaskColumns, Record([("title", Str(NoData))]))] else [])
  }

  /** One row per result in order, the PIC Maintenance cell always empty, and the "no data" row only for no results. */
  lemma TaskSheetRowsSpec(rows: seq<ResultRow>, local: int -> Fields)
    ensures var s := TaskSheetRows(rows, local);
      && |s| == (if rows == [] then 1 else |rows|)
      && (forall i :: 0 <= i < |s| ==> |s[i]| == 7 && s[i][6] == Undefined)
      && (forall i :: 0 <= i < |rows| ==>
            s[i] == [Num(rows[i].id as real), Cell(rows[i].title), OrEmpty(rows[i].description),
                     Str(Fmt(rows[i].due, local)), Str(StatusCell(rows[i].status)), OrEmpty(rows[i].picLapangan), Undefined])
      && (rows == [] ==> s == [[Undefined, Str(NoData), Undefined, Undefined, Undefined, Undefined, Undefined]])
  {
    var s := TaskSheetRows(rows, local);
    forall i | 0 <= i < |rows|
      ensures s[i] == [Num(rows[i].id as real), Cell(rows[i].title), OrEmpty(rows[i].description),
                       Str(Fmt(rows[i].due, local)), Str(StatusCell(rows[i].status)), OrEmpty(rows[i].picLapangan), Undefined]
    {
      RowRecordCells(rows[i], local);
    }
    if rows == [] {
      var rec := Record([("title", Str(NoData))]);
      var p := Place(TaskColumns, rec);
      assert p[1] == Str(NoData);
      assert p[0] == Undefined && p[2] == Undefined && p[3] == Undefined;
      assert p[4] == Undefined && p[5] == Undefined && p[6] == Undefined;
      assert p == [Undefined, Str(NoData), Undefined, Undefined, Undefined, Undefined, Undefined];
      assert s == [] + [p];
    }
  }

  /** The result rows the route receives for the query's rows, in order. */
  function Results(q: seq<TaskRow>, toJs: string -> DueValue): (rows: seq<ResultRow>)
    ensures |rows| == |q|
  {
    seq(|q|, i requires 0 <= i < |q| => ResultOf(q[i], toJs))
  }

  /**
   * From the table to the sheet: one row per row of the query, in its order,
   * carrying that row's id, title, description, due date, status and PIC
   * Lapangan; the "no data" row exactly when no row of the table is selected.
   */
  lemma ExportSheetRows(table: seq<TaskRow>, lo: string, hi: string, toJs: string -> DueValue, local: int -> Fields)
    ensures var q := Query(table, lo, hi);
      var s := TaskSheetRows(Results(q, toJs), local);
      && ((s == [[Undefined, Str(NoData), Undefined, Undefined, Undefined, Undefined, Undefined]]) <==>
            forall t :: t in table ==> !Selected(t, lo, hi))
      && (q != [] ==> |s| == |q|)
      && (forall i :: 0 <= i < |q| ==>
            s[i] == [Num(q[i].id as real), Cell(q[i].title), OrEmpty(q[i].description),
                     Str(Fmt(if q[i].due.Some? then toJs(q[i].due.value) else DueNull, local)),
                     Str(StatusCell(q[i].status)), OrEmpty(q[i].picLapangan), Undefined])
  {
    var q := Query(table, lo, hi);
    var rows := Results(q, toJs);
    QuerySpec(table, lo, hi);
    TaskSheetRowsSpec(rows, local);
    if q != [] {
      var s := TaskSheetRows(rows, local);
      assert s[0][0] == Num(q[0].id as real);
      assert q[0] in q;
    }
  }

  lemma TaskColumnKeysDistinct()
    ensures forall i, j :: 0 <= i < j < |TaskColumns| ==> TaskColumns[i].key != TaskColumns[j].key
  {
  }

  lemma RowRecordCells(r: ResultRow, local: int -> Fields)
    ensures Place(TaskColumns, RowRecord(r, local))
      == [Num(r.id as real), Cell(r.title), OrEmpty(r.description),
          Str(Fmt(r.due, local)), Str(StatusCell(r.status)), OrEmpty(r.picLapangan), Undefined]
  {
    TaskColumnKeysDistinct();
    PlaceAligned(TaskColumns, RowRecord(r, local));
  }

  /** The `forEach` over the results and the conditional extra row, on a fresh sheet named "Tasks". */
  method BuildTaskSheet(rows: seq<ResultRow>, local: int -> Fields) returns (sheet: Worksheet)
    ensures fresh(sheet)
    ensures sheet.name == "Tasks" && sheet.columns == TaskColumns
    ensures sheet.rows == TaskSheetRows(rows, local)
  {
    sheet := new Worksheet("Tasks");
    sheet.SetColumns(TaskColumns);
    var i := 0;
    while i < |rows|
      invariant 0 <= i <= |rows|
      invariant sheet.name == "Tasks" && sheet.columns == TaskColumns
      invariant sheet.rows == seq(i, k requires 0 <= k < i => Place(TaskColumns, RowRecord(rows[k], local)))
    {
      sheet.AddRecord(RowRecord(rows[i], local));
      i := i + 1;
    }
    if |rows| == 0 {
      sheet.AddRecord(Record([("title", Str(NoData))]));
    }
  }

  /** `tasks ${start} s.d ${end}.xlsx`. */
  function FileName(start: string, end: string): string {
    "tasks " + start + " s.d " + end + ".xlsx"
  }

  /** For valid dates both can be read back from the file name. */
  lemma FileNameSpec(start: string, end: string)
    requires IsYMD(start) && IsYMD(end)
    ensures |FileName(start, end)| == 36
    ensures FileName(start, end)[6..16] == start && FileName(start, end)[21..31] == end
  {
  }
}
