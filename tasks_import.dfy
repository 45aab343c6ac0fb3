/**
 * The spreadsheet import: each record of the uploaded sheet is mapped to
 * the four inserted columns, the start date is cut to its UTC day, and the
 * response reports how many records were received.
 * `new Date(x).getTime()` is the parameter `toDate` and `toISOString` the
 * parameter `iso`.
 */
module TasksImport {

  import opened Wrappers
  import opened Strings
  import TasksRoute

  /** One record of the sheet: column header to cell text; a missing header is `undefined`. */
  type SheetRecord = map<string, string>

  function Cell(t: SheetRecord, header: string): Option<string> {
    if header in t then Some(t[header]) else None
  }

  /** `fmtDate`: null for an invalid date, otherwise the UTC date part of its ISO text. */
  function FmtDate(d: Option<string>, toDate: Option<string> -> Option<int>, iso: int -> string): Option<string> {
    match toDate(d)
    case None => None
    case Some(ms) => Some(Split(iso(ms), 'T')[0])
  }

  /** For an ISO instant the stored date is its first ten characters, `YYYY-MM-DD`. */
  lemma FmtDateSpec(d: Option<string>, toDate: Option<string> -> Option<int>, iso: int -> string)
    ensures toDate(d).None? <==> FmtDate(d, toDate, iso).None?
    ensures toDate(d).Some? && TasksRoute.IsIsoInstant(iso(toDate(d).value)) ==>
      FmtDate(d, toDate, iso) == Some(iso(toDate(d).value)[..10])
  {
    if toDate(d).Some? && TasksRoute.IsIsoInstant(iso(toDate(d).value)) {
      var s := iso(toDate(d).value);
      assert 'T' !in s[..10] by {
        assert forall i :: 0 <= i < 10 ==> s[..10][i] == s[i] != 'T';
      }
      assert s == s[..10] + ['T'] + s[11..];
      SplitFirst(s[..10], 'T', s[11..]);
    }
  }

  /** A mapped task: the four values the import keeps of a record. */
  datatype Mapped = Mapped(title: Option<string>, picMaintenance: Option<string>, description: Option<string>, date: Option<string>)

  function MapRecord(t: SheetRecord, toDate: Option<string> -> Option<int>, iso: int -> string): Mapped {
    Mapped(Cell(t, "Description"), Cell(t, "PIC Maintenance"), Cell(t, "Description of functional location"),
           FmtDate(Cell(t, "Basic Start Date"), toDate, iso))
  }

  /** The columns the import writes. */
  const Columns: seq<string> := ["title", "pic_maintenance", "description", "due_date"]

  /** `values`: one row per record, in order, with the mapped values in column order. */
  function Values(tasks: seq<SheetRecord>, toDate: Option<string> -> Option<int>, iso: int -> string): seq<seq<Option<string>>> {
    seq(|tasks|, i requires 0 <= i < |tasks| =>
      var m := MapRecord(tasks[i], toDate, iso);
      [m.title, m.picMaintenance, m.description, m.date])
  }

  /** The JSON answer: `{success: true, inserted: tasks.length}`. */
  datatype ImportResult = ImportResult(success: bool, inserted: nat)

  function Import(tasks: seq<SheetRecord>): ImportResult {
    ImportResult(true, |tasks|)
  }

  /**
   * Every record becomes one inserted row, blank titles included, in the
   * same order; its cells come from the four named headers.
   */
  lemma ValuesSpec(tasks: seq<SheetRecord>, toDate: Option<string> -> Option<int>, iso: int -> string)
    ensures |Values(tasks, toDate, iso)| == |tasks| == Import(tasks).inserted
    ensures forall i :: 0 <= i < |tasks| ==>
      && |Values(tasks, toDate, iso)[i]| == |Columns|
      && Values(tasks, toDate, iso)[i][0] == Cell(tasks[i], "Description")
      && Values(tasks, toDate, iso)[i][1] == Cell(tasks[i], "PIC Maintenance")
      && Values(tasks, toDate, iso)[i][2] == Cell(tasks[i], "Description of functional location")
      && Values(tasks, toDate, iso)[i][3] == FmtDate(Cell(tasks[i], "Basic Start Date"), toDate, iso)
  {
  }

  /** The import never writes the status or the field PIC. */
  lemma ColumnsExclude()
    ensures "status" !in Columns && "pic_lapangan" !in Columns && |Columns| == 4
  {
  }
}
