/**
 * The task collection endpoint: the row built by POST from a JSON body
 * (defaults, title and due-date checks, the stored due-date text and the PIC
 * rule) and the order in which GET returns the rows.
 * `new Date(x).getTime()` is the parameter `toDate` (None for an invalid
 * date) and `toISOString` the parameter `iso`.
 */
module TasksRoute {

  import opened Wrappers
  import opened Strings
  import opened Sorting
  import opened TaskModel
  import TaskCard

  /** A parsed JSON value. */
  datatype Json = JNull | JBool(b: bool) | JNum(n: real) | JStr(s: string) | JArray(elems: seq<Json>) | JObject(fields: map<string, Json>)

  /** JavaScript truthiness of a JSON value. */
  predicate Truthy(j: Json) {
    match j
    case JNull => false
    case JBool(b) => b
    case JNum(n) => n != 0.0
    case JStr(s) => s != ""
    case _ => true
  }

  /** `(body || {})[k]`: a property of an object body, None when it is absent. */
  function Field(body: Json, k: string): Option<Json> {
    if body.JObject? && k in body.fields then Some(body.fields[k]) else None
  }

  /** A destructuring default, applied only when the property is absent. */
  function FieldOr(body: Json, k: string, default: Json): Json {
    Field(body, k).GetOr(default)
  }

  /** The values bound to the five INSERT placeholders. */
  datatype InsertRow = InsertRow(title: string, description: Json, dueSql: Option<string>, status: Json, picSql: Option<string>)

  /** `d.toISOString().slice(0, 19).replace('T', ' ')`. */
  function DueSql(iso: string): string {
    ReplaceFirst(Take(iso, 19), 'T', ' ')
  }

  /** `picSql`: the trimmed PIC of a done task, null otherwise or when it is blank. */
  function PicSql(status: Json, pic: Json): Option<string> {
    if status == JStr("done") && pic.JStr? && Trim(pic.s) != "" then Some(Trim(pic.s)) else None
  }

  /** The POST handler up to the INSERT: the bound row, or the 400 it answers with. */
  function CreateRow(body: Json, toDate: Json -> Option<int>, iso: int -> string): Response<InsertRow> {
    var title := Field(body, "title");
    var description := FieldOr(body, "description", JNull);
    var due := FieldOr(body, "due_date", JNull);
    var status := FieldOr(body, "status", JStr("todo"));
    var pic := FieldOr(body, "pic_lapangan", JNull);
    if !(title.Some? && title.value.JStr? && title.value.s != "") then Fail(400, "title is required")
    else if Truthy(due) && toDate(due).None? then Fail(400, "invalid due_date")
    else
      var dueSql := if Truthy(due) then Some(DueSql(iso(toDate(due).value))) else None;
      Ok(InsertRow(title.value.s, description, dueSql, status, PicSql(status, pic)))
  }

  /** A missing, empty or non-string title is rejected before anything else is looked at. */
  lemma TitleRequired(body: Json, toDate: Json -> Option<int>, iso: int -> string)
    ensures CreateRow(body, toDate, iso).Ok? ==> Field(body, "title").Some? && Field(body, "title").value.JStr?
    ensures (Field(body, "title").None? || !Field(body, "title").value.JStr? || Field(body, "title") == Some(JStr("")))
      <==> CreateRow(body, toDate, iso) == Fail(400, "title is required")
    ensures CreateRow(body, toDate, iso).Ok? ==> CreateRow(body, toDate, iso).body.title == Field(body, "title").value.s != ""
  {
  }

  /** An object with only a title gets the defaults: null description, due date and PIC, status "todo". */
  lemma Defaults(t: string, toDate: Json -> Option<int>, iso: int -> string)
    requires t != ""
    ensures CreateRow(JObject(map["title" := JStr(t)]), toDate, iso)
      == Ok(InsertRow(t, JNull, None, JStr("todo"), None))
  {
  }

  /** A truthy due date that does not parse is a 400; a falsy one stores null; a parsable one its ISO prefix. */
  lemma DueDateRule(body: Json, toDate: Json -> Option<int>, iso: int -> string)
    requires Field(body, "title").Some? && Field(body, "title").value.JStr? && Field(body, "title").value.s != ""
    ensures var due := FieldOr(body, "due_date", JNull);
      && (Truthy(due) && toDate(due).None? <==> CreateRow(body, toDate, iso) == Fail(400, "invalid due_date"))
      && (!Truthy(due) ==> CreateRow(body, toDate, iso).Ok? && CreateRow(body, toDate, iso).body.dueSql == None)
      && (Truthy(due) && toDate(due).Some? ==>
            CreateRow(body, toDate, iso).Ok? && CreateRow(body, toDate, iso).body.dueSql == Some(DueSql(iso(toDate(due).value))))
  {
  }

  /** The PIC is stored only for status "done" and a non-blank string, and then trimmed. */
  lemma PicRule(status: Json, pic: Json)
    ensures PicSql(status, pic).Some? <==>
      status == JStr("done") && pic.JStr? && exists i :: 0 <= i < |pic.s| && !IsSpace(pic.s[i])
    ensures PicSql(status, pic).Some? ==>
      var p := PicSql(status, pic).value;
      p != "" && !IsSpace(p[0]) && !IsSpace(p[|p| - 1]) && Trim(p) == p
  {
    if pic.JStr? {
      TrimSpec(pic.s);
      TrimIdempotent(pic.s);
    }
  }

  /**
   * A stored PIC is the submitted text with only its leading and trailing
   * whitespace cut off: it starts right after the leading whitespace.
   */
  lemma PicStored(status: Json, pic: Json)
    requires PicSql(status, pic).Some?
    ensures pic.JStr?
    ensures var p, k := PicSql(status, pic).value, LeadingBlank(pic.s);
      && k + |p| <= |pic.s| && pic.s == pic.s[..k] + p + pic.s[k + |p|..]
      && Blank(pic.s[..k]) && Blank(pic.s[k + |p|..])
  {
    assert PicSql(status, pic).value == Trim(pic.s);
    TrimCut(pic.s);
  }

  // ----- the stored due-date text -----

  predicate DigitsAt(s: string, lo: nat, hi: nat)
    requires lo <= hi <= |s|
  {
    forall i :: lo <= i < hi ==> IsDigit(s[i])
  }

  /** `YYYY-MM-DDTHH:MM:SS.sssZ`, what `toISOString` gives for years 0 to 9999. */
  predicate IsIsoInstant(s: string) {
    && |s| == 24
    && DigitsAt(s, 0, 4) && s[4] == '-' && DigitsAt(s, 5, 7) && s[7] == '-' && DigitsAt(s, 8, 10)
    && s[10] == 'T' && DigitsAt(s, 11, 13) && s[13] == ':' && DigitsAt(s, 14, 16) && s[16] == ':' && DigitsAt(s, 17, 19)
    && s[19] == '.' && DigitsAt(s, 20, 23) && s[23] == 'Z'
  }

  /** `YYYY-MM-DD HH:MM:SS`, a DATETIME literal. */
  predicate IsSqlDateTime(s: string) {
    && |s| == 19
    && DigitsAt(s, 0, 4) && s[4] == '-' && DigitsAt(s, 5, 7) && s[7] == '-' && DigitsAt(s, 8, 10)
    && s[10] == ' ' && DigitsAt(s, 11, 13) && s[13] == ':' && DigitsAt(s, 14, 16) && s[16] == ':' && DigitsAt(s, 17, 19)
  }

  /**
   * The stored text is a DATETIME literal with the ISO date and time fields,
   * and the task list's `parseDate` turns it back into the ISO text up to the seconds.
   */
  lemma DueSqlShape(iso: string)
    requires IsIsoInstant(iso)
    ensures IsSqlDateTime(DueSql(iso))
    ensures forall i :: 0 <= i < 19 && i != 10 ==> DueSql(iso)[i] == iso[i]
    ensures TaskCard.IsoText(DueSql(iso)) == iso[..19]
  {
    var p := Take(iso, 19);
    assert IndexOf(p, 'T') == Some(10) by {
      assert p[10] == 'T';
      assert forall i :: 0 <= i < 10 ==> p[i] != 'T';
    }
    ReplaceFirstSpec(p, 'T', ' ');
    var d := DueSql(iso);
    assert IndexOf(d, ' ') == Some(10) by {
      assert d[10] == ' ';
      assert forall i :: 0 <= i < 10 ==> d[i] != ' ';
    }
    ReplaceFirstSpec(d, ' ', 'T');
    assert TaskCard.IsoText(d) == iso[..19];
  }

  // ----- GET ordering -----

  /** `ORDER BY due_date IS NULL, due_date ASC, id DESC`. */
  predicate GetLe(a: TaskRow, b: TaskRow) {
    if a.due.None? != b.due.None? then b.due.None?
    else if a.due.Some? && a.due.value != b.due.value then LexLess(a.due.value, b.due.value)
    else a.id >= b.id
  }

  lemma GetLePreorder()
    ensures TotalPreorder(GetLe)
  {
    forall a, b ensures GetLe(a, b) || GetLe(b, a) {
      if a.due.Some? && b.due.Some? {
        LexTrichotomy(a.due.value, b.due.value);
      }
    }
    forall a, b, c | GetLe(a, b) && GetLe(b, c) ensures GetLe(a, c) {
      if a.due.Some? && b.due.Some? && c.due.Some? {
        LexTrichotomy(a.due.value, b.due.value);
        LexTrichotomy(b.due.value, c.due.value);
        LexTrichotomy(a.due.value, c.due.value);
        if a.due != b.due && b.due != c.due {
          LexTransitive(a.due.value, b.due.value, c.due.value);
        }
      }
    }
  }

  function ListOrder(rows: seq<TaskRow>): seq<TaskRow> {
    Sort(rows, GetLe)
  }

  /** GET returns every row of the table, each as often as the table holds it. */
  lemma ListPermutation(rows: seq<TaskRow>)
    ensures multiset(ListOrder(rows)) == multiset(rows)
    ensures |ListOrder(rows)| == |rows|
  {
    SortLength(rows, GetLe);
  }

  /**
   * GET orders its rows: rows with a due date first, by ascending date,
   * equal dates by descending id, and undated rows last, by descending id.
   */
  lemma ListOrderSpec(rows: seq<TaskRow>, i: nat, j: nat)
    requires i < j < |ListOrder(rows)|
    ensures var r := ListOrder(rows);
      && (r[i].due.None? ==> r[j].due.None?)
      && (r[i].due.Some? && r[j].due.Some? ==> LexLe(r[i].due.value, r[j].due.value))
      && (r[i].due == r[j].due ==> r[i].id >= r[j].id)
  {
    GetLePreorder();
    SortSorted(rows, GetLe);
    assert GetLe(ListOrder(rows)[i], ListOrder(rows)[j]);
  }
}
