/**
 * The chart series endpoint: the table whitelist and the start/end checks,
 * the bucket width that keeps a chart near 300 points, the epoch-aligned
 * bucket keys of both dialects, the `AVG` column list and the statement
 * with its bound values. `new Date(x).getTime()` is the parameter `toDate`
 * (None for an invalid date, whose NaN the model does not carry further).
 */
module ChartpageRoute {

  import opened Wrappers
  import opened Strings
  import opened MsQuery
  import opened Dialects
  import SensorExport

  /** `TABLES`: the metric columns of each chart table, in order. */
  function TableCols(t: string): Option<seq<string>> {
    if t == "t500" then Some(["cod", "tss"])
    else if t == "t700" then Some(["cod", "pH", "Temperature", "tss"])
    else None
  }

  /** The all-lower-case property names an object literal inherits from `Object.prototype`. */
  const InheritedKeys: seq<string> := ["constructor", "__proto__"]

  /** `table in TABLES` as written: the `in` operator also finds inherited properties. */
  predicate InTablesAsWritten(t: string) {
    TableCols(t).Some? || t in InheritedKeys
  }

  /** The whitelist as evidently meant: an own property of `TABLES`. */
  predicate InTables(t: string) {
    TableCols(t).Some?
  }

  /** The accepted tables are t500 and t700, with either case of every letter. */
  lemma ChartTables(x: string)
    ensures InTables(ToLower(x)) <==> x in ["t700", "T700", "t500", "T500"]
  {
    SensorExport.AcceptedTables(x);
  }

  // ----- bucket width -----

  function Max(a: real, b: real): real {
    if a >= b then a else b
  }

  /** `Math.ceil`. */
  function Ceil(x: real): (n: int)
    ensures x <= n as real < x + 1.0
  {
    -((-x).Floor)
  }

  const MaxPoints: int := 300

  /** `rangeSec`: the requested span in seconds, at least one. */
  function RangeSec(startMs: int, endMs: int): real {
    Max(1.0, (endMs - startMs) as real / 1000.0)
  }

  /** `bucketSec` for a given `rangeSec`. */
  function BucketWidth(rangeSec: real): real {
    Max(1.0, Ceil(rangeSec / MaxPoints as real) as real)
  }

  /** Both steps together; an invalid date makes the width NaN, here None. */
  function BucketSec(startMs: Option<int>, endMs: Option<int>): Option<real> {
    if startMs.Some? && endMs.Some? then Some(BucketWidth(RangeSec(startMs.value, endMs.value))) else None
  }

  /**
   * The span is at least one second and covers the request; the width is a
   * whole number of seconds, at least one, and the smallest such that 300
   * buckets cover the span.
   */
  lemma BucketSecSpec(startMs: int, endMs: int)
    ensures var r := RangeSec(startMs, endMs);
      && r >= 1.0 && r >= (endMs - startMs) as real / 1000.0
      && var b := BucketWidth(r);
      && b >= 1.0 && IsInteger(b)
      && b * MaxPoints as real >= r
      && (b == 1.0 || (b - 1.0) * MaxPoints as real < r)
  {
  }

  // ----- bucket keys -----

  /**
   * `FLOOR(UNIX_TIMESTAMP(ts) / b) * b` over `ts` in whole seconds since 1970
   * UTC. This is MySQL's key for a session in UTC and a timestamp from 1970
   * on; MySQL's `UNIX_TIMESTAMP` gives 0 for earlier ones.
   */
  function FloorKey(ts: int, b: nat): int
    requires b > 0
  {
    (ts / b) * b
  }

  /** SQL Server's `(DATEDIFF(second, '1970-01-01', ts) / b) * b`, whose integer division truncates toward zero. */
  function TruncKey(ts: int, b: nat): int
    requires b > 0
  {
    (if ts >= 0 then ts / b else -((-ts) / b)) * b
  }

  lemma DivMod(a: int, b: int)
    requires b > 0
    ensures a == (a / b) * b + a % b && 0 <= a % b < b
  {
  }

  lemma MulNonneg(x: int, b: int)
    requires b > 0 && x >= 0
    ensures x * b >= 0
  {
  }

  lemma MulAtLeast(x: int, b: int)
    requires b > 0 && x >= 1
    ensures x * b >= b
  {
  }

  lemma Distrib(x: int, y: int, b: int)
    ensures (x - y) * b == x * b - y * b
  {
  }

  /** The quotient and remainder are the only ones that decompose the number. */
  lemma DivUnique(a: int, b: int, q: int, r: int)
    requires b > 0 && a == q * b + r && 0 <= r < b
    ensures a / b == q && a % b == r
  {
    DivMod(a, b);
    var q' := a / b;
    Distrib(q, q', b);
    Distrib(q', q, b);
    if q' < q { MulAtLeast(q - q', b); }
    if q' > q { MulAtLeast(q' - q, b); }
  }

  /** The key is the multiple of the width at or just below the timestamp. */
  lemma FloorKeySpec(ts: int, b: nat)
    requires b > 0
    ensures FloorKey(ts, b) <= ts < FloorKey(ts, b) + b
    ensures FloorKey(ts, b) % b == 0
  {
    DivMod(ts, b);
    DivUnique(FloorKey(ts, b), b, ts / b, 0);
  }

  /**
   * Over the same count of seconds, truncating and flooring agree from 1970 on;
   * before it truncation rounds up to the next multiple. So, for a UTC session,
   * the two dialects give the same key from 1970 on.
   */
  lemma TruncKeySpec(ts: int, b: nat)
    requires b > 0
    ensures ts >= 0 ==> TruncKey(ts, b) == FloorKey(ts, b)
    ensures ts < 0 && ts % b != 0 ==> TruncKey(ts, b) == FloorKey(ts, b) + b
  {
    if ts < 0 && ts % b != 0 {
      var q, r := (-ts) / b, (-ts) % b;
      DivMod(-ts, b);
      Distrib(-q, 1, b);
      if r == 0 {
        DivUnique(ts, b, -q, 0);
      }
      DivUnique(ts, b, -q - 1, b - r);
    }
  }

  /** The whole-second timestamps of one request lie within 300 widths of each other. */
  lemma SpanFits(startMs: int, endMs: int, s: int, t: int)
    requires startMs <= s * 1000 <= t * 1000 <= endMs
    ensures var b := BucketWidth(RangeSec(startMs, endMs)).Floor;
      b > 0 && t - s <= MaxPoints * b
  {
    BucketSecSpec(startMs, endMs);
    var w := BucketWidth(RangeSec(startMs, endMs));
    assert w.Floor as real == w;
    assert (t - s) as real <= RangeSec(startMs, endMs);
  }

  /** Timestamps within 300 widths of each other have keys at most 300 widths apart. */
  lemma KeysWithin(s: int, t: int, b: int)
    requires b > 0 && s <= t && t - s <= MaxPoints * b
    ensures FloorKey(s, b) <= FloorKey(t, b) <= FloorKey(s, b) + MaxPoints * b
  {
    DivMod(s, b);
    DivMod(t, b);
    var ks, kt := s / b, t / b;
    Distrib(ks, kt, b);
    Distrib(kt, ks, b);
    if kt < ks {
      MulAtLeast(ks - kt, b);
    }
    if kt > ks + MaxPoints {
      MulAtLeast(kt - ks - MaxPoints, b);
      Distrib(kt - ks, MaxPoints, b);
    }
    MulNonneg(ks + MaxPoints - kt, b);
    Distrib(ks + MaxPoints, kt, b);
    Distrib(ks + MaxPoints, ks, b);
  }

  /**
   * Every timestamp of one request lands in one of at most 301 buckets: its key
   * lies between the key of the start and that key plus 300 widths.
   */
  lemma BucketsPerRequest(startMs: int, endMs: int, s: int, t: int)
    requires startMs <= s * 1000 <= t * 1000 <= endMs
    ensures var b := BucketWidth(RangeSec(startMs, endMs)).Floor;
      && b > 0
      && FloorKey(s, b) <= FloorKey(t, b) <= FloorKey(s, b) + MaxPoints * b
  {
    SpanFits(startMs, endMs, s, t);
    KeysWithin(s, t, BucketWidth(RangeSec(startMs, endMs)).Floor);
  }

  // ----- the statement -----

  /** `AVG(col) AS col`, the alias quoted like the column. */
  function AvgTerm(d: Dialect, c: string): string {
    "AVG(" + QCol(d, c) + ") AS " + QCol(d, c)
  }

  function AvgTerms(d: Dialect, cols: seq<string>): (ts: seq<string>)
    ensures |ts| == |cols|
    ensures forall i :: 0 <= i < |cols| ==> ts[i] == AvgTerm(d, cols[i])
  {
    seq(|cols|, i requires 0 <= i < |cols| => AvgTerm(d, cols[i]))
  }

  /** `avgCols`: the terms joined by ", ". */
  function AvgCols(d: Dialect, cols: seq<string>): string {
    Join(AvgTerms(d, cols), ", ")
  }

  lemma NoMarkInTerm(d: Dialect, c: string, x: char)
    requires x == '?' || x == ','
    requires x !in c
    ensures x !in AvgTerm(d, c)
  {
    QuotingKeeps(d, c, x);
    assert x !in "AVG(" && x !in ") AS ";
  }

  /**
   * The column list reads back, split at its commas, as one `AVG` term per
   * metric in the order given, each after the first behind one space.
   */
  lemma AvgColsSpec(d: Dialect, cols: seq<string>)
    requires |cols| >= 1
    requires forall i :: 0 <= i < |cols| ==> ',' !in cols[i]
    ensures var p := Split(AvgCols(d, cols), ',');
      && |p| == |cols| && p[0] == AvgTerm(d, cols[0])
      && forall i :: 1 <= i < |cols| ==> p[i] == " " + AvgTerm(d, cols[i])
  {
    var ts := AvgTerms(d, cols);
    JoinSepShift(ts, ',', " ");
    assert ", " == [','] + " ";
    var q := PrefixRest(ts, " ");
    forall i | 0 <= i < |q| ensures ',' !in q[i] {
      NoMarkInTerm(d, cols[i], ',');
    }
    SplitJoin(q, ',');
  }

  const Epoch: string := "'1970-01-01'"

  /** `DATEADD(second, (DATEDIFF(second, '1970-01-01', [timestamp]) / `, a bucket expression up to its first `?`. */
  const MsBucketOpen: string := "DATEADD(second, " + "(DATEDIFF(second, " + Epoch + ", [timestamp]) / "

  /**
   * The statement of each dialect as the `?`-free pieces between its
   * placeholders: the bucket expression (twice for SQL Server, in the SELECT
   * and the GROUP BY), the averages, the table, the `BETWEEN ? AND ?` of the
   * WHERE and the ascending order by bucket.
   */
  function SqlChunks(d: Dialect, t: string, cols: seq<string>): seq<string> {
    if d == MsSql then
      [ "\n        SELECT\n          " + MsBucketOpen,
        ") * ",
        ", " + Epoch + ") AS t,\n          " + AvgCols(d, cols) + "\n        FROM " + QTable(d, t)
          + "\n        WHERE [timestamp] BETWEEN ",
        " AND ",
        "\n        GROUP BY " + MsBucketOpen,
        ") * ",
        ", " + Epoch + ")" + "\n        ORDER BY t ASC\n      " ]
    else
      [ "\n        SELECT\n          " + "FROM_UNIXTIME(" + "FLOOR(UNIX_TIMESTAMP(`timestamp`)/",
        ")*",
        ") AS t,\n          " + AvgCols(d, cols) + "\n        FROM " + QTable(d, t)
          + "\n        WHERE `timestamp` BETWEEN ",
        " AND ",
        "\n        GROUP BY t" + "\n        ORDER BY t ASC\n      " ]
  }

  /** `sqlText`. */
  function SqlText(d: Dialect, t: string, cols: seq<string>): string {
    Join(SqlChunks(d, t, cols), "?")
  }

  /** `params`: the width for each bucket `?`, the two dates for the `BETWEEN`. */
  function ParamList(d: Dialect, b: real, startMs: int, endMs: int): seq<Value> {
    if d == MsSql then [Num(b), Num(b), Date(startMs), Date(endMs), Num(b), Num(b)]
    else [Num(b), Num(b), Date(startMs), Date(endMs)]
  }

  lemma NoMarkA()
    ensures '?' !in "\n        SELECT\n          " && '?' !in "DATEADD(second, " && '?' !in "(DATEDIFF(second, "
    ensures '?' !in Epoch && '?' !in ", [timestamp]) / " && '?' !in ") * " && '?' !in ", "
  {
  }

  lemma NoMarkB()
    ensures '?' !in ") AS t,\n          " && '?' !in "\n        FROM " && '?' !in "\n        WHERE [timestamp] BETWEEN "
    ensures '?' !in " AND " && '?' !in "\n        GROUP BY " && '?' !in ")"
  {
  }

  lemma NoMarkC()
    ensures '?' !in "\n        ORDER BY t ASC\n      " && '?' !in "FROM_UNIXTIME(" && '?' !in ")*" && '?' !in "\n        GROUP BY t"
  {
  }

  lemma NoMarkD()
    ensures '?' !in "FLOOR(UNIX_TIMESTAMP(`timestamp`)/"
  {
  }

  lemma NoMarkE()
    ensures '?' !in "\n        WHERE `timestamp` BETWEEN "
  {
  }

  lemma NoMarkInAvgCols(d: Dialect, cols: seq<string>)
    requires forall i :: 0 <= i < |cols| ==> '?' !in cols[i]
    ensures '?' !in AvgCols(d, cols)
  {
    forall i | 0 <= i < |cols| ensures '?' !in AvgTerms(d, cols)[i] {
      NoMarkInTerm(d, cols[i], '?');
    }
    NoMarkA();
    JoinWithout(AvgTerms(d, cols), ", ", '?');
  }

  /** The statement splits at its `?` back into its pieces: 6 placeholders for SQL Server, 4 for MySQL. */
  lemma SqlPlaceholders(d: Dialect, t: string, cols: seq<string>)
    requires '?' !in t
    requires forall i :: 0 <= i < |cols| ==> '?' !in cols[i]
    ensures Split(SqlText(d, t, cols), '?') == SqlChunks(d, t, cols)
    ensures Placeholders(SqlText(d, t, cols)) == if d == MsSql then 6 else 4
  {
    NoMarkA();
    NoMarkB();
    NoMarkC();
    NoMarkD();
    NoMarkE();
    NoMarkInAvgCols(d, cols);
    QuotingKeeps(d, t, '?');
    assert '?' !in "[]`" && '?' !in "dbo.";
    SplitJoin(SqlChunks(d, t, cols), '?');
  }

  lemma NoMarkInNames()
    ensures '?' !in "t500" && '?' !in "t700" && '?' !in "cod" && '?' !in "pH" && '?' !in "Temperature" && '?' !in "tss"
    ensures ',' !in "cod" && ',' !in "pH" && ',' !in "Temperature" && ',' !in "tss"
  {
  }

  // ----- the handler -----

  /** What the route sends to the database: `params` is None when a date is invalid (its NaN is not modelled). */
  datatype ChartQuery = ChartQuery(table: string, cols: seq<string>, bucketSec: Option<real>, sql: string, params: Option<seq<Value>>)

  function Query(d: Dialect, t: string, startMs: Option<int>, endMs: Option<int>): ChartQuery
    requires InTables(t)
  {
    var cols := TableCols(t).value;
    var b := BucketSec(startMs, endMs);
    ChartQuery(t, cols, b, SqlText(d, t, cols),
      if startMs.Some? && endMs.Some? then Some(ParamList(d, b.value, startMs.value, endMs.value)) else None)
  }

  /** The handler as written, where `TABLES[table].map` fails for an inherited key and the catch answers 500. */
  function HandleAsWritten(d: Dialect, table: Option<string>, start: Option<string>, end: Option<string>,
                           toDate: string -> Option<int>): Response<ChartQuery>
  {
    var t := ToLower(table.GetOr(""));
    if !InTablesAsWritten(t) then Fail(400, "invalid table")
    else if start.None? || start.value == "" || end.None? || end.value == "" then Fail(400, "start & end required (ISO)")
    else if !InTables(t) then Fail(500, "server error")
    else Ok(Query(d, t, toDate(start.value), toDate(end.value)))
  }

  /** The handler with the whitelist as an own-property test. */
  function Handle(d: Dialect, table: Option<string>, start: Option<string>, end: Option<string>,
                  toDate: string -> Option<int>): Response<ChartQuery>
  {
    var t := ToLower(table.GetOr(""));
    if !InTables(t) then Fail(400, "invalid table")
    else if start.None? || start.value == "" || end.None? || end.value == "" then Fail(400, "start & end required (ISO)")
    else Ok(Query(d, t, toDate(start.value), toDate(end.value)))
  }

  /**
   * An unknown table is a 400 before the dates are looked at, a missing or
   * empty start or end the other 400, and nothing else fails; an accepted
   * request is for t500 or t700 with that table's metrics.
   */
  lemma HandleSpec(d: Dialect, table: Option<string>, start: Option<string>, end: Option<string>, toDate: string -> Option<int>)
    ensures var r := Handle(d, table, start, end, toDate);
      && (r.Fail? ==> r.status == 400)
      && (r == Fail(400, "invalid table") <==> !(table.Some? && table.value in ["t700", "T700", "t500", "T500"]))
      && (r.Ok? <==> InTables(ToLower(table.GetOr(""))) && start.Some? && start.value != "" && end.Some? && end.value != "")
      && (r.Ok? ==> r.body.table in ["t500", "t700"] && r.body.cols == TableCols(r.body.table).value)
  {
    ChartTables(table.GetOr(""));
    if table.None? {
      assert ToLower("") == "";
    }
  }

  /** Off the two inherited names, the handler as written and the corrected one agree. */
  lemma AsWrittenAgrees(d: Dialect, table: Option<string>, start: Option<string>, end: Option<string>, toDate: string -> Option<int>)
    requires ToLower(table.GetOr("")) !in InheritedKeys
    ensures HandleAsWritten(d, table, start, end, toDate) == Handle(d, table, start, end, toDate)
  {
  }

  /** `?table=constructor` with a start and an end is a server error as written, an invalid table as intended. */
  lemma InheritedKeyAccepted(d: Dialect, start: string, end: string, toDate: string -> Option<int>)
    requires start != "" && end != ""
    ensures HandleAsWritten(d, Some("constructor"), Some(start), Some(end), toDate) == Fail(500, "server error")
    ensures Handle(d, Some("constructor"), Some(start), Some(end), toDate) == Fail(400, "invalid table")
  {
    assert ToLower("constructor") == "constructor";
  }

  /**
   * The list holds the two dates for the range (DateTime2 parameters) and, in
   * every other place, the width, which binds as an Int when it is whole.
   */
  lemma ParamListSpec(d: Dialect, b: real, startMs: int, endMs: int)
    requires IsInteger(b)
    ensures var ps := ParamList(d, b, startMs, endMs);
      && |ps| == (if d == MsSql then 6 else 4)
      && ps[2] == Date(startMs) && ps[3] == Date(endMs)
      && InferMsType(ps[2]) == DateTime2 && InferMsType(ps[3]) == DateTime2
      && forall i :: 0 <= i < |ps| && i != 2 && i != 3 ==> ps[i] == Num(b) && InferMsType(ps[i]) == Int
  {
  }

  /**
   * With both dates valid there is one bound value per placeholder, the
   * whole-number width for each bucket `?` and the two dates for the range.
   */
  lemma QueryParams(d: Dialect, t: string, startMs: Option<int>, endMs: Option<int>)
    requires InTables(t)
    ensures var q := Query(d, t, startMs, endMs);
      && (q.params.Some? <==> startMs.Some? && endMs.Some?)
      && (q.params.Some? ==>
            && q.params.value == ParamList(d, q.bucketSec.value, startMs.value, endMs.value)
            && IsInteger(q.bucketSec.value)
            && |q.params.value| == Placeholders(q.sql))
  {
    NoMarkInNames();
    SqlPlaceholders(d, t, TableCols(t).value);
    if startMs.Some? && endMs.Some? {
      BucketSecSpec(startMs.value, endMs.value);
      ParamListSpec(d, BucketWidth(RangeSec(startMs.value, endMs.value)), startMs.value, endMs.value);
    }
  }

  /** Six values are named p0 to p5, in order. */
  lemma NamedSix(ps: seq<Value>)
    requires |ps| == 6
    ensures Named(ps) == [NamedParam("p0", ps[0]), NamedParam("p1", ps[1]), NamedParam("p2", ps[2]),
                          NamedParam("p3", ps[3]), NamedParam("p4", ps[4]), NamedParam("p5", ps[5])]
  {
    FirstNames();
    var named := Named(ps);
    assert named == [named[0], named[1], named[2], named[3], named[4], named[5]];
  }

  /** For SQL Server the adapter names the six values @p0 to @p5, in the order of the placeholders. */
  lemma MsSqlNamed(t: string, startMs: int, endMs: int)
    requires InTables(t)
    ensures var q := Query(MsSql, t, Some(startMs), Some(endMs));
      var n := Num(q.bucketSec.value);
      PreparedParams(q.sql, q.params.value) == [NamedParam("p0", n), NamedParam("p1", n),
        NamedParam("p2", Date(startMs)), NamedParam("p3", Date(endMs)), NamedParam("p4", n), NamedParam("p5", n)]
  {
    var q := Query(MsSql, t, Some(startMs), Some(endMs));
    QueryParams(MsSql, t, Some(startMs), Some(endMs));
    var ps := q.params.value;
    ParamListSpec(MsSql, q.bucketSec.value, startMs, endMs);
    assert Placeholders(q.sql) == 6;
    ScalarArgs(ps, 6);
    assert ps[..6] == ps;
    NamedSix(ps);
  }
}
