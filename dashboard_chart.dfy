/**
 * The dashboard's two line charts: each JSON row normalised into a point
 * (numbers coerced as `Number` does, with the `ph` and `temp` spellings as
 * fallbacks), the rows split by tank, the latest reading time, the chart
 * width, the series labels and which metric lines are drawn.
 * `Number` of a string is the parameter `parse`; `new Date(x).getTime()` is
 * the parameter `time` (None when not finite).
 */
module DashboardChart {

  import opened Wrappers
  import TasksRoute

  type Json = TasksRoute.Json

  datatype Source = T700 | T500

  /** A JavaScript number: finite, or NaN or an infinity. */
  datatype JsNumber = Finite(value: real) | NonFinite

  /** `Number(x)` of a property of a JSON row, None being `undefined`. */
  function ToNumber(x: Option<Json>, parse: string -> JsNumber): JsNumber {
    match x
    case None => NonFinite
    case Some(j) =>
      match j
      case JNull => Finite(0.0)
      case JBool(b) => Finite(if b then 1.0 else 0.0)
      case JNum(n) => Finite(n)
      case JStr(s) => parse(s)
      case JArray(_) => NonFinite
      case JObject(_) => NonFinite
  }

  /** `toNum`: the number when it is finite, else null. */
  function ToNum(x: Option<Json>, parse: string -> JsNumber): Option<real> {
    match ToNumber(x, parse)
    case Finite(n) => Some(n)
    case NonFinite => None
  }

  /** Null exactly for a non-finite `Number(x)`; an absent property is null, but a null one becomes 0. */
  lemma ToNumSpec(x: Option<Json>, parse: string -> JsNumber)
    ensures ToNum(x, parse).None? <==> ToNumber(x, parse).NonFinite?
    ensures ToNum(x, parse).Some? ==> ToNumber(x, parse) == Finite(ToNum(x, parse).value)
    ensures ToNum(None, parse) == None
    ensures ToNum(Some(TasksRoute.JNull), parse) == Some(0.0)
  {
  }

  /** A normalised reading. */
  datatype Point = Point(timestamp: Option<Json>, source: Source,
                         cod: Option<real>, tss: Option<real>, pH: Option<real>, temperature: Option<real>)

  function Prop(d: map<string, Json>, k: string): Option<Json> {
    if k in d then Some(d[k]) else None
  }

  /** `a ?? b`. */
  function Coalesce(a: Option<Json>, b: Option<Json>): Option<Json> {
    if a.None? || a == Some(TasksRoute.JNull) then b else a
  }

  /** `norm` of a row after `{...d, source}` set its tank. */
  function Norm(d: map<string, Json>, src: Source, parse: string -> JsNumber): Point {
    Point(Prop(d, "timestamp"), src, ToNum(Prop(d, "cod"), parse), ToNum(Prop(d, "tss"), parse),
          ToNum(Coalesce(Prop(d, "pH"), Prop(d, "ph")), parse),
          ToNum(Coalesce(Prop(d, "temperature"), Prop(d, "temp")), parse))
  }

  /** pH comes from `pH` unless that is absent or null, and then from `ph`; the temperature likewise from `temperature`, then `temp`. */
  lemma NormSpec(d: map<string, Json>, src: Source, parse: string -> JsNumber)
    ensures var p := Norm(d, src, parse);
      && p.source == src && p.timestamp == Prop(d, "timestamp")
      && ("pH" in d && d["pH"] != TasksRoute.JNull ==> p.pH == ToNum(Some(d["pH"]), parse))
      && (("pH" !in d || d["pH"] == TasksRoute.JNull) ==> p.pH == ToNum(Prop(d, "ph"), parse))
      && ("temperature" in d && d["temperature"] != TasksRoute.JNull ==> p.temperature == ToNum(Some(d["temperature"]), parse))
      && (("temperature" !in d || d["temperature"] == TasksRoute.JNull) ==> p.temperature == ToNum(Prop(d, "temp"), parse))
  {
  }

  /** The rows of both tanks, T-700 first, each normalised. */
  function Load(t700: seq<map<string, Json>>, t500: seq<map<string, Json>>, parse: string -> JsNumber): (rows: seq<Point>)
    ensures |rows| == |t700| + |t500|
  {
    seq(|t700|, i requires 0 <= i < |t700| => Norm(t700[i], T700, parse))
    + seq(|t500|, i requires 0 <= i < |t500| => Norm(t500[i], T500, parse))
  }

  // ----- by tank -----

  /** `rows.filter(r => r.source === src)`. */
  function BySource(rows: seq<Point>, src: Source): (r: seq<Point>)
    ensures forall x :: x in r <==> x in rows && x.source == src
  {
    if rows == [] then []
    else
      var rest := BySource(rows[1..], src);
      assert forall x :: x in rows <==> x == rows[0] || x in rows[1..];
      if rows[0].source == src then [rows[0]] + rest else rest
  }

  lemma {:induction false} BySourceAppend(a: seq<Point>, b: seq<Point>, src: Source)
    ensures BySource(a + b, src) == BySource(a, src) + BySource(b, src)
    decreases |a|
  {
    if a != [] {
      assert (a + b)[1..] == a[1..] + b;
      BySourceAppend(a[1..], b, src);
    } else {
      assert a + b == b;
    }
  }

  /** The two lists split the rows: every row is in exactly one, as often as in the input. */
  lemma {:induction false} BySourcePartition(rows: seq<Point>)
    ensures multiset(BySource(rows, T700)) + multiset(BySource(rows, T500)) == multiset(rows)
    decreases |rows|
  {
    if rows != [] {
      BySourcePartition(rows[1..]);
      assert rows == [rows[0]] + rows[1..];
    }
  }

  lemma {:induction false} BySourceAll(rows: seq<Point>, src: Source)
    requires forall i :: 0 <= i < |rows| ==> rows[i].source == src
    ensures BySource(rows, src) == rows
    decreases |rows|
  {
    if rows != [] {
      BySourceAll(rows[1..], src);
      assert rows == [rows[0]] + rows[1..];
    }
  }

  lemma {:induction false} BySourceNone(rows: seq<Point>, src: Source)
    requires forall i :: 0 <= i < |rows| ==> rows[i].source != src
    ensures BySource(rows, src) == []
    decreases |rows|
  {
    if rows != [] {
      BySourceNone(rows[1..], src);
    }
  }

  /** Each chart gets exactly its own tank's rows, in the order the API sent them. */
  lemma LoadBySource(t700: seq<map<string, Json>>, t500: seq<map<string, Json>>, parse: string -> JsNumber)
    ensures BySource(Load(t700, t500, parse), T700) == seq(|t700|, i requires 0 <= i < |t700| => Norm(t700[i], T700, parse))
    ensures BySource(Load(t700, t500, parse), T500) == seq(|t500|, i requires 0 <= i < |t500| => Norm(t500[i], T500, parse))
  {
    var a := seq(|t700|, i requires 0 <= i < |t700| => Norm(t700[i], T700, parse));
    var b := seq(|t500|, i requires 0 <= i < |t500| => Norm(t500[i], T500, parse));
    BySourceAppend(a, b, T700);
    BySourceAppend(a, b, T500);
    BySourceAll(a, T700);
    BySourceAll(b, T500);
    BySourceNone(a, T500);
    BySourceNone(b, T700);
    assert a + [] == a;
    assert [] + b == b;
  }

  // ----- latest reading -----

  function Step(acc: int, t: Option<int>): int {
    if t.Some? && t.value > acc then t.value else acc
  }

  /** The `reduce` from 0 that keeps the largest finite time. */
  function MaxTime(list: seq<Point>, time: Option<Json> -> Option<int>): int {
    if list == [] then 0
    else Step(MaxTime(list[..|list| - 1], time), time(list[|list| - 1].timestamp))
  }

  /** `latestDate`: null for no rows or when the largest time is 0. */
  function LatestDate(list: seq<Point>, time: Option<Json> -> Option<int>): Option<int> {
    if list == [] then None
    else var m := MaxTime(list, time); if m == 0 then None else Some(m)
  }

  /** The fold is 0 or one of the times, and no finite time exceeds it. */
  lemma {:induction false} MaxTimeSpec(list: seq<Point>, time: Option<Json> -> Option<int>)
    ensures MaxTime(list, time) >= 0
    ensures forall i :: 0 <= i < |list| && time(list[i].timestamp).Some? ==> time(list[i].timestamp).value <= MaxTime(list, time)
    ensures MaxTime(list, time) == 0 || exists i :: 0 <= i < |list| && time(list[i].timestamp) == Some(MaxTime(list, time))
    decreases |list|
  {
    if list != [] {
      var init := list[..|list| - 1];
      MaxTimeSpec(init, time);
      assert forall i :: 0 <= i < |init| ==> init[i] == list[i];
    }
  }

  /**
   * The latest reading is the largest finite time of the rows, provided it
   * is after the epoch; there is none for no rows, or when no time is.
   */
  lemma LatestDateSpec(list: seq<Point>, time: Option<Json> -> Option<int>)
    ensures list == [] ==> LatestDate(list, time) == None
    ensures LatestDate(list, time).Some? ==>
      && LatestDate(list, time).value > 0
      && (exists i :: 0 <= i < |list| && time(list[i].timestamp) == LatestDate(list, time))
      && forall i :: 0 <= i < |list| && time(list[i].timestamp).Some? ==> time(list[i].timestamp).value <= LatestDate(list, time).value
    ensures LatestDate(list, time).None? <==>
      forall i :: 0 <= i < |list| && time(list[i].timestamp).Some? ==> time(list[i].timestamp).value <= 0
  {
    MaxTimeSpec(list, time);
  }

  // ----- layout and labels -----

  /** `Math.max(data.length * 60, 320)`. */
  function ChartWidth(n: nat): int {
    if n * 60 >= 320 then n * 60 else 320
  }

  /** 60 pixels per point, never narrower than 320. */
  lemma ChartWidthSpec(n: nat)
    ensures ChartWidth(n) >= 320 && ChartWidth(n) >= 60 * n
    ensures n >= 6 ==> ChartWidth(n) == 60 * n
    ensures n <= 5 ==> ChartWidth(n) == 320
  {
  }

  /** `SERIES`: the key and the legend name of each metric line. */
  const Series: seq<(string, string)> := [("cod", "COD"), ("tss", "TSS"), ("pH", "pH"), ("temperature", "Suhu")]

  function FindLabel(s: seq<(string, string)>, name: string): Option<string> {
    if s == [] then None else if s[0].1 == name then Some(s[0].0) else FindLabel(s[1..], name)
  }

  /** `keyFromLabel`: the key of the first series with that name. */
  function KeyFromLabel(name: string): Option<string> {
    FindLabel(Series, name)
  }

  /** `labelFor`. */
  function LabelFor(k: string): string {
    if k == "cod" then "COD" else if k == "tss" then "TSS" else if k == "pH" then "pH"
    else if k == "temperature" then "Suhu" else k
  }

  /**
   * The name of each series gives back its key, the other labels no key, and
   * whenever a key is found its name is the one looked up.
   */
  lemma LabelsRoundTrip(name: string)
    ensures forall i :: 0 <= i < |Series| ==> KeyFromLabel(Series[i].1) == Some(Series[i].0) && LabelFor(Series[i].0) == Series[i].1
    ensures KeyFromLabel(name).None? <==> name !in ["COD", "TSS", "pH", "Suhu"]
    ensures KeyFromLabel(name).Some? ==> LabelFor(KeyFromLabel(name).value) == name
  {
    var s1: seq<(string, string)> := [("tss", "TSS"), ("pH", "pH"), ("temperature", "Suhu")];
    var s2: seq<(string, string)> := [("pH", "pH"), ("temperature", "Suhu")];
    var s3: seq<(string, string)> := [("temperature", "Suhu")];
    assert Series[1..] == s1 && s1[1..] == s2 && s2[1..] == s3 && s3[1..] == [];
    assert FindLabel(s3, name) == if name == "Suhu" then Some("temperature") else None;
    assert FindLabel(s2, name) == if name == "pH" then Some("pH") else FindLabel(s3, name);
    assert FindLabel(s1, name) == if name == "TSS" then Some("tss") else FindLabel(s2, name);
    assert KeyFromLabel(name) == if name == "COD" then Some("cod") else FindLabel(s1, name);
    forall i | 0 <= i < |Series|
      ensures KeyFromLabel(Series[i].1) == Some(Series[i].0) && LabelFor(Series[i].0) == Series[i].1
    {
      var n := Series[i].1;
      assert FindLabel(s3, n) == if n == "Suhu" then Some("temperature") else None;
      assert FindLabel(s2, n) == if n == "pH" then Some("pH") else FindLabel(s3, n);
      assert FindLabel(s1, n) == if n == "TSS" then Some("tss") else FindLabel(s2, n);
      assert KeyFromLabel(n) == if n == "COD" then Some("cod") else FindLabel(s1, n);
    }
  }

  /** `UNIT`: the unit of each series key. */
  function Unit(k: string): Option<string> {
    if k == "cod" || k == "tss" then Some("mg/L") else if k == "pH" then Some("")
    else if k == "temperature" then Some("°C") else None
  }

  /** The tooltip's unit for a line's name: `UNIT[keyFromLabel(name) ?? ''] ?? ''`. */
  function TooltipUnit(name: string): string {
    Unit(KeyFromLabel(name).GetOr("")).GetOr("")
  }

  /** The tooltip shows each line's unit, "°C" for the line named "Suhu", and none for any other name. */
  lemma TooltipUnitSpec(name: string)
    ensures TooltipUnit("COD") == "mg/L" && TooltipUnit("TSS") == "mg/L"
    ensures TooltipUnit("pH") == "" && TooltipUnit("Suhu") == "°C"
    ensures name !in ["COD", "TSS", "pH", "Suhu"] ==> TooltipUnit(name) == ""
  {
    LabelsRoundTrip(name);
    LabelsRoundTrip("COD");
    LabelsRoundTrip("TSS");
    LabelsRoundTrip("pH");
    LabelsRoundTrip("Suhu");
    assert Series[0] == ("cod", "COD") && Series[1] == ("tss", "TSS");
    assert Series[2] == ("pH", "pH") && Series[3] == ("temperature", "Suhu");
  }

  // ----- which lines are drawn -----

  function Value(p: Point, k: string): Option<real> {
    if k == "cod" then p.cod else if k == "tss" then p.tss else if k == "pH" then p.pH
    else if k == "temperature" then p.temperature else None
  }

  /** A normalised value as JSON: null or a number. */
  function AsJson(v: Option<real>): Json {
    if v.Some? then TasksRoute.JNum(v.value) else TasksRoute.JNull
  }

  /** `isFiniteNum(d[key])` as written: `Number(null)` is 0, so null passes. */
  predicate IsFiniteNumAsWritten(v: Option<real>, parse: string -> JsNumber) {
    ToNumber(Some(AsJson(v)), parse).Finite?
  }

  predicate LineDrawnAsWritten(data: seq<Point>, k: string, parse: string -> JsNumber) {
    exists i :: 0 <= i < |data| && IsFiniteNumAsWritten(Value(data[i], k), parse)
  }

  /** As written every line is drawn whenever the chart has any row, even a metric that no row has. */
  lemma EveryLineDrawn(data: seq<Point>, k: string, parse: string -> JsNumber)
    ensures LineDrawnAsWritten(data, k, parse) <==> data != []
  {
    if data != [] {
      assert IsFiniteNumAsWritten(Value(data[0], k), parse);
    }
  }

  /** A T-500 row carries no pH, yet the pH line is drawn for it. */
  lemma PhLineWithoutPh(parse: string -> JsNumber)
    ensures var p := Norm(map["cod" := TasksRoute.JNum(12.0), "tss" := TasksRoute.JNum(3.0)], T500, parse);
      p.pH == None && LineDrawnAsWritten([p], "pH", parse)
  {
    var p := Norm(map["cod" := TasksRoute.JNum(12.0), "tss" := TasksRoute.JNum(3.0)], T500, parse);
    assert IsFiniteNumAsWritten(Value([p][0], "pH"), parse);
  }

  /** The test evidently meant: a value that is a number. */
  predicate IsFiniteNum(v: Option<real>) {
    v.Some?
  }

  predicate LineDrawn(data: seq<Point>, k: string) {
    exists i :: 0 <= i < |data| && IsFiniteNum(Value(data[i], k))
  }

  /**
   * A line is drawn exactly when some row has a value for it, so a tank's
   * absent metrics get none: the T-500 row of `PhLineWithoutPh` draws COD but
   * no pH line.
   */
  lemma LineDrawnSpec(data: seq<Point>, k: string, parse: string -> JsNumber)
    ensures LineDrawn(data, k) <==> exists i :: 0 <= i < |data| && Value(data[i], k).Some?
    ensures (forall i :: 0 <= i < |data| ==> data[i].pH.None?) ==> !LineDrawn(data, "pH")
    ensures (forall i :: 0 <= i < |data| ==> data[i].temperature.None?) ==> !LineDrawn(data, "temperature")
    ensures var p := Norm(map["cod" := TasksRoute.JNum(12.0), "tss" := TasksRoute.JNum(3.0)], T500, parse);
      !LineDrawn([p], "pH") && !LineDrawn([p], "temperature") && LineDrawn([p], "cod")
  {
    var p := Norm(map["cod" := TasksRoute.JNum(12.0), "tss" := TasksRoute.JNum(3.0)], T500, parse);
    assert Value([p][0], "cod").Some?;
  }
}
