/**
 * The chart page: the metrics of each tank, the preset time ranges and the
 * start and end they give, the local date texts for the picker and for the
 * series request, the shared y-axis unit and the points of each series.
 * The clock is the parameter `now`, the browser's local calendar fields are
 * `LocalTime.Fields`.
 */
module ChartPage {

  import opened Wrappers
  import opened Strings
  import opened LocalTime
  import TasksRoute
  import ChartpageRoute

  /** `METRICS`: the series of each tank, in order. */
  function Metrics(tank: string): seq<string> {
    if tank == "t500" then ["cod", "tss"] else ["cod", "pH", "Temperature", "tss"]
  }

  /** The page asks for exactly the columns the chart route averages for that table. */
  lemma MetricsMatchRoute(tank: string)
    requires tank in ["t500", "t700"]
    ensures ChartpageRoute.TableCols(tank) == Some(Metrics(tank))
  {
  }

  // ----- the time range -----

  /** The preset ranges, in minutes. */
  const Presets: map<string, int> := map["30m" := 30, "60m" := 60, "6h" := 360, "12h" := 720, "24h" := 1440, "3d" := 4320, "7d" := 10080]

  /** `map[range] ?? 60`. */
  function PresetMinutes(range: string): int {
    if range in Presets then Presets[range] else 60
  }

  /** Each preset's length, the one-hour default for anything else, and always between 30 minutes and 7 days. */
  lemma PresetMinutesSpec(range: string)
    ensures PresetMinutes("30m") == 30 && PresetMinutes("60m") == 60 && PresetMinutes("6h") == 6 * 60
    ensures PresetMinutes("12h") == 12 * 60 && PresetMinutes("24h") == 24 * 60
    ensures PresetMinutes("3d") == 3 * 24 * 60 && PresetMinutes("7d") == 7 * 24 * 60
    ensures range !in ["30m", "60m", "6h", "12h", "24h", "3d", "7d"] ==> PresetMinutes(range) == 60
    ensures 30 <= PresetMinutes(range) <= 7 * 24 * 60
  {
  }

  /** The start and end instants the range effect sets. */
  datatype Span = Span(start: int, end: int)

  function RangeSpan(useCustom: bool, customStart: int, customEnd: int, range: string, now: int): Span {
    if useCustom then Span(customStart, customEnd)
    else Span(now - PresetMinutes(range) * 60 * 1000, now)
  }

  /** A preset ends now and lasts its minutes; a custom range is taken as picked. */
  lemma RangeSpanSpec(useCustom: bool, customStart: int, customEnd: int, range: string, now: int)
    ensures var s := RangeSpan(useCustom, customStart, customEnd, range, now);
      && (useCustom ==> s == Span(customStart, customEnd))
      && (!useCustom ==> s.end == now && s.end - s.start == PresetMinutes(range) * 60 * 1000 && s.start < s.end)
  {
    PresetMinutesSpec(range);
  }

  // ----- date texts -----

  /** `formatLocalDatetime`: `YYYY-MM-DDTHH:MM`, the value of a datetime-local input. */
  function FormatLocalDatetime(f: Fields): string {
    FormatYMD(f) + "T" + Pad2(f.hour) + ":" + Pad2(f.minute)
  }

  /** The `fmt` of `fetchSeries`: `YYYY-MM-DD HH:MM:SS`. */
  function SeriesTime(f: Fields): string {
    FormatYMD(f) + " " + Pad2(f.hour) + ":" + Pad2(f.minute) + ":" + Pad2(f.second)
  }

  /** For a four-digit year the picker text has its fixed shape and each time field reads back. */
  lemma FormatLocalDatetimeSpec(f: Fields)
    requires ValidFields(f) && 1000 <= f.year <= 9999
    ensures var s := FormatLocalDatetime(f);
      && |s| == 16 && s[..10] == FormatYMD(f) && s[10] == 'T' && s[13] == ':'
      && ParseNat(s[11..13]) == f.hour && ParseNat(s[14..16]) == f.minute
  {
    FormatYMDSpec(f);
    Pad2Spec(f.hour);
    Pad2Spec(f.minute);
    var d, h, m := FormatYMD(f), Pad2(f.hour), Pad2(f.minute);
    var s := FormatLocalDatetime(f);
    assert s == d + "T" + h + ":" + m;
    assert |d| == 10 && |h| == 2 && |m| == 2;
    assert s[..10] == d;
    assert s[11..13] == h;
    assert s[14..16] == m;
  }

  /** A date text and three two-digit fields make a DATETIME literal from which each part reads back. */
  lemma DateTimeText(y: string, h: string, m: string, sec: string)
    requires |y| == 10 && y[4] == '-' && y[7] == '-' && AllDigits(y[..4]) && AllDigits(y[5..7]) && AllDigits(y[8..])
    requires |h| == 2 && |m| == 2 && |sec| == 2 && AllDigits(h) && AllDigits(m) && AllDigits(sec)
    ensures var s := y + " " + h + ":" + m + ":" + sec;
      && TasksRoute.IsSqlDateTime(s) && s[..10] == y && s[11..13] == h && s[14..16] == m && s[17..19] == sec
  {
    var s := y + " " + h + ":" + m + ":" + sec;
    assert s[..10] == y;
    assert s[11..13] == h;
    assert s[14..16] == m;
    assert s[17..19] == sec;
    assert forall i :: 0 <= i < 4 ==> s[i] == y[..4][i];
    assert forall i :: 5 <= i < 7 ==> s[i] == y[5..7][i - 5];
    assert forall i :: 8 <= i < 10 ==> s[i] == y[8..][i - 8];
    assert forall i :: 11 <= i < 13 ==> s[i] == h[i - 11];
    assert forall i :: 14 <= i < 16 ==> s[i] == m[i - 14];
    assert forall i :: 17 <= i < 19 ==> s[i] == sec[i - 17];
  }

  /**
   * For a four-digit year the series bound is a DATETIME literal whose date is
   * the local date and whose time fields read back.
   */
  lemma SeriesTimeSpec(f: Fields)
    requires ValidFields(f) && 1000 <= f.year <= 9999
    ensures var s := SeriesTime(f);
      && TasksRoute.IsSqlDateTime(s) && s[..10] == FormatYMD(f)
      && ParseNat(s[11..13]) == f.hour && ParseNat(s[14..16]) == f.minute && ParseNat(s[17..19]) == f.second
  {
    FormatYMDSpec(f);
    Pad2Spec(f.hour);
    Pad2Spec(f.minute);
    Pad2Spec(f.second);
    DateTimeText(FormatYMD(f), Pad2(f.hour), Pad2(f.minute), Pad2(f.second));
  }

  // ----- units and series -----

  /** `UNIT[k] ?? ""`. */
  function Unit(k: string): string {
    if k == "cod" || k == "tss" then "mg/L"
    else if k == "Temperature" then "°C"
    else ""
  }

  function Units(cols: seq<string>): set<string> {
    set i | 0 <= i < |cols| :: Unit(cols[i])
  }

  /** `yUnit`: the unit every series shares, or nothing. */
  function YUnit(cols: seq<string>): string {
    if |Units(cols)| == 1 then Unit(cols[0]) else ""
  }

  lemma TwoElements(s: set<string>, a: string, b: string)
    requires a in s && b in s && a != b
    ensures |s| >= 2
  {
    assert {a, b} <= s;
    assert |{a, b}| == 2;
    SubsetCard({a, b}, s);
  }

  lemma {:induction false} SubsetCard(a: set<string>, b: set<string>)
    requires a <= b
    ensures |a| <= |b|
    decreases |a|
  {
    if a != {} {
      var x :| x in a;
      SubsetCard(a - {x}, b - {x});
    }
  }

  /**
   * The axis shows a unit exactly when all series share it, and then it is
   * that unit: "mg/L" for T-500, none for T-700.
   */
  lemma YUnitSpec(cols: seq<string>)
    requires |cols| > 0
    ensures (forall i :: 0 <= i < |cols| ==> Unit(cols[i]) == Unit(cols[0])) ==> YUnit(cols) == Unit(cols[0])
    ensures (exists i :: 0 <= i < |cols| && Unit(cols[i]) != Unit(cols[0])) ==> YUnit(cols) == ""
    ensures YUnit(Metrics("t500")) == "mg/L" && YUnit(Metrics("t700")) == ""
  {
    if forall i :: 0 <= i < |cols| ==> Unit(cols[i]) == Unit(cols[0]) {
      assert Units(cols) == {Unit(cols[0])};
    } else {
      var i :| 0 <= i < |cols| && Unit(cols[i]) != Unit(cols[0]);
      TwoElements(Units(cols), Unit(cols[i]), Unit(cols[0]));
    }
    var c5 := Metrics("t500");
    assert Units(c5) == {"mg/L"} by {
      assert Unit(c5[0]) == "mg/L" && Unit(c5[1]) == "mg/L";
    }
    var c7 := Metrics("t700");
    assert Unit(c7[1]) == "" && Unit(c7[0]) == "mg/L";
    TwoElements(Units(c7), Unit(c7[1]), Unit(c7[0]));
  }

  /** A bucket row of the chart route: its time and the averages it has, by column. */
  datatype Row = Row(t: string, values: map<string, real>)

  /** `[r.t, r[k] ?? null]`. */
  datatype Point = Point(t: string, value: Option<real>)

  function SeriesData(rows: seq<Row>, k: string): seq<Point> {
    seq(|rows|, i requires 0 <= i < |rows| => Point(rows[i].t, if k in rows[i].values then Some(rows[i].values[k]) else None))
  }

  /**
   * One point per row, in row order, holding the row's time and its value for
   * the series or null. Every series shares the rows' time axis, and a series
   * is all null exactly when no row has its column.
   */
  lemma SeriesDataSpec(rows: seq<Row>, k: string, k2: string)
    ensures |SeriesData(rows, k)| == |rows|
    ensures forall i :: 0 <= i < |rows| ==>
      && SeriesData(rows, k)[i].t == rows[i].t == SeriesData(rows, k2)[i].t
      && (SeriesData(rows, k)[i].value.Some? <==> k in rows[i].values)
      && (k in rows[i].values ==> SeriesData(rows, k)[i].value.value == rows[i].values[k])
    ensures (forall i :: 0 <= i < |rows| ==> SeriesData(rows, k)[i].value.None?)
        <==> (forall i :: 0 <= i < |rows| ==> k !in rows[i].values)
  {
  }

  /** The series of two batches of rows is the series of the first followed by that of the second. */
  lemma SeriesDataAppend(a: seq<Row>, b: seq<Row>, k: string)
    ensures SeriesData(a + b, k) == SeriesData(a, k) + SeriesData(b, k)
  {
    var l, r := SeriesData(a + b, k), SeriesData(a, k) + SeriesData(b, k);
    assert |l| == |r|;
    forall i | 0 <= i < |l| ensures l[i] == r[i] {
      if i < |a| {
        assert (a + b)[i] == a[i];
      } else {
        assert (a + b)[i] == b[i - |a|];
      }
    }
  }
}
