/**
 * The export page: the hour and minute choices of the time pickers, the
 * `HH:MM` text they edit, and the two export buttons, which order the picked
 * date range and build the parameters of the sensor and the task export
 * requests. A picked date is an instant, `local` gives its local calendar
 * fields; the URL encoding of the parameters is not modelled.
 */
module FileUp {

  import opened Wrappers
  import opened Strings
  import opened LocalTime
  import SensorExport
  import TasksExport

  /** `hours`: "00" to "23". */
  function Hours(): (hs: seq<string>)
    ensures |hs| == 24
  {
    seq(24, i requires 0 <= i < 24 => Pad2(i))
  }

  /** `minutes`: "00" to "59". */
  function Minutes(): (ms: seq<string>)
    ensures |ms| == 60
  {
    seq(60, i requires 0 <= i < 60 => Pad2(i))
  }

  /** Each choice is two digits that read back as its position, so no two choices are alike. */
  lemma ChoicesSpec(i: nat, j: nat)
    requires i < 60 && j < 60
    ensures |Minutes()[i]| == 2 && AllDigits(Minutes()[i]) && ParseNat(Minutes()[i]) == i
    ensures i < 24 ==> Hours()[i] == Minutes()[i]
    ensures i != j ==> Minutes()[i] != Minutes()[j]
  {
    Pad2Spec(i);
    Pad2Injective(i, j);
  }

  // ----- the time picker -----

  /** `const [hour, minute] = time.split(":")`; a missing minute is `undefined`. */
  function TimeParts(time: string): (string, Option<string>) {
    var p := Split(time, ':');
    (p[0], if |p| > 1 then Some(p[1]) else None)
  }

  /** A missing part in a template literal. */
  function PartText(p: Option<string>): string {
    if p.Some? then p.value else "undefined"
  }

  /** `updateTime(val, minute)` after a new hour is chosen. */
  function SetHour(time: string, h: string): string {
    h + ":" + PartText(TimeParts(time).1)
  }

  /** `updateTime(hour, val)` after a new minute is chosen. */
  function SetMinute(time: string, m: string): string {
    TimeParts(time).0 + ":" + m
  }

  /**
   * An `HH:MM` text splits into its two parts; choosing a new hour or minute
   * replaces that part and keeps the other, and choosing the same one gives
   * the text back.
   */
  lemma TimeRoundTrip(hh: string, mm: string, h: string, m: string)
    requires ':' !in hh && ':' !in mm
    ensures TimeParts(hh + ":" + mm) == (hh, Some(mm))
    ensures SetHour(hh + ":" + mm, h) == h + ":" + mm
    ensures SetMinute(hh + ":" + mm, m) == hh + ":" + m
    ensures SetHour(hh + ":" + mm, hh) == hh + ":" + mm && SetMinute(hh + ":" + mm, mm) == hh + ":" + mm
  {
    SplitWithout(mm, ':');
    SplitFirst(hh, ':', mm);
  }

  // ----- the export buttons -----

  /** `from < to ? from : to` and the other one. */
  function Ordered(a: int, b: int): (int, int) {
    (if a < b then a else b, if a < b then b else a)
  }

  /** The ordered range starts no later than it ends, holds the two picked dates and does not depend on which came first. */
  lemma OrderedSpec(a: int, b: int)
    ensures Ordered(a, b).0 <= Ordered(a, b).1
    ensures {Ordered(a, b).0, Ordered(a, b).1} == {a, b}
    ensures Ordered(a, b) == Ordered(b, a)
  {
  }

  /** `formatLocalDate`. */
  function FormatLocalDate(local: int -> Fields, t: int): string {
    FormatYMD(local(t))
  }

  /** The parameters of the sensor export request. */
  datatype SensorRequest = SensorRequest(table: string, start: string, end: string)

  /** `handleExport`: None when a date or the tank is missing (the alert), else the request. */
  function HandleExport(from: Option<int>, to: Option<int>, tank: Option<string>,
                        startTime: string, endTime: string, local: int -> Fields): Option<SensorRequest>
  {
    if from.None? || to.None? || tank.None? || tank.value == "" then None
    else
      var (a, b) := Ordered(from.value, to.value);
      Some(SensorRequest("t" + tank.value, FormatLocalDate(local, a) + " " + startTime + ":00",
                         FormatLocalDate(local, b) + " " + endTime + ":59"))
  }

  /**
   * Nothing is requested with a date or the tank missing; otherwise the table
   * is "t" and the tank, the start is the earlier date with the start time and
   * ":00", the end the later one with the end time and ":59", whichever date
   * was picked first.
   */
  lemma HandleExportSpec(from: Option<int>, to: Option<int>, tank: Option<string>,
                         startTime: string, endTime: string, local: int -> Fields)
    ensures HandleExport(from, to, tank, startTime, endTime, local).None? <==>
      from.None? || to.None? || tank.None? || tank.value == ""
    ensures HandleExport(from, to, tank, startTime, endTime, local) == HandleExport(to, from, tank, startTime, endTime, local)
    ensures HandleExport(from, to, tank, startTime, endTime, local).Some? ==>
      var r := HandleExport(from, to, tank, startTime, endTime, local).value;
      var (a, b) := Ordered(from.value, to.value);
      && a <= b
      && r.table == "t" + tank.value
      && r.start == FormatLocalDate(local, a) + " " + startTime + ":00"
      && r.end == FormatLocalDate(local, b) + " " + endTime + ":59"
  {
    if from.Some? && to.Some? {
      OrderedSpec(from.value, to.value);
    }
  }

  /** The two tank choices, "500" and "700", are requests the sensor export accepts. */
  lemma SensorRequestAccepted(from: int, to: int, tank: string, startTime: string, endTime: string, local: int -> Fields)
    requires tank in ["500", "700"]
    ensures var r := HandleExport(Some(from), Some(to), Some(tank), startTime, endTime, local).value;
      SensorExport.Params(Some(r.table), Some(r.start), Some(r.end)) == Ok((r.table, r.start, r.end))
  {
    var r := HandleExport(Some(from), Some(to), Some(tank), startTime, endTime, local).value;
    if tank == "500" {
      assert r.table == "t" + "500" == "t500";
    } else {
      assert r.table == "t" + "700" == "t700";
    }
    SensorExport.AcceptedTables(r.table);
    assert ToLower("t500") == "t500" && ToLower("t700") == "t700";
  }

  /** `handleExportTasks`: None when a date is missing, else the start and end dates. */
  function HandleExportTasks(from: Option<int>, to: Option<int>, local: int -> Fields): Option<(string, string)> {
    if from.None? || to.None? then None
    else
      var (a, b) := Ordered(from.value, to.value);
      Some((FormatLocalDate(local, a), FormatLocalDate(local, b)))
  }

  /**
   * The task export is requested exactly when both dates are picked, for the
   * same range whichever came first, and for dates in years 1000 to 9999 the
   * task export accepts it, with whole days from the earlier to the later date.
   */
  lemma TaskRequestAccepted(from: Option<int>, to: Option<int>, local: int -> Fields)
    ensures HandleExportTasks(from, to, local).None? <==> from.None? || to.None?
    ensures HandleExportTasks(from, to, local) == HandleExportTasks(to, from, local)
    ensures (&& from.Some? && to.Some? && ValidFields(local(from.value)) && ValidFields(local(to.value))
             && 1000 <= local(from.value).year <= 9999 && 1000 <= local(to.value).year <= 9999) ==>
      var (s, e) := HandleExportTasks(from, to, local).value;
      TasksExport.Bounds(Some(s), Some(e)) == Ok((s + " 00:00:00", e + " 23:59:59"))
  {
    if from.Some? && to.Some? {
      OrderedSpec(from.value, to.value);
      var f, g := local(from.value), local(to.value);
      if ValidFields(f) && ValidFields(g) && 1000 <= f.year <= 9999 && 1000 <= g.year <= 9999 {
        FormatYMDSpec(f);
        FormatYMDSpec(g);
      }
    }
  }
}
