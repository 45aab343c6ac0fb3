/**
 * The reading pills above the dashboard: the current value, and the change
 * against the reading 24 hours earlier as an arrow and a percentage.
 * `toFixed` rounding and NaN are not modelled: `round2` is the rounding and
 * `fixed1` the one-decimal text, both parameters.
 */
module MiniBar {

  import opened Wrappers

  /** `pctChange`: None when either reading is missing or the earlier one is zero. */
  function PctChange(now: Option<real>, past: Option<real>): Option<real> {
    if now.None? || past.None? || past.value == 0.0 then None
    else Some((now.value - past.value) / past.value * 100.0)
  }

  /**
   * A change exists exactly when both readings do and the earlier one is not
   * zero; applying it to the earlier reading gives back the current one.
   */
  lemma PctChangeSpec(now: Option<real>, past: Option<real>)
    ensures PctChange(now, past).None? <==> now.None? || past.None? || past.value == 0.0
    ensures PctChange(now, past).Some? ==>
      past.value + past.value * PctChange(now, past).value / 100.0 == now.value
  {
    if PctChange(now, past).Some? {
      var n, p := now.value, past.value;
      var q := (n - p) / p;
      assert q * p == n - p;
      assert PctChange(now, past).value / 100.0 == q;
    }
  }

  /** A rise over a positive reading is a non-negative change, an equal reading no change at all. */
  lemma PctChangeSign(now: real, past: real)
    requires past > 0.0
    ensures PctChange(Some(now), Some(past)).value >= 0.0 <==> now >= past
    ensures now == past ==> PctChange(Some(now), Some(past)).value == 0.0
  {
    var q := (now - past) / past;
    assert q * past == now - past;
    if now >= past {
      assert q >= 0.0;
    } else {
      assert q < 0.0;
    }
  }

  function Abs(x: real): real {
    if x >= 0.0 then x else -x
  }

  /** The change text: a dash without a change, else the arrow (up for a non-negative change) and the magnitude. */
  function ChangeText(pct: Option<real>, fixed1: real -> string): string {
    match pct
    case None => "—"
    case Some(p) => (if p >= 0.0 then "▲" else "▼") + " " + fixed1(Abs(p)) + "%"
  }

  /** Up exactly for a non-negative change; the shown number is never negative. */
  lemma ChangeTextSpec(pct: Option<real>, fixed1: real -> string)
    ensures pct.None? ==> ChangeText(pct, fixed1) == "—"
    ensures pct.Some? ==>
      && (ChangeText(pct, fixed1)[0] == '▲' <==> pct.value >= 0.0)
      && (ChangeText(pct, fixed1)[0] == '▼' <==> pct.value < 0.0)
      && ChangeText(pct, fixed1)[2..] == fixed1(Abs(pct.value)) + "%"
      && Abs(pct.value) >= 0.0
  {
  }

  /** What `fmt` shows: a dash or a number. */
  datatype Shown = Dash | Number(value: real)

  /** `fmt`: a dash for null and undefined, else the value rounded to two decimals. */
  function Fmt(v: Option<real>, round2: real -> real): Shown {
    if v.None? then Dash else Number(round2(v.value))
  }

  /**
   * A pill shows a dash for its reading exactly when the reading is missing,
   * and then its change is a dash too; two readings look alike exactly when
   * both are missing or both round to the same number.
   */
  lemma FmtSpec(v: Option<real>, w: Option<real>, past: Option<real>, round2: real -> real, fixed1: real -> string)
    ensures Fmt(v, round2) == Dash <==> v.None?
    ensures v.Some? ==> Fmt(v, round2) == Number(round2(v.value))
    ensures Fmt(v, round2) == Dash ==> ChangeText(PctChange(v, past), fixed1) == "—"
    ensures Fmt(v, round2) == Fmt(w, round2) <==>
      (v.None? && w.None?) || (v.Some? && w.Some? && round2(v.value) == round2(w.value))
  {
  }
}
