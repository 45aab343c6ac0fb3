/**
 * The colour of a dashboard card: a severity between 0 (green, good) and 1
 * (red, bad) computed from the reading by a rule the card's title selects,
 * and the HSL hue that falls from 120 to 0 as the severity rises. Readings
 * are reals; NaN and the formatting of the hue into text are not modelled.
 */
module Card {

  function Min(a: real, b: real): real {
    if a <= b then a else b
  }

  function Max(a: real, b: real): real {
    if a >= b then a else b
  }

  /** `clamp(v, min, max)`. */
  function Clamp(v: real, lo: real, hi: real): real {
    Min(Max(v, lo), hi)
  }

  /** Within a non-empty interval the clamp lies in it, keeps what is inside and is monotone. */
  lemma ClampSpec(v: real, w: real, lo: real, hi: real)
    requires lo <= hi
    ensures lo <= Clamp(v, lo, hi) <= hi
    ensures lo <= v <= hi ==> Clamp(v, lo, hi) == v
    ensures v <= lo ==> Clamp(v, lo, hi) == lo
    ensures v >= hi ==> Clamp(v, lo, hi) == hi
    ensures v <= w ==> Clamp(v, lo, hi) <= Clamp(w, lo, hi)
  {
  }

  /** A rule that grows with the reading: 0 at `lo`, 1 at `hi`, linear between. */
  function Linear(v: real, lo: real, hi: real): real
    requires lo < hi
  {
    Clamp((v - lo) / (hi - lo), 0.0, 1.0)
  }

  /** A rule with an ideal band: 0 inside it, rising to 1 at `hardMin` below and at `hardMax` above. */
  function TwoSided(v: real, hardMin: real, idealLow: real, idealHigh: real, hardMax: real): real
    requires hardMin < idealLow <= idealHigh < hardMax
  {
    if idealLow <= v <= idealHigh then 0.0
    else if v < idealLow then Clamp((idealLow - v) / (idealLow - hardMin), 0.0, 1.0)
    else Clamp((v - idealHigh) / (hardMax - idealHigh), 0.0, 1.0)
  }

  /** `getSeverityPercent`, as written: the switch on the title. */
  function SeverityPercent(title: string, v: real): real {
    if title == "COD" then Linear(v, 0.0, 100.0)
    else if title == "TSS" then Linear(v, 0.0, 50.0)
    else if title == "Temperature" then TwoSided(v, 10.0, 20.0, 30.0, 40.0)
    else if title == "pH" then TwoSided(v, 6.0, 7.0, 8.0, 9.0)
    else Linear(v, 0.0, 100.0)
  }

  /** Every title and reading gives a severity between 0 and 1. */
  lemma SeverityRange(title: string, v: real)
    ensures 0.0 <= SeverityPercent(title, v) <= 1.0
  {
  }

  /** COD rises linearly from 0 at 0 to 1 at 100 and never falls as the reading rises. */
  lemma CodRule(v: real, w: real)
    ensures 0.0 <= v <= 100.0 ==> SeverityPercent("COD", v) == v / 100.0
    ensures v <= 0.0 ==> SeverityPercent("COD", v) == 0.0
    ensures v >= 100.0 ==> SeverityPercent("COD", v) == 1.0
    ensures v <= w ==> SeverityPercent("COD", v) <= SeverityPercent("COD", w)
  {
    ClampSpec(v / 100.0, w / 100.0, 0.0, 1.0);
  }

  /** TSS does the same over 0 to 50. */
  lemma TssRule(v: real, w: real)
    ensures 0.0 <= v <= 50.0 ==> SeverityPercent("TSS", v) == v / 50.0
    ensures v <= 0.0 ==> SeverityPercent("TSS", v) == 0.0
    ensures v >= 50.0 ==> SeverityPercent("TSS", v) == 1.0
    ensures v <= w ==> SeverityPercent("TSS", v) <= SeverityPercent("TSS", w)
  {
    ClampSpec(v / 50.0, w / 50.0, 0.0, 1.0);
  }

  /** pH is green on 7 to 8, fully red at 6 or below and 9 or above, and worsens away from the band. */
  lemma PhRule(v: real, w: real)
    ensures 7.0 <= v <= 8.0 ==> SeverityPercent("pH", v) == 0.0
    ensures v <= 6.0 || v >= 9.0 ==> SeverityPercent("pH", v) == 1.0
    ensures v <= w <= 7.0 ==> SeverityPercent("pH", v) >= SeverityPercent("pH", w)
    ensures 8.0 <= v <= w ==> SeverityPercent("pH", v) <= SeverityPercent("pH", w)
  {
    ClampSpec(7.0 - w, 7.0 - v, 0.0, 1.0);
    ClampSpec(v - 8.0, w - 8.0, 0.0, 1.0);
  }

  /** Temperature is green on 20 to 30, fully red at 10 or below and 40 or above, and worsens away from the band. */
  lemma TemperatureRule(v: real, w: real)
    ensures 20.0 <= v <= 30.0 ==> SeverityPercent("Temperature", v) == 0.0
    ensures v <= 10.0 || v >= 40.0 ==> SeverityPercent("Temperature", v) == 1.0
    ensures v <= w <= 20.0 ==> SeverityPercent("Temperature", v) >= SeverityPercent("Temperature", w)
    ensures 30.0 <= v <= w ==> SeverityPercent("Temperature", v) <= SeverityPercent("Temperature", w)
  {
    ClampSpec((20.0 - w) / 10.0, (20.0 - v) / 10.0, 0.0, 1.0);
    ClampSpec((v - 30.0) / 10.0, (w - 30.0) / 10.0, 0.0, 1.0);
  }

  /** Any other title, "Suhu" among them, takes the linear 0 to 100 fallback. */
  lemma FallbackRule(title: string, v: real)
    requires title !in ["COD", "TSS", "Temperature", "pH"]
    ensures SeverityPercent(title, v) == SeverityPercent("COD", v)
  {
  }

  /** The dashboard's temperature card is titled "Suhu": at an ideal 25 degrees it is a quarter of the way to red. */
  lemma SuhuAsWritten()
    ensures SeverityPercent("Suhu", 25.0) == 0.25
    ensures SeverityPercent("Temperature", 25.0) == 0.0
  {
  }

  /** The rule a title evidently means: "Suhu" is the temperature. */
  function RuleTitle(title: string): string {
    if title == "Suhu" then "Temperature" else title
  }

  /** The severity with the temperature rule also for the "Suhu" card. */
  function Severity(title: string, v: real): real {
    SeverityPercent(RuleTitle(title), v)
  }

  /** The "Suhu" card follows the temperature rule; every other title is unchanged. */
  lemma SeverityIntended(title: string, v: real)
    ensures Severity("Suhu", v) == SeverityPercent("Temperature", v)
    ensures title != "Suhu" ==> Severity(title, v) == SeverityPercent(title, v)
    ensures 20.0 <= v <= 30.0 ==> Severity("Suhu", v) == 0.0
    ensures v <= 10.0 || v >= 40.0 ==> Severity("Suhu", v) == 1.0
    ensures 0.0 <= Severity(title, v) <= 1.0
  {
    TemperatureRule(v, v);
    SeverityRange(RuleTitle(title), v);
  }

  /** `percentToHsl`'s hue: 120 (green) at severity 0 down to 0 (red) at severity 1. */
  function Hue(p: real): real {
    120.0 - p * 120.0
  }

  /** The hue of a valid severity lies in 0 to 120, and a higher severity gives a strictly smaller hue. */
  lemma HueSpec(p: real, q: real)
    ensures 0.0 <= p <= 1.0 ==> 0.0 <= Hue(p) <= 120.0
    ensures p < q ==> Hue(p) > Hue(q)
    ensures Hue(0.0) == 120.0 && Hue(1.0) == 0.0
  {
  }

  /**
   * The hue a card gets, `percentToHsl(getSeverityPercent(title, count))`:
   * within 0 to 120, full green exactly when the rule sees no severity and
   * full red exactly when it sees the worst.
   */
  function CardHue(title: string, count: real): (h: real)
    ensures 0.0 <= h <= 120.0
    ensures h == 120.0 <==> SeverityPercent(title, count) == 0.0
    ensures h == 0.0 <==> SeverityPercent(title, count) == 1.0
    ensures title == "pH" && 7.0 <= count <= 8.0 ==> h == 120.0
    ensures title == "Temperature" && 20.0 <= count <= 30.0 ==> h == 120.0
  {
    SeverityRange(title, count);
    PhRule(count, count);
    TemperatureRule(count, count);
    HueSpec(SeverityPercent(title, count), 0.0);
    Hue(SeverityPercent(title, count))
  }

  /** The hue with the corrected rule, where the "Suhu" card follows the temperature band. */
  function IntendedCardHue(title: string, count: real): (h: real)
    ensures 0.0 <= h <= 120.0
    ensures title != "Suhu" ==> h == CardHue(title, count)
    ensures title == "Suhu" && 20.0 <= count <= 30.0 ==> h == 120.0
  {
    SeverityIntended(title, count);
    HueSpec(Severity(title, count), 0.0);
    Hue(Severity(title, count))
  }

  /** At an ideal 25 degrees the "Suhu" card is drawn at hue 90 as written, and green as intended. */
  lemma SuhuHue()
    ensures CardHue("Suhu", 25.0) == 90.0
    ensures IntendedCardHue("Suhu", 25.0) == 120.0
  {
    SuhuAsWritten();
  }
}
