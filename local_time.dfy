/**
 * The local calendar fields of an instant, as `getFullYear`, `getMonth`,
 * `getDate`, `getHours`, `getMinutes` and `getSeconds` report them, and the
 * `YYYY-MM-DD` text the views build from them. Which fields an instant has
 * depends on the browser's time zone, so callers take that as a parameter.
 */
module LocalTime {

  import opened Strings

  /** `month0` is `getMonth()`, counted from 0. */
  datatype Fields = Fields(year: nat, month0: nat, day: nat, hour: nat, minute: nat, second: nat)

  predicate ValidFields(f: Fields) {
    f.month0 < 12 && 1 <= f.day <= 31 && f.hour < 24 && f.minute < 60 && f.second < 60
  }

  /** `${y}-${pad(m + 1)}-${pad(d)}`: the year unpadded, month and day padded to two digits. */
  function FormatYMD(f: Fields): string {
    NatToString(f.year) + "-" + Pad2(f.month0 + 1) + "-" + Pad2(f.day)
  }

  /** For a four-digit year the text is `YYYY-MM-DD`, and each field reads back as the 1-based month, the day and the year. */
  lemma FormatYMDSpec(f: Fields)
    requires ValidFields(f) && 1000 <= f.year <= 9999
    ensures var s := FormatYMD(f);
      && |s| == 10 && s[4] == '-' && s[7] == '-'
      && AllDigits(s[..4]) && AllDigits(s[5..7]) && AllDigits(s[8..])
      && ParseNat(s[..4]) == f.year && ParseNat(s[5..7]) == f.month0 + 1 && ParseNat(s[8..]) == f.day
  {
    var y := NatToString(f.year);
    ParseNatToString(f.year);
    Pad2Spec(f.month0 + 1);
    Pad2Spec(f.day);
    var s := FormatYMD(f);
    assert s[..4] == y;
    assert s[5..7] == Pad2(f.month0 + 1);
    assert s[8..] == Pad2(f.day);
  }

  /** Different dates give different texts. */
  lemma FormatYMDInjective(f: Fields, g: Fields)
    requires ValidFields(f) && 1000 <= f.year <= 9999
    requires ValidFields(g) && 1000 <= g.year <= 9999
    requires FormatYMD(f) == FormatYMD(g)
    ensures f.year == g.year && f.month0 == g.month0 && f.day == g.day
  {
    FormatYMDSpec(f);
    FormatYMDSpec(g);
  }
}
