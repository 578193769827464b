/**
 * The capture timestamp of the latest full-disk image: reading the feed's
 * 14-digit `YYYYMMDDHHMMSS` text with `strptime(..., "%Y%m%d%H%M%S")`, and the
 * `strftime` renderings used by the tile URL and the output file name.
 */
module Timestamps {
  import opened Wrappers
  import opened Decimal

  /** The fields of a `struct_time` that the program uses. */
  datatype Timestamp = Timestamp(year: nat, month: nat, day: nat, hour: nat, minute: nat, second: nat)

  predicate IsLeapYear(y: nat) {
    y % 4 == 0 && (y % 100 != 0 || y % 400 == 0)
  }

  function DaysInMonth(y: nat, m: nat): (days: nat)
    requires 1 <= m <= 12
    ensures 28 <= days <= 31
  {
    if m == 2 then (if IsLeapYear(y) then 29 else 28)
    else if m == 4 || m == 6 || m == 9 || m == 11 then 30
    else 31
  }

  /**
   * What `strptime` accepts: the field patterns (month 1-12, day 1-31, hour 0-23,
   * minute 0-59, second 0-61) and the calendar date that `datetime.date` accepts
   * (year 1-9999, day within its month).
   */
  predicate Valid(t: Timestamp) {
    1 <= t.year <= 9999 && 1 <= t.month <= 12 && 1 <= t.day <= DaysInMonth(t.year, t.month)
    && t.hour <= 23 && t.minute <= 59 && t.second <= 61
  }

  /**
   * `strptime(s, "%Y%m%d%H%M%S")` on a string of 14 digits. Each field pattern
   * tries its two-digit forms first and the match must consume all 14
   * characters, so the only parse is the fixed-width one; it fails when a
   * field is out of range.
   */
  function Parse(s: string): (r: Option<Timestamp>)
    ensures r.Some? ==> Valid(r.value) && |s| == 14 && AllDigits(s)
  {
    if |s| == 14 && AllDigits(s) then
      var t := Timestamp(DigitsValue(s[0..4]), DigitsValue(s[4..6]), DigitsValue(s[6..8]),
                         DigitsValue(s[8..10]), DigitsValue(s[10..12]), DigitsValue(s[12..14]));
      if Valid(t) then Some(t) else None
    else
      None
  }

  /** `strftime("%Y/%m/%d", t)`: `%Y` is the year without padding, as the C library writes it. */
  function DateSegment(t: Timestamp): (segment: string)
    requires Valid(t)
  {
    NatToString(t.year) + "/" + Pad2(t.month) + "/" + Pad2(t.day)
  }

  /** `strftime("%Y%m%d%H%M%S", t)`. */
  function StampSegment(t: Timestamp): (stamp: string)
    requires Valid(t)
  {
    NatToString(t.year) + Pad2(t.month) + Pad2(t.day) + Pad2(t.hour) + Pad2(t.minute) + Pad2(t.second)
  }

  /** `strftime("goes16-%Y%m%dT%H%M%S.png", t)`: the name of the saved image. */
  function OutputFileName(t: Timestamp): (name: string)
    requires Valid(t)
  {
    "goes16-" + NatToString(t.year) + Pad2(t.month) + Pad2(t.day)
    + "T" + Pad2(t.hour) + Pad2(t.minute) + Pad2(t.second) + ".png"
  }

  lemma FourDigitYear(s: string)
    requires |s| == 4 && AllDigits(s) && s[0] != '0'
    ensures NatToString(DigitsValue(s)) == s
  {
    NatToStringOfValue(s);
  }

  /**
   * Round trip from the feed's text: a 14-digit string that parses, and whose
   * first digit is not 0 (it is `str()` of the feed's integer), is rendered back
   * unchanged by `%Y%m%d%H%M%S`; the date segment and the file name are cut
   * from the same digits.
   */
  lemma FormatAfterParse(s: string)
    requires Parse(s).Some? && s[0] != '0'
    ensures StampSegment(Parse(s).value) == s
    ensures DateSegment(Parse(s).value) == s[0..4] + "/" + s[4..6] + "/" + s[6..8]
    ensures OutputFileName(Parse(s).value) == "goes16-" + s[0..8] + "T" + s[8..14] + ".png"
  {
    var t := Parse(s).value;
    FourDigitYear(s[0..4]);
    Pad2OfValue(s[4..6]);
    Pad2OfValue(s[6..8]);
    Pad2OfValue(s[8..10]);
    Pad2OfValue(s[10..12]);
    Pad2OfValue(s[12..14]);
    assert s == s[0..4] + s[4..6] + s[6..8] + s[8..10] + s[10..12] + s[12..14];
    assert s[0..8] == s[0..4] + s[4..6] + s[6..8];
    assert s[8..14] == s[8..10] + s[10..12] + s[12..14];
  }

  /** Round trip from a timestamp: rendering with `%Y%m%d%H%M%S` and parsing gives it back (years of four digits). */
  lemma ParseAfterFormat(t: Timestamp)
    requires Valid(t) && t.year >= 1000
    ensures Parse(StampSegment(t)) == Some(t)
  {
    var y := NatToString(t.year);
    ValueOfNatToString(t.year);
    assert |y| == 4 by {
      LengthOfNatToString(t.year);
    }
    var s := StampSegment(t);
    assert s[0..4] == y;
    assert s[4..6] == Pad2(t.month);
    assert s[6..8] == Pad2(t.day);
    assert s[8..10] == Pad2(t.hour);
    assert s[10..12] == Pad2(t.minute);
    assert s[12..14] == Pad2(t.second);
    Pad2Value(t.month);
    Pad2Value(t.day);
    Pad2Value(t.hour);
    Pad2Value(t.minute);
    Pad2Value(t.second);
  }

  lemma LengthOfNatToString(n: nat)
    requires 1000 <= n <= 9999
    ensures |NatToString(n)| == 4
  {
    assert NatToString(n) == NatToString(n / 10) + [DigitChar(n % 10)];
    assert NatToString(n / 10) == NatToString(n / 100) + [DigitChar(n / 10 % 10)];
    assert NatToString(n / 100) == NatToString(n / 1000) + [DigitChar(n / 100 % 10)];
  }
}
