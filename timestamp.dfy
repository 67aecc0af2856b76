/**
 * The `added_date` timestamp: `datetime.strptime(text, "%Y-%m-%dT%H:%M:%S")` on its strict, zero-padded
 * form, the calendar checks `datetime` applies, and the chronological order in which `sorted` compares
 * two results.
 */
module Timestamp {
  import opened Wrappers
  import opened Digits

  datatype DateTime = DateTime(year: int, month: int, day: int, hour: int, minute: int, second: int)

  /** Gregorian leap years. */
  predicate IsLeapYear(y: int) {
    y % 4 == 0 && (y % 100 != 0 || y % 400 == 0)
  }

  function DaysInMonth(y: int, m: int): (n: int)
    requires 1 <= m <= 12
    ensures 28 <= n <= 31
    ensures m == 2 ==> (n == 29 <==> IsLeapYear(y))
  {
    if m == 2 then (if IsLeapYear(y) then 29 else 28)
    else if m == 4 || m == 6 || m == 9 || m == 11 then 30
    else 31
  }

  /** The values `datetime` accepts: years 1 to 9999, real calendar days, `h < 24`, `m < 60`, `s < 60`. */
  predicate Valid(d: DateTime) {
    && 1 <= d.year <= 9999
    && 1 <= d.month <= 12
    && 1 <= d.day <= DaysInMonth(d.year, d.month)
    && 0 <= d.hour < 24
    && 0 <= d.minute < 60
    && 0 <= d.second < 60
  }

  /** `a < b` on `datetime`: lexicographic on (year, month, day, hour, minute, second). */
  predicate Earlier(a: DateTime, b: DateTime) {
    || a.year < b.year
    || (a.year == b.year && a.month < b.month)
    || (a.year == b.year && a.month == b.month && a.day < b.day)
    || (a.year == b.year && a.month == b.month && a.day == b.day && a.hour < b.hour)
    || (a.year == b.year && a.month == b.month && a.day == b.day && a.hour == b.hour && a.minute < b.minute)
    || (a.year == b.year && a.month == b.month && a.day == b.day && a.hour == b.hour && a.minute == b.minute
        && a.second < b.second)
  }

  lemma EarlierIsStrictTotalOrder(a: DateTime, b: DateTime, c: DateTime)
    ensures !Earlier(a, a)
    ensures Earlier(a, b) && Earlier(b, c) ==> Earlier(a, c)
    ensures a != b ==> Earlier(a, b) || Earlier(b, a)
    ensures Earlier(a, b) ==> !Earlier(b, a)
  {
  }

  /** The value of the `width` characters at `s[i..]` when they are all digits. */
  function Field(s: string, i: nat, width: nat): (r: Option<nat>)
    requires i + width <= |s|
    ensures r.Some? <==> AllDigits(s[i..i + width])
  {
    if AllDigits(s[i..i + width]) then Some(ValueOf(s[i..i + width])) else None
  }

  /** The separators the format string puts at fixed places; the literal `T` matches either case. */
  predicate Separators(s: string)
    requires |s| == 19
  {
    s[4] == '-' && s[7] == '-' && (s[10] == 'T' || s[10] == 't') && s[13] == ':' && s[16] == ':'
  }

  /**
   * `datetime.strptime(s, "%Y-%m-%dT%H:%M:%S")` on zero-padded fields: `Some` for a value the call
   * returns, `None` where it raises `ValueError`.
   */
  function ParseAddedDate(s: string): (r: Option<DateTime>)
    ensures r.Some? ==> Valid(r.value) && |s| == 19
  {
    if |s| != 19 || !Separators(s) then None
    else
      var y, mo, d, h, mi, se := Field(s, 0, 4), Field(s, 5, 2), Field(s, 8, 2), Field(s, 11, 2), Field(s, 14, 2), Field(s, 17, 2);
      if y.None? || mo.None? || d.None? || h.None? || mi.None? || se.None? then None
      else
        var dt := DateTime(y.value, mo.value, d.value, h.value, mi.value, se.value);
        if Valid(dt) then Some(dt) else None
  }

  /** `d.strftime("%Y-%m-%dT%H:%M:%S")`: the canonical text of a valid timestamp. */
  function Format(d: DateTime): (s: string)
    requires Valid(d)
    ensures |s| == 19 && Separators(s) && s[10] == 'T'
  {
    Padded(d.year, 4) + "-" + Padded(d.month, 2) + "-" + Padded(d.day, 2) + "T"
      + Padded(d.hour, 2) + ":" + Padded(d.minute, 2) + ":" + Padded(d.second, 2)
  }

  /** Formatting a valid timestamp and parsing the text gives the timestamp back, with the `T` in either case. */
  lemma FormatThenParse(d: DateTime)
    requires Valid(d)
    ensures ParseAddedDate(Format(d)) == Some(d)
    ensures ParseAddedDate(Format(d)[10 := 't']) == Some(d)
  {
    var s := Format(d);
    assert s[0..4] == Padded(d.year, 4);
    assert s[5..7] == Padded(d.month, 2);
    assert s[8..10] == Padded(d.day, 2);
    assert s[11..13] == Padded(d.hour, 2);
    assert s[14..16] == Padded(d.minute, 2);
    assert s[17..19] == Padded(d.second, 2);
    ValueOfPadded(d.year, 4);
    ValueOfPadded(d.month, 2);
    ValueOfPadded(d.day, 2);
    ValueOfPadded(d.hour, 2);
    ValueOfPadded(d.minute, 2);
    ValueOfPadded(d.second, 2);
    var t := s[10 := 't'];
    assert t[0..4] == s[0..4] && t[5..7] == s[5..7] && t[8..10] == s[8..10];
    assert t[11..13] == s[11..13] && t[14..16] == s[14..16] && t[17..19] == s[17..19];
  }

  /** A 19-character text with the format's separators is its six fields joined by those separators, with `T` at 10. */
  lemma SplitFields(s: string)
    requires |s| == 19 && Separators(s)
    ensures s[10 := 'T'] == s[0..4] + "-" + s[5..7] + "-" + s[8..10] + "T" + s[11..13] + ":" + s[14..16] + ":" + s[17..19]
  {
    var t := s[0..4] + "-" + s[5..7] + "-" + s[8..10] + "T" + s[11..13] + ":" + s[14..16] + ":" + s[17..19];
    assert |t| == 19;
    forall i | 0 <= i < 19 ensures t[i] == s[10 := 'T'][i] {
    }
  }

  /** A text the parse accepts is the canonical text of its result, up to the case of the `T`. */
  lemma ParseThenFormat(s: string)
    requires ParseAddedDate(s).Some?
    ensures Format(ParseAddedDate(s).value) == s[10 := 'T']
  {
    var d := ParseAddedDate(s).value;
    assert d == DateTime(ValueOf(s[0..4]), ValueOf(s[5..7]), ValueOf(s[8..10]), ValueOf(s[11..13]), ValueOf(s[14..16]), ValueOf(s[17..19]));
    PaddedValueOf(s[0..4]);
    PaddedValueOf(s[5..7]);
    PaddedValueOf(s[8..10]);
    PaddedValueOf(s[11..13]);
    PaddedValueOf(s[14..16]);
    PaddedValueOf(s[17..19]);
    SplitFields(s);
  }
}
