/** The two date formats of geocaching_hu_api_viz.py.  Find timestamps are
    read with `datetime.strptime(s, '%Y-%m-%d %H:%M:%S')`, grouped under
    `strftime('%Y-%m-%d')` and read back with `strptime(key, '%Y-%m-%d')`.
    `strptime` matches a regular expression built from the format: `%Y` is
    exactly four digits; `%m`, `%d`, `%H`, `%M`, `%S` are one or two digits
    (`%d` may also be a space and one digit); a blank in the format matches
    one or more whitespace characters; the whole string must be consumed,
    and the fields must then form a valid `datetime`. */
module Timestamp {
  import opened Wrappers
  import opened Digits
  import opened TextOrder

  datatype Date = Date(year: int, month: int, day: int)
  datatype DateTime = DateTime(date: Date, hour: int, minute: int, second: int)

  predicate IsLeap(y: int) {
    y % 4 == 0 && (y % 100 != 0 || y % 400 == 0)
  }

  function DaysInMonth(y: int, m: int): (n: int)
    requires 1 <= m <= 12
    ensures 28 <= n <= 31
  {
    if m == 2 then (if IsLeap(y) then 29 else 28)
    else if m == 4 || m == 6 || m == 9 || m == 11 then 30
    else 31
  }

  /** A date `datetime` accepts whose year `%Y` can spell. */
  predicate ValidDate(d: Date) {
    1 <= d.year <= 9999 && 1 <= d.month <= 12 && 1 <= d.day <= DaysInMonth(d.year, d.month)
  }

  predicate ValidDateTime(t: DateTime) {
    ValidDate(t.date) && 0 <= t.hour <= 23 && 0 <= t.minute <= 59 && 0 <= t.second <= 59
  }

  /** Chronological order of dates. */
  predicate Before(d1: Date, d2: Date) {
    d1.year < d2.year
    || (d1.year == d2.year && d1.month < d2.month)
    || (d1.year == d2.year && d1.month == d2.month && d1.day < d2.day)
  }

  /** Python's `str.isspace`, which is what `\s` matches in a `str` pattern. */
  predicate IsSpace(c: char) {
    c == ' ' || ('\t' <= c <= '\r') || ('\U{1c}' <= c <= '\U{1f}') || c == '\U{85}' || c == '\U{a0}'
    || c == '\U{1680}' || ('\U{2000}' <= c <= '\U{200a}') || c == '\U{2028}' || c == '\U{2029}'
    || c == '\U{202f}' || c == '\U{205f}' || c == '\U{3000}'
  }

  /** The number of consecutive digits of `s` from position `i`. */
  function DigitRun(s: string, i: nat): (n: nat)
    requires i <= |s|
    ensures i + n <= |s| && AllDigits(s[i..i + n])
    ensures i + n == |s| || !IsDigit(s[i + n])
    decreases |s| - i
  {
    if i < |s| && IsDigit(s[i]) then
      var n := 1 + DigitRun(s, i + 1);
      assert s[i + 1..i + n] == s[i..i + n][1..];
      n
    else 0
  }

  /** The number of consecutive whitespace characters from position `i`. */
  function SpaceRun(s: string, i: nat): (n: nat)
    requires i <= |s|
    ensures i + n <= |s| && forall k :: i <= k < i + n ==> IsSpace(s[k])
    ensures i + n == |s| || !IsSpace(s[i + n])
    decreases |s| - i
  {
    if i < |s| && IsSpace(s[i]) then 1 + SpaceRun(s, i + 1) else 0
  }

  /** A field read at some position: its value and where it ends. */
  datatype Field = Field(value: nat, end: nat)

  /** A run of between one and `width` digits at `i` that the next
      character does not continue.  The regular expressions for `%m`, `%H`,
      `%M` and `%S` accept exactly these runs, up to a range check that the
      `datetime` validity check repeats. */
  function NumberField(s: string, i: nat, width: nat): (r: Option<Field>)
    requires i <= |s|
    ensures r.Some? ==> i < r.value.end <= i + width && r.value.end <= |s|
    ensures r.Some? ==> r.value.end == |s| || !IsDigit(s[r.value.end])
  {
    var n := DigitRun(s, i);
    if 1 <= n <= width then Some(Field(Number(s[i..i + n]), i + n)) else None
  }

  /** `%Y`: exactly four digits. */
  function YearField(s: string, i: nat): (r: Option<Field>)
    requires i <= |s|
    ensures r.Some? ==> r.value.end == i + 4 <= |s| && r.value.value <= 9999
  {
    if DigitRun(s, i) == 4 then
      NumberBound(s[i..i + 4]);
      Some(Field(Number(s[i..i + 4]), i + 4))
    else None
  }

  /** `%d`: one or two digits, or a space followed by a single digit. */
  function DayField(s: string, i: nat): (r: Option<Field>)
    requires i <= |s|
    ensures r.Some? ==> i < r.value.end <= |s| && r.value.value <= 99
  {
    if i < |s| && s[i] == ' ' then
      if DigitRun(s, i + 1) == 1 then Some(Field(DigitValue(s[i + 1]), i + 2)) else None
    else
      var r := NumberField(s, i, 2);
      if r.Some? then NumberBound(s[i..r.value.end]); r else r
  }

  /** A digit string of length `k` is below `10^k`. */
  lemma {:induction false} NumberBound(s: string)
    requires AllDigits(s)
    ensures Number(s) < Pow10(|s|)
  {
    if |s| > 0 {
      NumberBound(s[..|s| - 1]);
    }
  }

  predicate Literal(s: string, i: nat, c: char) {
    i < |s| && s[i] == c
  }

  /** The date fields `%Y-%m-%d` at the start of `s`, and where they end. */
  function DatePrefix(s: string): (r: Option<(Date, nat)>)
    ensures r.Some? ==> r.value.1 <= |s|
  {
    var y := YearField(s, 0);
    if y.None? || !Literal(s, y.value.end, '-') then None
    else
      var m := NumberField(s, y.value.end + 1, 2);
      if m.None? || !Literal(s, m.value.end, '-') then None
      else
        var d := DayField(s, m.value.end + 1);
        if d.None? then None
        else Some((Date(y.value.value, m.value.value, d.value.value), d.value.end))
  }

  /** `datetime.strptime(s, '%Y-%m-%d')`; None where it raises ValueError. */
  function ParseDate(s: string): (r: Option<Date>)
    ensures r.Some? ==> ValidDate(r.value)
  {
    var p := DatePrefix(s);
    if p.None? || p.value.1 != |s| || !ValidDate(p.value.0) then None
    else Some(p.value.0)
  }

  /** `\s+%H:%M:%S` from position `i` to the end of `s`. */
  function ClockSuffix(s: string, i: nat): (r: Option<(nat, nat, nat)>)
    requires i <= |s|
  {
    var gap := SpaceRun(s, i);
    if gap == 0 then None
    else
      var h := NumberField(s, i + gap, 2);
      if h.None? || !Literal(s, h.value.end, ':') then None
      else
        var mi := NumberField(s, h.value.end + 1, 2);
        if mi.None? || !Literal(s, mi.value.end, ':') then None
        else
          var sec := NumberField(s, mi.value.end + 1, 2);
          if sec.None? || sec.value.end != |s| then None
          else Some((h.value.value, mi.value.value, sec.value.value))
  }

  /** `datetime.strptime(s, '%Y-%m-%d %H:%M:%S')`; None where it raises
      ValueError. */
  function ParseTimestamp(s: string): (r: Option<DateTime>)
    ensures r.Some? ==> ValidDateTime(r.value)
  {
    var p := DatePrefix(s);
    if p.None? then None
    else
      var c := ClockSuffix(s, p.value.1);
      if c.None? then None
      else
        var t := DateTime(p.value.0, c.value.0, c.value.1, c.value.2);
        if ValidDateTime(t) then Some(t) else None
  }

  /** `strftime('%Y-%m-%d')`: four-digit year, two-digit month and day. */
  function DateKey(d: Date): (s: string)
    requires ValidDate(d)
    ensures |s| == 10 && s[4] == '-' && s[7] == '-'
  {
    Padded(4, d.year) + "-" + Padded(2, d.month) + "-" + Padded(2, d.day)
  }

  /** The timestamp format of the find log, with every field zero-padded. */
  function FormatTimestamp(t: DateTime): (s: string)
    requires ValidDateTime(t)
    ensures |s| == 19
  {
    DateKey(t.date) + " " + Padded(2, t.hour) + ":" + Padded(2, t.minute) + ":" + Padded(2, t.second)
  }

  /** A run of exactly `n` digits at `i` that the next character ends. */
  lemma {:induction false} DigitRunIs(s: string, i: nat, n: nat)
    requires i + n <= |s| && AllDigits(s[i..i + n])
    requires i + n == |s| || !IsDigit(s[i + n])
    ensures DigitRun(s, i) == n
    decreases n
  {
    if n > 0 {
      assert IsDigit(s[i..i + n][0]);
      assert s[i + 1..i + n] == s[i..i + n][1..];
      DigitRunIs(s, i + 1, n - 1);
    }
  }

  /** Reading a zero-padded field of width `w` placed at `i`, before a
      non-digit or the end, gives back its value. */
  lemma ReadPadded(s: string, i: nat, w: nat, v: nat)
    requires 1 <= w && v < Pow10(w) && i + w <= |s| && s[i..i + w] == Padded(w, v)
    requires i + w == |s| || !IsDigit(s[i + w])
    ensures NumberField(s, i, w) == Some(Field(v, i + w))
  {
    DigitRunIs(s, i, w);
    NumberOfPadded(w, v);
  }

  /** The `%Y-%m-%d` prefix of a key, or of a formatted timestamp, reads
      back as the date. */
  lemma DatePrefixOfKey(d: Date, rest: string)
    requires ValidDate(d)
    requires |rest| == 0 || !IsDigit(rest[0])
    ensures DatePrefix(DateKey(d) + rest) == Some((d, 10))
  {
    var s := DateKey(d) + rest;
    assert s[0..4] == Padded(4, d.year);
    assert s[5..7] == Padded(2, d.month);
    assert s[8..10] == Padded(2, d.day);
    DigitRunIs(s, 0, 4);
    NumberOfPadded(4, d.year);
    ReadPadded(s, 5, 2, d.month);
    assert s[8] != ' ';
    ReadPadded(s, 8, 2, d.day);
  }

  /** `strptime(strftime(d, '%Y-%m-%d'), '%Y-%m-%d')` is `d` again. */
  lemma DateKeyRoundTrip(d: Date)
    requires ValidDate(d)
    ensures ParseDate(DateKey(d)) == Some(d)
  {
    DatePrefixOfKey(d, []);
    assert DateKey(d) + [] == DateKey(d);
  }

  /** Where the fields of a formatted clock part " hh:mm:ss" sit. */
  lemma ClockLayout(s: string, hh: string, mm: string, ss: string)
    requires |hh| == 2 && |mm| == 2 && |ss| == 2
    requires |s| == 19 && s[10..] == " " + hh + ":" + mm + ":" + ss
    ensures s[10] == ' ' && s[13] == ':' && s[16] == ':'
    ensures s[11..13] == hh && s[14..16] == mm && s[17..19] == ss
  {
    var c := s[10..];
    assert c[1..3] == hh && c[4..6] == mm && c[7..9] == ss;
    assert s[11..13] == c[1..3];
    assert s[14..16] == c[4..6];
    assert s[17..19] == c[7..9];
  }

  /** The clock part of a formatted timestamp reads back. */
  lemma ClockOfFormat(s: string, h: nat, m: nat, sec: nat)
    requires h < 100 && m < 100 && sec < 100
    requires |s| == 19 && s[10..] == " " + Padded(2, h) + ":" + Padded(2, m) + ":" + Padded(2, sec)
    ensures ClockSuffix(s, 10) == Some((h, m, sec))
  {
    ClockLayout(s, Padded(2, h), Padded(2, m), Padded(2, sec));
    assert IsDigit(s[11..13][0]);
    assert SpaceRun(s, 10) == 1;
    ReadPadded(s, 11, 2, h);
    ReadPadded(s, 14, 2, m);
    ReadPadded(s, 17, 2, sec);
  }

  /** A zero-padded timestamp parses back to the same date and time. */
  lemma TimestampRoundTrip(t: DateTime)
    requires ValidDateTime(t)
    ensures ParseTimestamp(FormatTimestamp(t)) == Some(t)
  {
    var s := FormatTimestamp(t);
    var rest := " " + Padded(2, t.hour) + ":" + Padded(2, t.minute) + ":" + Padded(2, t.second);
    assert s == DateKey(t.date) + rest;
    DatePrefixOfKey(t.date, rest);
    assert s[10..] == rest;
    ClockOfFormat(s, t.hour, t.minute, t.second);
  }

  /** Distinct dates have distinct keys. */
  lemma DateKeyInjective(d1: Date, d2: Date)
    requires ValidDate(d1) && ValidDate(d2) && DateKey(d1) == DateKey(d2)
    ensures d1 == d2
  {
    DateKeyRoundTrip(d1);
    DateKeyRoundTrip(d2);
  }

  /** Two fields of one width, each followed by the same text, compare by
      the first field and then by the rest. */
  lemma FieldThen(width: nat, v1: nat, v2: nat, r1: string, r2: string)
    requires v1 < Pow10(width) && v2 < Pow10(width)
    ensures Less(Padded(width, v1) + r1, Padded(width, v2) + r2) <==> v1 < v2 || (v1 == v2 && Less(r1, r2))
  {
    LessConcat(Padded(width, v1), r1, Padded(width, v2), r2);
    PaddedOrder(width, v1, v2);
    NumberOfPadded(width, v1);
    NumberOfPadded(width, v2);
  }

  /** A shared leading separator does not change the comparison. */
  lemma DashThen(r1: string, r2: string)
    ensures Less("-" + r1, "-" + r2) <==> Less(r1, r2)
  {
    LessConcat("-", r1, "-", r2);
  }

  /** The grouping key as three fields each behind its separator. */
  lemma DateKeyFields(d: Date)
    requires ValidDate(d)
    ensures DateKey(d) == Padded(4, d.year) + ("-" + (Padded(2, d.month) + ("-" + Padded(2, d.day))))
  {
  }

  /** Keys sort as their dates do: `sorted()` on the grouping keys is
      chronological order. */
  lemma DateKeyOrder(d1: Date, d2: Date)
    requires ValidDate(d1) && ValidDate(d2)
    ensures Less(DateKey(d1), DateKey(d2)) <==> Before(d1, d2)
  {
    assert Pow10(2) == 100 && Pow10(4) == 10000;
    var day1, day2 := Padded(2, d1.day), Padded(2, d2.day);
    var md1, md2 := Padded(2, d1.month) + ("-" + day1), Padded(2, d2.month) + ("-" + day2);
    DateKeyFields(d1);
    DateKeyFields(d2);
    FieldThen(4, d1.year, d2.year, "-" + md1, "-" + md2);
    DashThen(md1, md2);
    FieldThen(2, d1.month, d2.month, "-" + day1, "-" + day2);
    DashThen(day1, day2);
    PaddedOrder(2, d1.day, d2.day);
  }

  /** Days in the months of year `y` before month `m`. */
  function DaysBeforeMonth(y: int, m: int): (n: nat)
    requires 1 <= m <= 13
  {
    if m == 1 then 0 else DaysBeforeMonth(y, m - 1) + DaysInMonth(y, m - 1)
  }

  function DaysInYear(y: int): nat {
    if IsLeap(y) then 366 else 365
  }

  /** The twelve months make up the year. */
  lemma YearLength(y: int)
    ensures DaysBeforeMonth(y, 13) == DaysInYear(y)
  {
    var feb := DaysInMonth(y, 2);
    assert DaysBeforeMonth(y, 2) == 31;
    assert DaysBeforeMonth(y, 3) == 31 + feb;
    assert DaysBeforeMonth(y, 4) == 62 + feb;
    assert DaysBeforeMonth(y, 5) == 92 + feb;
    assert DaysBeforeMonth(y, 6) == 123 + feb;
    assert DaysBeforeMonth(y, 7) == 153 + feb;
    assert DaysBeforeMonth(y, 8) == 184 + feb;
    assert DaysBeforeMonth(y, 9) == 215 + feb;
    assert DaysBeforeMonth(y, 10) == 245 + feb;
    assert DaysBeforeMonth(y, 11) == 276 + feb;
    assert DaysBeforeMonth(y, 12) == 306 + feb;
  }

  /** Days in the years before year `y`, counting from year 1. */
  function DaysBeforeYear(y: int): (n: nat)
    decreases y
  {
    if y <= 1 then 0 else DaysBeforeYear(y - 1) + DaysInYear(y - 1)
  }

  /** `date.toordinal()`: 1 for 0001-01-01, one more for each later day.
      Subtracting two dates subtracts their day numbers. */
  function DayNumber(d: Date): (n: int)
    requires ValidDate(d)
    ensures n >= 1
  {
    DaysBeforeYear(d.year) + DaysBeforeMonth(d.year, d.month) + d.day
  }

  /** A month ends no later than the next one starts. */
  lemma {:induction false} MonthsAccumulate(y: int, m1: int, m2: int)
    requires 1 <= m1 < m2 <= 13
    ensures DaysBeforeMonth(y, m1) + DaysInMonth(y, m1) <= DaysBeforeMonth(y, m2)
    decreases m2
  {
    if m1 < m2 - 1 {
      MonthsAccumulate(y, m1, m2 - 1);
    }
  }

  /** A year ends no later than the next one starts. */
  lemma {:induction false} YearsAccumulate(y1: int, y2: int)
    requires 1 <= y1 < y2
    ensures DaysBeforeYear(y1) + DaysInYear(y1) <= DaysBeforeYear(y2)
    decreases y2
  {
    if y1 < y2 - 1 {
      YearsAccumulate(y1, y2 - 1);
    }
  }

  /** Later dates have larger day numbers. */
  lemma DayNumberIncreasing(d1: Date, d2: Date)
    requires ValidDate(d1) && ValidDate(d2) && Before(d1, d2)
    ensures DayNumber(d1) < DayNumber(d2)
  {
    if d1.year < d2.year {
      if d1.month < 12 {
        MonthsAccumulate(d1.year, d1.month, 13);
      }
      YearLength(d1.year);
      YearsAccumulate(d1.year, d2.year);
    } else if d1.month < d2.month {
      MonthsAccumulate(d1.year, d1.month, d2.month);
    }
  }

  /** `date.max.toordinal()`: the day number of 9999-12-31, the last day a
      `date` or `datetime` can hold. */
  const MAX_DAY_NUMBER: int := 3652059

  /** The leap years among years 1 to n. */
  function LeapYearsThrough(n: int): int {
    n / 4 - n / 100 + n / 400
  }

  /** Going from n - 1 to n adds one multiple of d exactly when d divides n. */
  lemma MultiplesStep(n: int)
    ensures n / 4 - (n - 1) / 4 == (if n % 4 == 0 then 1 else 0)
    ensures n / 100 - (n - 1) / 100 == (if n % 100 == 0 then 1 else 0)
    ensures n / 400 - (n - 1) / 400 == (if n % 400 == 0 then 1 else 0)
  {
  }

  lemma LeapYearStep(n: int)
    ensures LeapYearsThrough(n) == LeapYearsThrough(n - 1) + (if IsLeap(n) then 1 else 0)
  {
    MultiplesStep(n);
    DivisorsNest(n);
  }

  lemma DivisorsNest(n: int)
    ensures n % 400 == 0 ==> n % 100 == 0
    ensures n % 100 == 0 ==> n % 4 == 0
  {
    if n % 400 == 0 {
      var x := 4 * (n / 400);
      assert n == 100 * x;
      MultipleOf100(x);
    }
    if n % 100 == 0 {
      var x := 25 * (n / 100);
      assert n == 4 * x;
      MultipleOf4(x);
    }
  }

  lemma MultipleOf100(x: int)
    ensures (100 * x) % 100 == 0
  {
  }

  lemma MultipleOf4(x: int)
    ensures (4 * x) % 4 == 0
  {
  }

  /** The days before a year: 365 per year plus one per leap year. */
  lemma {:induction false} DaysBeforeYearClosed(y: int)
    requires y >= 1
    ensures DaysBeforeYear(y) == 365 * (y - 1) + LeapYearsThrough(y - 1)
    decreases y
  {
    if y > 1 {
      DaysBeforeYearClosed(y - 1);
      LeapYearStep(y - 1);
    }
  }

  /** 9999-12-31 is a valid date with day number `MAX_DAY_NUMBER`. */
  lemma MaxDate()
    ensures ValidDate(Date(9999, 12, 31)) && DayNumber(Date(9999, 12, 31)) == MAX_DAY_NUMBER
  {
    DaysBeforeYearClosed(9999);
    assert LeapYearsThrough(9998) == 2424;
    YearLength(9999);
    assert DaysBeforeMonth(9999, 13) == DaysBeforeMonth(9999, 12) + 31;
  }

  /** No valid date has a day number above `MAX_DAY_NUMBER`. */
  lemma LastDayNumber(d: Date)
    requires ValidDate(d)
    ensures DayNumber(d) <= MAX_DAY_NUMBER
  {
    MaxDate();
    if d != Date(9999, 12, 31) {
      DayNumberIncreasing(d, Date(9999, 12, 31));
    }
  }
}
