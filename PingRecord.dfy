/** The result record of one probe (`Ping`) and its timestamp text, which
    has the fixed layout `YYYY-MM-DD HH:MM:SS` (the `strftime` format
    "%Y-%m-%d %H:%M:%S"). The clock reading is an input: the model receives
    the date and time components that `datetime.now()` would supply. */
module PingRecord {
  import opened Util

  /** A calendar date, as Python's `date` holds it. */
  datatype Date = Date(year: nat, month: nat, day: nat)

  /** A clock reading at second granularity, as `datetime.now()` gives it
      once the microseconds are dropped by the format. */
  datatype DateTime = DateTime(date: Date, hour: nat, minute: nat, second: nat)

  predicate IsLeapYear(y: nat) {
    y % 4 == 0 && (y % 100 != 0 || y % 400 == 0)
  }

  function DaysInMonth(y: nat, m: nat): nat
    requires 1 <= m <= 12
  {
    if m == 2 then (if IsLeapYear(y) then 29 else 28)
    else if m == 4 || m == 6 || m == 9 || m == 11 then 30
    else 31
  }

  /** The dates Python's `date` type can hold (years 1 to 9999). */
  predicate ValidDate(d: Date) {
    1 <= d.year <= 9999 && 1 <= d.month <= 12 && 1 <= d.day <= DaysInMonth(d.year, d.month)
  }

  predicate ValidDateTime(t: DateTime) {
    ValidDate(t.date) && t.hour < 24 && t.minute < 60 && t.second < 60
  }

  /** Calendar order of dates. */
  predicate DateLe(a: Date, b: Date) {
    a.year < b.year || (a.year == b.year && (a.month < b.month || (a.month == b.month && a.day <= b.day)))
  }

  /** Days since the start of the proleptic Gregorian calendar: the days
      of the years and months before the date, plus its day of the month. */
  function DayNumber(d: Date): nat
    requires 1 <= d.month <= 12
  {
    DaysBeforeYear(d.year) + DaysBeforeMonth(d.year, d.month) + d.day
  }

  function YearDays(y: nat): nat {
    if IsLeapYear(y) then 366 else 365
  }

  function DaysBeforeYear(y: nat): nat {
    if y == 0 then 0 else DaysBeforeYear(y - 1) + YearDays(y - 1)
  }

  function DaysBeforeMonth(y: nat, m: nat): nat
    requires 1 <= m <= 12
  {
    if m == 1 then 0 else DaysBeforeMonth(y, m - 1) + DaysInMonth(y, m - 1)
  }

  /** `QDate.addDays(-7)`: the same day of the month a week earlier, or a
      day near the end of the previous month or year. */
  function WeekBefore(d: Date): (w: Date)
    requires ValidDate(d)
    ensures 1 <= w.month <= 12
    ensures d.year > 1 || d.month > 1 || d.day > 7 ==> ValidDate(w)
    ensures DateLe(w, d) && w != d
  {
    if d.day > 7 then Date(d.year, d.month, d.day - 7)
    else if d.month > 1 then Date(d.year, d.month - 1, DaysInMonth(d.year, d.month - 1) + d.day - 7)
    else Date(d.year - 1, 12, 31 + d.day - 7)
  }

  /** A whole year is the days of its twelve months. */
  lemma MonthsMakeYear(y: nat)
    ensures DaysBeforeMonth(y, 12) + DaysInMonth(y, 12) == YearDays(y)
  {
    var feb := DaysInMonth(y, 2);
    assert DaysBeforeMonth(y, 2) == 31;
    assert DaysBeforeMonth(y, 3) == 31 + feb;
    assert DaysBeforeMonth(y, 4) == 62 + feb;
    assert DaysBeforeMonth(y, 5) == 92 + feb;
    assert DaysBeforeMonth(y, 6) == 123 + feb;
    assert DaysBeforeMonth(y, 7) == 153 + feb;
    assert DaysBeforeMonth(y, 8) == 184 + feb;
    assert DaysBeforeMonth(y, 9) == 215 + feb;
    assert DaysBeforeMonth(y, 10) == 245 + feb;
    assert DaysBeforeMonth(y, 11) == 276 + feb;
    assert DaysBeforeMonth(y, 12) == 306 + feb;
  }

  /** `WeekBefore` is exactly seven days back. */
  lemma WeekBeforeIsSevenDays(d: Date)
    requires ValidDate(d)
    ensures DayNumber(WeekBefore(d)) + 7 == DayNumber(d)
  {
    if d.day <= 7 && d.month == 1 {
      MonthsMakeYear(d.year - 1);
    }
  }

  /** Chronological order of clock readings. */
  predicate ChronoLe(a: DateTime, b: DateTime) {
    (a.date != b.date && DateLe(a.date, b.date))
    || (a.date == b.date
        && (a.hour < b.hour || (a.hour == b.hour
            && (a.minute < b.minute || (a.minute == b.minute && a.second <= b.second)))))
  }

  // ---------------------------------------------------------------------
  // Fixed-width decimal fields

  predicate IsDigit(c: char) {
    '0' <= c <= '9'
  }

  predicate AllDigits(s: string) {
    forall i | 0 <= i < |s| :: IsDigit(s[i])
  }

  function Pow10(w: nat): nat {
    if w == 0 then 1 else 10 * Pow10(w - 1)
  }

  function DigitChar(d: nat): char
    requires d < 10
  {
    ('0' as int + d) as char
  }

  function DigitVal(c: char): nat {
    if IsDigit(c) then c as int - '0' as int else 0
  }

  /** The `w` low-order decimal digits of `n`, zero-padded on the left
      (`%04d`, `%02d`). */
  function Pad(n: nat, w: nat): (s: string)
    ensures |s| == w && AllDigits(s)
    decreases w
  {
    if w == 0 then [] else Pad(n / 10, w - 1) + [DigitChar(n % 10)]
  }

  /** The number a digit text denotes. */
  function DigitsValue(s: string): nat {
    if s == [] then 0 else DigitsValue(s[..|s| - 1]) * 10 + DigitVal(s[|s| - 1])
  }

  lemma {:induction false} PadValue(n: nat, w: nat)
    requires n < Pow10(w)
    ensures DigitsValue(Pad(n, w)) == n
    decreases w
  {
    if w > 0 {
      var s := Pad(n, w);
      assert s[..|s| - 1] == Pad(n / 10, w - 1);
      PadValue(n / 10, w - 1);
    }
  }

  lemma {:induction false} ValuePad(s: string)
    requires AllDigits(s)
    ensures DigitsValue(s) < Pow10(|s|) && Pad(DigitsValue(s), |s|) == s
    decreases |s|
  {
    if s != [] {
      var init := s[..|s| - 1];
      assert AllDigits(init) by {
        forall i | 0 <= i < |init| ensures IsDigit(init[i]) { assert init[i] == s[i]; }
      }
      ValuePad(init);
      var v := DigitsValue(s);
      var d := DigitVal(s[|s| - 1]);
      assert v == DigitsValue(init) * 10 + d && d < 10;
      assert v / 10 == DigitsValue(init) && v % 10 == d;
      assert DigitChar(d) == s[|s| - 1];
      assert s == init + [s[|s| - 1]];
    }
  }

  lemma DigitOrder(n: nat, m: nat)
    requires n < 10 && m < 10
    ensures LexLe([DigitChar(n)], [DigitChar(m)]) <==> n <= m
  {
    var a, b := [DigitChar(n)], [DigitChar(m)];
    assert a[1..] == [] && b[1..] == [];
  }

  /** On fixed-width fields, text order is numeric order. */
  lemma {:induction false} PadOrder(n: nat, m: nat, w: nat)
    requires n < Pow10(w) && m < Pow10(w)
    ensures LexLe(Pad(n, w), Pad(m, w)) <==> n <= m
    decreases w
  {
    if w > 0 {
      var hn, hm := Pad(n / 10, w - 1), Pad(m / 10, w - 1);
      LexLeAppend(hn, [DigitChar(n % 10)], hm, [DigitChar(m % 10)]);
      PadValue(n / 10, w - 1);
      PadValue(m / 10, w - 1);
      if hn == hm {
        assert n / 10 == m / 10;
        DigitOrder(n % 10, m % 10);
      } else {
        assert n / 10 != m / 10;
        PadOrder(n / 10, m / 10, w - 1);
      }
    }
  }

  /** One field of a record: its order decides unless the values are equal. */
  lemma FieldStep(n: nat, m: nat, w: nat, x: string, y: string)
    requires n < Pow10(w) && m < Pow10(w)
    ensures LexLe(Pad(n, w) + x, Pad(m, w) + y) <==> n < m || (n == m && LexLe(x, y))
  {
    LexLeAppend(Pad(n, w), x, Pad(m, w), y);
    PadOrder(n, m, w);
    PadValue(n, w);
    PadValue(m, w);
  }

  /** An equal separator in front does not change the order. */
  lemma SepStep(c: string, x: string, y: string)
    requires |c| == 1
    ensures LexLe(c + x, c + y) <==> LexLe(x, y)
  {
    LexLeAppend(c, x, c, y);
  }

  // ---------------------------------------------------------------------
  // The timestamp text

  /** `%Y-%m-%d`. */
  function DateText(d: Date): string {
    Pad(d.year, 4) + ("-" + (Pad(d.month, 2) + ("-" + Pad(d.day, 2))))
  }

  /** `%H:%M:%S`. */
  function TimeText(h: nat, m: nat, s: nat): string {
    Pad(h, 2) + (":" + (Pad(m, 2) + (":" + Pad(s, 2))))
  }

  /** `strftime("%Y-%m-%d %H:%M:%S")`. */
  function FormatTimestamp(t: DateTime): string {
    DateText(t.date) + (" " + TimeText(t.hour, t.minute, t.second))
  }

  predicate IsSeparatorIndex(i: int) {
    i == 4 || i == 7 || i == 10 || i == 13 || i == 16
  }

  /** The shape tests check with `\d{4}-\d{2}-\d{2} \d{2}:\d{2}:\d{2}`. */
  predicate WellFormedTimestamp(s: string) {
    |s| == 19 && s[4] == '-' && s[7] == '-' && s[10] == ' ' && s[13] == ':' && s[16] == ':'
    && forall i | 0 <= i < 19 && !IsSeparatorIndex(i) :: IsDigit(s[i])
  }

  /** `strptime(s, "%Y-%m-%d %H:%M:%S")`, read as a strict fixed-width
      layout: `None` when the text does not have the layout or names no
      valid clock reading. */
  function ParseTimestamp(s: string): (r: Option<DateTime>)
    ensures r.Some? ==> WellFormedTimestamp(s) && ValidDateTime(r.value)
  {
    if !WellFormedTimestamp(s) then None
    else
      var t := DateTime(Date(DigitsValue(s[0..4]), DigitsValue(s[5..7]), DigitsValue(s[8..10])),
                        DigitsValue(s[11..13]), DigitsValue(s[14..16]), DigitsValue(s[17..19]));
      if ValidDateTime(t) then Some(t) else None
  }

  /** The pieces of a formatted timestamp, by position. */
  lemma FormatPieces(t: DateTime)
    ensures var s := FormatTimestamp(t);
      |s| == 19
      && s[0..4] == Pad(t.date.year, 4) && s[4] == '-'
      && s[5..7] == Pad(t.date.month, 2) && s[7] == '-'
      && s[8..10] == Pad(t.date.day, 2) && s[10] == ' '
      && s[11..13] == Pad(t.hour, 2) && s[13] == ':'
      && s[14..16] == Pad(t.minute, 2) && s[16] == ':'
      && s[17..19] == Pad(t.second, 2)
  {
    var d := DateText(t.date);
    var tt := TimeText(t.hour, t.minute, t.second);
    assert d[0..4] == Pad(t.date.year, 4) && d[5..7] == Pad(t.date.month, 2) && d[8..10] == Pad(t.date.day, 2);
    assert tt[0..2] == Pad(t.hour, 2) && tt[3..5] == Pad(t.minute, 2) && tt[6..8] == Pad(t.second, 2);
    var s := FormatTimestamp(t);
    assert s[0..10] == d && s[11..19] == tt;
    assert s[0..4] == d[0..4] && s[5..7] == d[5..7] && s[8..10] == d[8..10];
    assert s[11..13] == tt[0..2] && s[14..16] == tt[3..5] && s[17..19] == tt[6..8];
  }

  /** Every formatted timestamp is 19 characters: digits, with `-` at 4 and
      7, a space at 10 and `:` at 13 and 16. */
  lemma FormatWellFormed(t: DateTime)
    ensures WellFormedTimestamp(FormatTimestamp(t))
  {
    FormatPieces(t);
    var s := FormatTimestamp(t);
    forall i | 0 <= i < 19 && !IsSeparatorIndex(i) ensures IsDigit(s[i]) {
      if i < 4 { assert s[i] == s[0..4][i]; }
      else if i < 7 { assert s[i] == s[5..7][i - 5]; }
      else if i < 10 { assert s[i] == s[8..10][i - 8]; }
      else if i < 13 { assert s[i] == s[11..13][i - 11]; }
      else if i < 16 { assert s[i] == s[14..16][i - 14]; }
      else { assert s[i] == s[17..19][i - 17]; }
    }
  }

  /** Parsing a formatted timestamp gives back the clock reading. */
  lemma ParseFormat(t: DateTime)
    requires ValidDateTime(t)
    ensures ParseTimestamp(FormatTimestamp(t)) == Some(t)
  {
    FormatWellFormed(t);
    FormatPieces(t);
    PadValue(t.date.year, 4);
    PadValue(t.date.month, 2);
    PadValue(t.date.day, 2);
    PadValue(t.hour, 2);
    PadValue(t.minute, 2);
    PadValue(t.second, 2);
  }

  lemma SliceDigits(s: string, i: nat, j: nat)
    requires WellFormedTimestamp(s) && i <= j <= 19
    requires forall k | i <= k < j :: !IsSeparatorIndex(k)
    ensures AllDigits(s[i..j]) && Pad(DigitsValue(s[i..j]), j - i) == s[i..j]
  {
    forall k | 0 <= k < j - i ensures IsDigit(s[i..j][k]) { assert s[i..j][k] == s[i + k]; }
    ValuePad(s[i..j]);
  }

  /** Conversely, a text that parses is the formatted form of its reading,
      so each valid clock reading has exactly one timestamp text. */
  lemma FormatParse(s: string, t: DateTime)
    requires ParseTimestamp(s) == Some(t)
    ensures FormatTimestamp(t) == s
  {
    assert WellFormedTimestamp(s);
    assert t.date.year == DigitsValue(s[0..4]) && t.date.month == DigitsValue(s[5..7])
      && t.date.day == DigitsValue(s[8..10]) && t.hour == DigitsValue(s[11..13])
      && t.minute == DigitsValue(s[14..16]) && t.second == DigitsValue(s[17..19]);
    SliceDigits(s, 0, 4);
    SliceDigits(s, 5, 7);
    SliceDigits(s, 8, 10);
    SliceDigits(s, 11, 13);
    SliceDigits(s, 14, 16);
    SliceDigits(s, 17, 19);
    FormatPieces(t);
    SameLayout(FormatTimestamp(t), s);
  }

  /** Two texts of the timestamp layout with the same six fields are equal. */
  lemma SameLayout(f: string, s: string)
    requires |f| == 19 && |s| == 19
    requires f[0..4] == s[0..4] && f[5..7] == s[5..7] && f[8..10] == s[8..10]
    requires f[11..13] == s[11..13] && f[14..16] == s[14..16] && f[17..19] == s[17..19]
    requires f[4] == s[4] && f[7] == s[7] && f[10] == s[10] && f[13] == s[13] && f[16] == s[16]
    ensures f == s
  {
    forall k | 0 <= k < 19 ensures f[k] == s[k] {
      if k < 4 { assert f[k] == f[0..4][k] && s[k] == s[0..4][k]; }
      else if k == 4 || k == 7 || k == 10 || k == 13 || k == 16 { }
      else if k < 7 { assert f[k] == f[5..7][k - 5] && s[k] == s[5..7][k - 5]; }
      else if k < 10 { assert f[k] == f[8..10][k - 8] && s[k] == s[8..10][k - 8]; }
      else if k < 13 { assert f[k] == f[11..13][k - 11] && s[k] == s[11..13][k - 11]; }
      else if k < 16 { assert f[k] == f[14..16][k - 14] && s[k] == s[14..16][k - 14]; }
      else { assert f[k] == f[17..19][k - 17] && s[k] == s[17..19][k - 17]; }
    }
  }

  /** Text order of dates is calendar order. */
  lemma DateTextOrder(a: Date, b: Date)
    requires ValidDate(a) && ValidDate(b)
    ensures LexLe(DateText(a), DateText(b)) <==> DateLe(a, b)
  {
    FieldStep(a.year, b.year, 4, "-" + (Pad(a.month, 2) + ("-" + Pad(a.day, 2))),
                                 "-" + (Pad(b.month, 2) + ("-" + Pad(b.day, 2))));
    SepStep("-", Pad(a.month, 2) + ("-" + Pad(a.day, 2)), Pad(b.month, 2) + ("-" + Pad(b.day, 2)));
    FieldStep(a.month, b.month, 2, "-" + Pad(a.day, 2), "-" + Pad(b.day, 2));
    SepStep("-", Pad(a.day, 2), Pad(b.day, 2));
    PadOrder(a.day, b.day, 2);
  }

  lemma TimeTextOrder(a: DateTime, b: DateTime)
    requires ValidDateTime(a) && ValidDateTime(b)
    ensures LexLe(TimeText(a.hour, a.minute, a.second), TimeText(b.hour, b.minute, b.second))
      <==> a.hour < b.hour || (a.hour == b.hour
             && (a.minute < b.minute || (a.minute == b.minute && a.second <= b.second)))
  {
    FieldStep(a.hour, b.hour, 2, ":" + (Pad(a.minute, 2) + (":" + Pad(a.second, 2))),
                                 ":" + (Pad(b.minute, 2) + (":" + Pad(b.second, 2))));
    SepStep(":", Pad(a.minute, 2) + (":" + Pad(a.second, 2)), Pad(b.minute, 2) + (":" + Pad(b.second, 2)));
    FieldStep(a.minute, b.minute, 2, ":" + Pad(a.second, 2), ":" + Pad(b.second, 2));
    SepStep(":", Pad(a.second, 2), Pad(b.second, 2));
    PadOrder(a.second, b.second, 2);
  }

  lemma DateTextInjective(a: Date, b: Date)
    requires ValidDate(a) && ValidDate(b) && DateText(a) == DateText(b)
    ensures a == b
  {
    LexLeReflexive(DateText(a));
    DateTextOrder(a, b);
    DateTextOrder(b, a);
  }

  /** For the years Python's datetime can hold (four digits), comparing two
      timestamps as text is comparing them chronologically: this is what the
      log store's `>=`, `<=` and `ORDER BY timestamp` rely on. */
  lemma FormatOrder(a: DateTime, b: DateTime)
    requires ValidDateTime(a) && ValidDateTime(b)
    ensures LexLe(FormatTimestamp(a), FormatTimestamp(b)) <==> ChronoLe(a, b)
  {
    var ta, tb := TimeText(a.hour, a.minute, a.second), TimeText(b.hour, b.minute, b.second);
    LexLeAppend(DateText(a.date), " " + ta, DateText(b.date), " " + tb);
    SepStep(" ", ta, tb);
    TimeTextOrder(a, b);
    DateTextOrder(a.date, b.date);
    if DateText(a.date) == DateText(b.date) {
      DateTextInjective(a.date, b.date);
    }
  }

  // ---------------------------------------------------------------------
  // The record

  /** One probe outcome as `Ping` holds it once constructed. */
  datatype Ping = Ping(result: string, timestamp: string, ipAddress: string)

  /** `Ping(result, ip_address)` at clock reading `now`: the result and the
      address are stored unchanged, and the timestamp is a text of the
      fixed `%Y-%m-%d %H:%M:%S` length (see `NewPingTimestamp`). */
  function NewPing(result: string, ipAddress: string, now: DateTime): (p: Ping)
    requires ValidDateTime(now)
    ensures p.result == result && p.ipAddress == ipAddress
    ensures |p.timestamp| == 19
  {
    FormatWellFormed(now);
    Ping(result, FormatTimestamp(now), ipAddress)
  }

  /** The timestamp of a new `Ping` is well formed and reads back as the
      clock reading it was made from. */
  lemma NewPingTimestamp(result: string, ipAddress: string, now: DateTime)
    requires ValidDateTime(now)
    ensures WellFormedTimestamp(NewPing(result, ipAddress, now).timestamp)
    ensures ParseTimestamp(NewPing(result, ipAddress, now).timestamp) == Some(now)
  {
    FormatWellFormed(now);
    ParseFormat(now);
  }

  /** Pings made later carry timestamps that are not smaller as text. */
  lemma NewPingOrder(r1: string, ip1: string, a: DateTime, r2: string, ip2: string, b: DateTime)
    requires ValidDateTime(a) && ValidDateTime(b)
    ensures LexLe(NewPing(r1, ip1, a).timestamp, NewPing(r2, ip2, b).timestamp) <==> ChronoLe(a, b)
  {
    FormatOrder(a, b);
  }
}
