/** Names of rotated audit-log files (server/auditlog/rotation.go): sorting them
    as strings sorts them by the instant they were rotated at. */
module RotatedNames {
  import Wildcards

  // --- Strings as sort.Strings orders them ----------------------------------------

  predicate LexLess(a: string, b: string) {
    b != "" && (a == "" || a[0] < b[0] || (a[0] == b[0] && LexLess(a[1..], b[1..])))
  }

  lemma {:induction false} LexSamePrefix(p: string, a: string, b: string)
    ensures LexLess(p + a, p + b) <==> LexLess(a, b)
  {
    if p == "" {
      assert p + a == a && p + b == b;
    } else {
      assert (p + a)[0] == p[0] && (p + a)[1..] == p[1..] + a;
      assert (p + b)[0] == p[0] && (p + b)[1..] == p[1..] + b;
      LexSamePrefix(p[1..], a, b);
    }
  }

  lemma {:induction false} LexTotal(a: string, b: string)
    ensures a == b || LexLess(a, b) || LexLess(b, a)
    ensures !(LexLess(a, b) && LexLess(b, a)) && (a == b ==> !LexLess(a, b))
  {
    if a != "" && b != "" && a[0] == b[0] {
      LexTotal(a[1..], b[1..]);
      assert a == [a[0]] + a[1..] && b == [b[0]] + b[1..];
    }
  }

  lemma {:induction false} LexTransitive(a: string, b: string, c: string)
    requires LexLess(a, b) && LexLess(b, c)
    ensures LexLess(a, c)
  {
    if a != "" && a[0] == b[0] == c[0] {
      LexTransitive(a[1..], b[1..], c[1..]);
    }
  }

  // --- Fixed-width decimals ---------------------------------------------------------

  function Digit(d: nat): char
    requires d < 10
  {
    "0123456789"[d]
  }

  function Digits(n: nat, width: nat): (s: string)
    ensures |s| == width
  {
    if width == 0 then "" else Digits(n / 10, width - 1) + [Digit(n % 10)]
  }

  function Pow10(n: nat): nat {
    if n == 0 then 1 else 10 * Pow10(n - 1)
  }

  lemma DigitOrder(c: nat, d: nat)
    requires c < 10 && d < 10
    ensures Digit(c) < Digit(d) <==> c < d
    ensures Digit(c) == Digit(d) <==> c == d
  {}

  /** Fixed-width decimals compare as numbers; what follows breaks ties. */
  lemma {:induction false} DigitsOrder(m: nat, n: nat, width: nat, x: string, y: string)
    requires m < Pow10(width) && n < Pow10(width)
    ensures LexLess(Digits(m, width) + x, Digits(n, width) + y) <==> m < n || (m == n && LexLess(x, y))
  {
    if width == 0 {
      assert "" + x == x && "" + y == y;
    } else {
      var a, b := [Digit(m % 10)] + x, [Digit(n % 10)] + y;
      assert Digits(m, width) + x == Digits(m / 10, width - 1) + a;
      assert Digits(n, width) + y == Digits(n / 10, width - 1) + b;
      DigitsOrder(m / 10, n / 10, width - 1, a, b);
      DigitOrder(m % 10, n % 10);
      assert a[0] == Digit(m % 10) && a[1..] == x && b[0] == Digit(n % 10) && b[1..] == y;
      assert LexLess(a, b) <==> m % 10 < n % 10 || (m % 10 == n % 10 && LexLess(x, y));
    }
  }

  // --- The civil calendar, in UTC ----------------------------------------------------

  predicate Leap(y: nat) {
    y % 4 == 0 && (y % 100 != 0 || y % 400 == 0)
  }

  function DaysIn(y: nat, m: nat): nat {
    if m == 2 then (if Leap(y) then 29 else 28)
    else if m in {4, 6, 9, 11} then 30
    else 31
  }

  function DaysBeforeMonth(y: nat, m: nat): nat
    requires m >= 1
  {
    if m == 1 then 0 else DaysBeforeMonth(y, m - 1) + DaysIn(y, m - 1)
  }

  function DaysBeforeYear(y: nat): nat {
    if y == 0 then 0 else DaysBeforeYear(y - 1) + DaysBeforeMonth(y - 1, 13)
  }

  /** An instant to the second. */
  datatype Instant = Instant(year: nat, month: nat, day: nat, hour: nat, minute: nat, second: nat) {
    predicate Valid() {
      && 1 <= month <= 12 && 1 <= day <= DaysIn(year, month)
      && hour < 24 && minute < 60 && second < 60
    }

    function DayNumber(): nat
      requires Valid()
    {
      DaysBeforeYear(year) + DaysBeforeMonth(year, month) + day
    }

    /** Seconds elapsed since the start of year 0. */
    function Seconds(): nat
      requires Valid()
    {
      DayNumber() * 86400 + hour * 3600 + minute * 60 + second
    }

    /** The layout the name is formatted with has four digits for the year. */
    predicate Printable() {
      Valid() && year <= 9999
    }

    function Date(): string {
      Digits(year, 4) + "-" + Digits(month, 2) + "-" + Digits(day, 2)
    }

    function Time(): string {
      Digits(hour, 2) + "-" + Digits(minute, 2) + "-" + Digits(second, 2)
    }
  }

  predicate DateBefore(s: Instant, t: Instant) {
    s.year < t.year || (s.year == t.year && (s.month < t.month || (s.month == t.month && s.day < t.day)))
  }

  predicate SameDate(s: Instant, t: Instant) {
    s.year == t.year && s.month == t.month && s.day == t.day
  }

  predicate TimeBefore(s: Instant, t: Instant) {
    s.hour < t.hour || (s.hour == t.hour && (s.minute < t.minute || (s.minute == t.minute && s.second < t.second)))
  }

  lemma {:induction false} MonthsAddUp(y: nat, m: nat, n: nat)
    requires 1 <= m < n <= 13
    ensures DaysBeforeMonth(y, m) + DaysIn(y, m) <= DaysBeforeMonth(y, n)
    decreases n
  {
    if m < n - 1 {
      MonthsAddUp(y, m, n - 1);
    }
  }

  lemma {:induction false} YearsAddUp(y: nat, z: nat)
    requires y < z
    ensures DaysBeforeYear(y) + DaysBeforeMonth(y, 13) <= DaysBeforeYear(z)
    decreases z
  {
    if y < z - 1 {
      YearsAddUp(y, z - 1);
    }
  }

  lemma DateOrder(s: Instant, t: Instant)
    requires s.Valid() && t.Valid() && DateBefore(s, t)
    ensures s.DayNumber() < t.DayNumber()
  {
    if s.year < t.year {
      YearsAddUp(s.year, t.year);
      MonthsAddUp(s.year, s.month, 13);
    } else if s.month < t.month {
      MonthsAddUp(s.year, s.month, t.month);
    }
  }

  /** The calendar order of two instants is the order of their seconds. */
  lemma SecondsOrder(s: Instant, t: Instant)
    requires s.Valid() && t.Valid()
    ensures s.Seconds() < t.Seconds() <==> DateBefore(s, t) || (SameDate(s, t) && TimeBefore(s, t))
    ensures s.Seconds() == t.Seconds() <==> s == t
  {
    if DateBefore(s, t) {
      DateOrder(s, t);
    } else if DateBefore(t, s) {
      DateOrder(t, s);
    } else {
      assert s.DayNumber() == t.DayNumber();
    }
  }

  // --- Names ----------------------------------------------------------------------------

  const LIVE := "auditlog.db"
  const PATTERN := "auditlog.*.db"

  /** rotatedName. */
  function RotatedName(t: Instant): string {
    "auditlog." + (t.Date() + ("T" + (t.Time() + "Z.db")))
  }

  /** The name used before the time of day was added. */
  function LegacyName(t: Instant): string {
    "auditlog." + (t.Date() + ".db")
  }

  lemma TwoDigitsOrder(m: nat, n: nat, x: string, y: string)
    requires m < 100 && n < 100
    ensures LexLess(Digits(m, 2) + x, Digits(n, 2) + y) <==> m < n || (m == n && LexLess(x, y))
  {
    assert Pow10(2) == 100;
    DigitsOrder(m, n, 2, x, y);
  }

  lemma DateTextOrder(s: Instant, t: Instant, x: string, y: string)
    requires s.Printable() && t.Printable()
    ensures LexLess(s.Date() + x, t.Date() + y) <==> DateBefore(s, t) || (SameDate(s, t) && LexLess(x, y))
  {
    hide LexLess, Digits;
    var dx, dy := Digits(s.day, 2) + x, Digits(t.day, 2) + y;
    var mx, my := Digits(s.month, 2) + ("-" + dx), Digits(t.month, 2) + ("-" + dy);
    assert s.Date() + x == Digits(s.year, 4) + ("-" + mx);
    assert t.Date() + y == Digits(t.year, 4) + ("-" + my);
    assert Pow10(4) == 10000;
    DigitsOrder(s.year, t.year, 4, "-" + mx, "-" + my);
    LexSamePrefix("-", mx, my);
    TwoDigitsOrder(s.month, t.month, "-" + dx, "-" + dy);
    LexSamePrefix("-", dx, dy);
    TwoDigitsOrder(s.day, t.day, x, y);
  }

  lemma TimeTextOrder(s: Instant, t: Instant, x: string)
    requires s.Printable() && t.Printable() && !LexLess(x, x)
    ensures LexLess(s.Time() + x, t.Time() + x) <==> TimeBefore(s, t)
  {
    hide LexLess, Digits;
    var sx, sy := Digits(s.second, 2) + x, Digits(t.second, 2) + x;
    var mx, my := Digits(s.minute, 2) + ("-" + sx), Digits(t.minute, 2) + ("-" + sy);
    assert s.Time() + x == Digits(s.hour, 2) + ("-" + mx);
    assert t.Time() + x == Digits(t.hour, 2) + ("-" + my);
    TwoDigitsOrder(s.hour, t.hour, "-" + mx, "-" + my);
    LexSamePrefix("-", mx, my);
    TwoDigitsOrder(s.minute, t.minute, "-" + sx, "-" + sy);
    LexSamePrefix("-", sx, sy);
    TwoDigitsOrder(s.second, t.second, x, x);
  }

  /** Lexicographic order of rotated names is chronological order, and two
      instants share a name only when they fall in the same second. */
  lemma NameOrderIsTimeOrder(s: Instant, t: Instant)
    requires s.Printable() && t.Printable()
    ensures LexLess(RotatedName(s), RotatedName(t)) <==> s.Seconds() < t.Seconds()
    ensures RotatedName(s) == RotatedName(t) <==> s == t
  {
    NameOrder(s, t);
    NameOrder(t, s);
    SecondsOrder(s, t);
    SecondsOrder(t, s);
    LexTotal(RotatedName(s), RotatedName(t));
  }

  lemma NameOrder(s: Instant, t: Instant)
    requires s.Printable() && t.Printable()
    ensures LexLess(RotatedName(s), RotatedName(t)) <==>
              DateBefore(s, t) || (SameDate(s, t) && TimeBefore(s, t))
  {
    hide LexLess, Digits;
    var end := "Z.db";
    var x, y := s.Time() + end, t.Time() + end;
    LexSamePrefix("auditlog.", s.Date() + ("T" + x), t.Date() + ("T" + y));
    DateTextOrder(s, t, "T" + x, "T" + y);
    LexSamePrefix("T", x, y);
    LexTotal(end, end);
    TimeTextOrder(s, t, end);
  }

  /** A name in the earlier format sorts before every instant of its own day and
      after every instant of an earlier day. */
  lemma LegacyNameOrder(s: Instant, t: Instant)
    requires s.Printable() && t.Printable()
    ensures LexLess(LegacyName(s), RotatedName(t)) <==> !DateBefore(t, s)
    ensures LexLess(RotatedName(t), LegacyName(s)) <==> DateBefore(t, s)
  {
    var x := "T" + (t.Time() + "Z.db");
    LexSamePrefix("auditlog.", s.Date() + ".db", t.Date() + x);
    DateTextOrder(s, t, ".db", x);
    assert ".db"[0] < x[0];
    LexTotal(LegacyName(s), RotatedName(t));
    LexSamePrefix("auditlog.", t.Date() + x, s.Date() + ".db");
    DateTextOrder(t, s, x, ".db");
  }

  lemma PatternMeans(v: string)
    ensures Wildcards.Glob(PATTERN, v) <==> |v| >= 12 && v[..9] == "auditlog." && v[|v| - 3..] == ".db"
  {
    hide Wildcards.Glob, Wildcards.Spread;
    var parts := ["auditlog.", ".db"];
    assert parts[1..] == [".db"];
    assert Wildcards.Join(parts) == "auditlog." + "*" + ".db" == PATTERN;
    Wildcards.GlobJoin(parts, v);
    if |v| >= 9 {
      Wildcards.SpreadOfOne(".db", v[9..]);
      if |v| >= 12 {
        assert v[9..][|v| - 12..] == v[|v| - 3..];
      }
    }
  }

  /** The prune pattern covers every rotated name, old format included, and
      never the live file. */
  lemma PatternCoversRotated(t: Instant)
    ensures Wildcards.Glob(PATTERN, RotatedName(t)) && Wildcards.Glob(PATTERN, LegacyName(t))
    ensures !Wildcards.Glob(PATTERN, LIVE)
  {
    hide Wildcards.Glob, Digits;
    var x := t.Date() + ("T" + (t.Time() + "Z"));
    assert RotatedName(t) == "auditlog." + x + ".db";
    assert LegacyName(t) == "auditlog." + t.Date() + ".db";
    PatternMeans(RotatedName(t));
    PatternMeans(LegacyName(t));
    PatternMeans(LIVE);
  }

  // --- Reading names back -------------------------------------------------------------

  function Number(s: string): int {
    if s == "" then 0 else Number(s[..|s| - 1]) * 10 + (s[|s| - 1] as int - '0' as int)
  }

  lemma {:induction false} NumberOfDigits(n: nat, width: nat)
    requires n < Pow10(width)
    ensures Number(Digits(n, width)) == n
  {
    if width > 0 {
      NumberOfDigits(n / 10, width - 1);
      var s := Digits(n, width);
      assert s[..|s| - 1] == Digits(n / 10, width - 1);
      DigitValue(n % 10);
    }
  }

  lemma DigitValue(d: nat)
    requires d < 10
    ensures Digit(d) as int - '0' as int == d
  {}

  /** A rotated name can be read back: year, month and day, a T, hour, minute and
      second, a Z. */
  lemma NameReadsBack(t: Instant)
    requires t.Printable()
    ensures
      var n := RotatedName(t);
      && |n| == 32 && n[..9] == "auditlog." && n[28..] == "Z.db"
      && Number(n[9..13]) == t.year && Number(n[14..16]) == t.month && Number(n[17..19]) == t.day
      && Number(n[20..22]) == t.hour && Number(n[23..25]) == t.minute && Number(n[26..28]) == t.second
      && n[13] == n[16] == n[22] == n[25] == '-' && n[19] == 'T'
  {
    NameParts(t);
    assert Pow10(2) == 100 && Pow10(4) == 10000 by {
      assert Pow10(1) == 10 && Pow10(3) == 10 * Pow10(2);
    }
    NumberOfDigits(t.year, 4);
    NumberOfDigits(t.month, 2);
    NumberOfDigits(t.day, 2);
    NumberOfDigits(t.hour, 2);
    NumberOfDigits(t.minute, 2);
    NumberOfDigits(t.second, 2);
    hide Digits, Number, RotatedName;
  }

  lemma NameParts(t: Instant)
    ensures
      var n := RotatedName(t);
      && |n| == 32 && n[..9] == "auditlog." && n[28..] == "Z.db"
      && n[9..13] == Digits(t.year, 4) && n[14..16] == Digits(t.month, 2) && n[17..19] == Digits(t.day, 2)
      && n[20..22] == Digits(t.hour, 2) && n[23..25] == Digits(t.minute, 2) && n[26..28] == Digits(t.second, 2)
      && n[13] == n[16] == n[22] == n[25] == '-' && n[19] == 'T'
  {
    hide Digits;
    DateParts(t);
    TimeParts(t);
    var n := RotatedName(t);
    assert n[9..19] == t.Date() && n[20..28] == t.Time();
    assert n[9..13] == n[9..19][..4] && n[14..16] == n[9..19][5..7] && n[17..19] == n[9..19][8..];
    assert n[20..22] == n[20..28][..2] && n[23..25] == n[20..28][3..5] && n[26..28] == n[20..28][6..];
    assert n[13] == n[9..19][4] && n[16] == n[9..19][7] && n[22] == n[20..28][2] && n[25] == n[20..28][5];
  }

  lemma DateParts(t: Instant)
    ensures
      var d := t.Date();
      && |d| == 10 && d[..4] == Digits(t.year, 4) && d[5..7] == Digits(t.month, 2) && d[8..] == Digits(t.day, 2)
      && d[4] == d[7] == '-'
  {
    hide Digits;
  }

  lemma TimeParts(t: Instant)
    ensures
      var d := t.Time();
      && |d| == 8 && d[..2] == Digits(t.hour, 2) && d[3..5] == Digits(t.minute, 2) && d[6..] == Digits(t.second, 2)
      && d[2] == d[5] == '-'
  {
    hide Digits;
  }
}
