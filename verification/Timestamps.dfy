/** UTC timestamps, their RFC 3339 text, and how far text order is time order. */
module Timestamps {
  // ----- text order (the byte order SQLite compares with) -----

  predicate TextLess(a: string, b: string) {
    if b == "" then false
    else if a == "" then true
    else a[0] < b[0] || (a[0] == b[0] && TextLess(a[1..], b[1..]))
  }

  lemma {:induction false} TextLessTrichotomy(a: string, b: string)
    ensures !(TextLess(a, b) && TextLess(b, a))
    ensures a == b <==> !TextLess(a, b) && !TextLess(b, a)
  {
    if a != "" && b != "" && a[0] == b[0] {
      TextLessTrichotomy(a[1..], b[1..]);
      assert a == [a[0]] + a[1..] && b == [b[0]] + b[1..];
    }
  }

  lemma {:induction false} TextLessTransitive(a: string, b: string, c: string)
    requires TextLess(a, b) && TextLess(b, c)
    ensures TextLess(a, c)
  {
    if a != "" && a[0] == b[0] && b[0] == c[0] { TextLessTransitive(a[1..], b[1..], c[1..]); }
  }

  /** Texts that start with fields of the same width compare field by field. */
  lemma {:induction false} TextLessField(a: string, x: string, b: string, y: string)
    requires |a| == |b|
    ensures TextLess(a + x, b + y) <==> TextLess(a, b) || (a == b && TextLess(x, y))
    ensures a + x == b + y <==> a == b && x == y
  {
    if a == "" {
      assert a + x == x && b + y == y;
    } else {
      assert (a + x)[1..] == a[1..] + x && (b + y)[1..] == b[1..] + y;
      TextLessField(a[1..], x, b[1..], y);
      assert a == [a[0]] + a[1..] && b == [b[0]] + b[1..];
      assert a + x == [a[0]] + (a + x)[1..] && b + y == [b[0]] + (b + y)[1..];
    }
  }

  // ----- fixed-width decimal fields -----

  function Pow10(n: nat): (p: nat)
    ensures p > 0
  {
    if n == 0 then 1 else 10 * Pow10(n - 1)
  }

  predicate IsDigits(s: string) {
    forall i :: 0 <= i < |s| ==> '0' <= s[i] <= '9'
  }

  function Digits(n: nat, width: nat): (s: string)
    requires n < Pow10(width)
    ensures |s| == width && IsDigits(s)
  {
    if width == 0 then "" else Digits(n / 10, width - 1) + ['0' + (n % 10) as char]
  }

  /** Zero-padded numbers compare as text exactly as they compare as numbers. */
  lemma {:induction false} DigitsOrder(a: nat, b: nat, width: nat)
    requires a < Pow10(width) && b < Pow10(width)
    ensures TextLess(Digits(a, width), Digits(b, width)) <==> a < b
    ensures Digits(a, width) == Digits(b, width) <==> a == b
  {
    if width > 0 {
      DigitsOrder(a / 10, b / 10, width - 1);
      var x, y := ['0' + (a % 10) as char], ['0' + (b % 10) as char];
      TextLessField(Digits(a / 10, width - 1), x, Digits(b / 10, width - 1), y);
      assert x[1..] == "" && y[1..] == "";
      assert a == 10 * (a / 10) + a % 10 && b == 10 * (b / 10) + b % 10;
    }
  }

  // ----- the calendar -----

  predicate Leap(year: nat) {
    year % 4 == 0 && (year % 100 != 0 || year % 400 == 0)
  }

  function MonthLength(year: nat, month: nat): (n: nat)
    ensures n > 0
  {
    if month == 2 then if Leap(year) then 29 else 28
    else if month in {4, 6, 9, 11} then 30
    else 31
  }

  /** Days of `year` before the first of `month`; month 13 stands for the end of the year. */
  function DaysBeforeMonth(year: nat, month: nat): nat
    requires 1 <= month <= 13
  {
    if month == 1 then 0 else DaysBeforeMonth(year, month - 1) + MonthLength(year, month - 1)
  }

  function DaysBeforeYear(year: nat): nat {
    if year == 0 then 0 else DaysBeforeYear(year - 1) + DaysBeforeMonth(year - 1, 13)
  }

  /** Whole multiples of 4, 100 and 400 up to a number, counted when the number moves on by one. */
  lemma QuotientSteps(n: nat)
    requires n > 0
    ensures n / 4 == (n - 1) / 4 + (if n % 4 == 0 then 1 else 0)
    ensures n / 100 == (n - 1) / 100 + (if n % 100 == 0 then 1 else 0)
    ensures n / 400 == (n - 1) / 400 + (if n % 400 == 0 then 1 else 0)
  {
  }

  lemma Multiples(n: nat)
    ensures n % 400 == 0 ==> n % 100 == 0
    ensures n % 100 == 0 ==> n % 4 == 0
  {
    if n % 400 == 0 { assert n == 100 * (4 * (n / 400)); }
    if n % 100 == 0 { assert n == 4 * (25 * (n / 100)); }
  }

  /** The proleptic Gregorian calendar: three leap days are dropped every 400 years. */
  lemma {:induction false} YearStarts(year: nat)
    requires year > 0
    ensures DaysBeforeYear(year) == 365 * year + 1 + (year - 1) / 4 - (year - 1) / 100 + (year - 1) / 400
  {
    MonthStarts(year - 1, 13);
    if year > 1 {
      YearStarts(year - 1);
      QuotientSteps(year - 1);
      Multiples(year - 1);
    }
  }

  /** The twelve months begin where a common year has them, a day later after a leap day. */
  lemma {:induction false} MonthStarts(year: nat, month: nat)
    requires 1 <= month <= 13
    ensures DaysBeforeMonth(year, month)
            == [0, 31, 59, 90, 120, 151, 181, 212, 243, 273, 304, 334, 365][month - 1]
               + (if month > 2 && year % 4 == 0 && (year % 100 != 0 || year % 400 == 0) then 1 else 0)
  {
    if month > 1 { MonthStarts(year, month - 1); }
  }

  datatype Fields = Fields(
    year: nat, month: nat, day: nat, hour: nat, minute: nat, second: nat, nanos: nat)

  ghost predicate Civil(t: Fields) {
    && t.year <= 9999 && 1 <= t.month <= 12 && 1 <= t.day <= MonthLength(t.year, t.month)
    && t.hour < 24 && t.minute < 60 && t.second < 60 && t.nanos < Pow10(9)
  }

  lemma PowFacts()
    ensures Pow10(2) == 100 && Pow10(4) == 10000 && Pow10(9) == 1000000000
  {
    assert Pow10(1) == 10;
    assert Pow10(3) == 1000;
    assert Pow10(5) == 100000;
    assert Pow10(6) == 1000000;
    assert Pow10(7) == 10000000;
    assert Pow10(8) == 100000000;
  }

  /** UTC instants of the years 0000 to 9999. */
  type Timestamp = t: Fields | Civil(t) ghost witness Epoch()

  ghost function Epoch(): (t: Fields)
    ensures Civil(t)
  {
    Fields(1970, 1, 1, 0, 0, 0, 0)
  }

  function DayNumber(year: nat, month: nat, day: nat): nat
    requires 1 <= month <= 12 && 1 <= day
  {
    DaysBeforeYear(year) + DaysBeforeMonth(year, month) + (day - 1)
  }

  /** Whole seconds since the start of the year 0000. */
  function Seconds(t: Timestamp): nat {
    DayNumber(t.year, t.month, t.day) * 86400 + t.hour * 3600 + t.minute * 60 + t.second
  }

  /** The instant itself, in nanoseconds. */
  function Nanos(t: Timestamp): nat {
    Seconds(t) * 1000000000 + t.nanos
  }

  /** Instants are counted without a gap: midnight follows the last nanosecond of the day before. */
  lemma DaysJoin(t: Timestamp, u: Timestamp)
    requires t.hour == 23 && t.minute == 59 && t.second == 59 && t.nanos == 999999999
    requires u.hour == 0 && u.minute == 0 && u.second == 0 && u.nanos == 0
    requires DayNumber(u.year, u.month, u.day) == DayNumber(t.year, t.month, t.day) + 1
    ensures Nanos(u) == Nanos(t) + 1
  {
  }

  lemma {:induction false} MonthsRise(year: nat, m: nat, n: nat)
    requires 1 <= m < n <= 13
    ensures DaysBeforeMonth(year, m) + MonthLength(year, m) <= DaysBeforeMonth(year, n)
  {
    if m + 1 < n { MonthsRise(year, m, n - 1); }
  }

  lemma {:induction false} YearsRise(y: nat, z: nat)
    requires y < z
    ensures DaysBeforeYear(y) + DaysBeforeMonth(y, 13) <= DaysBeforeYear(z)
  {
    if y + 1 < z { YearsRise(y, z - 1); }
  }

  ghost predicate DateLess(a: Fields, b: Fields) {
    a.year < b.year || (a.year == b.year && (a.month < b.month || (a.month == b.month && a.day < b.day)))
  }

  lemma DateOrder(a: Timestamp, b: Timestamp)
    ensures DateLess(a, b) ==> DayNumber(a.year, a.month, a.day) < DayNumber(b.year, b.month, b.day)
  {
    if a.year < b.year {
      YearsRise(a.year, b.year);
      MonthsRise(a.year, a.month, 13);
    } else if a.year == b.year && a.month < b.month {
      MonthsRise(a.year, a.month, b.month);
    }
  }

  function Clock(t: Fields): nat { t.hour * 3600 + t.minute * 60 + t.second }

  ghost predicate ClockLess(a: Fields, b: Fields) {
    a.hour < b.hour || (a.hour == b.hour && (a.minute < b.minute || (a.minute == b.minute && a.second < b.second)))
  }

  /** Comparing the fields from the year down is comparing the instants. */
  lemma FieldOrder(a: Timestamp, b: Timestamp)
    ensures Seconds(a) < Seconds(b) <==>
            DateLess(a, b) || (a.year == b.year && a.month == b.month && a.day == b.day && ClockLess(a, b))
  {
    DateOrder(a, b);
    DateOrder(b, a);
    assert Clock(a) < 86400 && Clock(b) < 86400;
    assert ClockLess(a, b) <==> Clock(a) < Clock(b);
  }

  // ----- RFC 3339 text -----

  /** Drops trailing zeros. */
  function Trim(s: string): string {
    if forall i :: 0 <= i < |s| ==> s[i] == '0' then "" else [s[0]] + Trim(s[1..])
  }

  function Fraction(nanos: nat): string
    requires nanos < Pow10(9)
  {
    if nanos == 0 then "" else "." + Trim(Digits(nanos, 9))
  }

  function DateText(t: Timestamp): (s: string)
    ensures |s| == 10
  {
    PowFacts();
    Digits(t.year, 4) + ("-" + (Digits(t.month, 2) + ("-" + Digits(t.day, 2))))
  }

  function ClockText(t: Timestamp): (s: string)
    ensures |s| == 8
  {
    PowFacts();
    Digits(t.hour, 2) + (":" + (Digits(t.minute, 2) + (":" + Digits(t.second, 2))))
  }

  /** `2026-07-05T18:00:00Z`, with a fraction only when there is one. */
  function Text(t: Timestamp): string {
    DateText(t) + ("T" + (ClockText(t) + (Fraction(t.nanos) + "Z")))
  }

  lemma Separator(sep: string, x: string, y: string)
    ensures TextLess(sep + x, sep + y) <==> TextLess(x, y)
    ensures sep + x == sep + y <==> x == y
  {
    TextLessField(sep, x, sep, y);
    TextLessTrichotomy(sep, sep);
  }

  lemma DateTextOrder(a: Timestamp, b: Timestamp)
    ensures TextLess(DateText(a), DateText(b)) <==> DateLess(a, b)
    ensures DateText(a) == DateText(b) <==> a.year == b.year && a.month == b.month && a.day == b.day
  {
    PowFacts();
    var da, db := Digits(a.day, 2), Digits(b.day, 2);
    var ma, mb := Digits(a.month, 2) + ("-" + da), Digits(b.month, 2) + ("-" + db);
    DigitsOrder(a.day, b.day, 2);
    Separator("-", da, db);
    DigitsOrder(a.month, b.month, 2);
    TextLessField(Digits(a.month, 2), "-" + da, Digits(b.month, 2), "-" + db);
    Separator("-", ma, mb);
    DigitsOrder(a.year, b.year, 4);
    TextLessField(Digits(a.year, 4), "-" + ma, Digits(b.year, 4), "-" + mb);
  }

  lemma ClockTextOrder(a: Timestamp, b: Timestamp)
    ensures TextLess(ClockText(a), ClockText(b)) <==> ClockLess(a, b)
    ensures ClockText(a) == ClockText(b) <==> a.hour == b.hour && a.minute == b.minute && a.second == b.second
  {
    PowFacts();
    var sa, sb := Digits(a.second, 2), Digits(b.second, 2);
    var ma, mb := Digits(a.minute, 2) + (":" + sa), Digits(b.minute, 2) + (":" + sb);
    DigitsOrder(a.second, b.second, 2);
    Separator(":", sa, sb);
    DigitsOrder(a.minute, b.minute, 2);
    TextLessField(Digits(a.minute, 2), ":" + sa, Digits(b.minute, 2), ":" + sb);
    Separator(":", ma, mb);
    DigitsOrder(a.hour, b.hour, 2);
    TextLessField(Digits(a.hour, 2), ":" + ma, Digits(b.hour, 2), ":" + mb);
  }

  /** Text order is the order of whole seconds first, then of the fraction texts. */
  lemma TextOrderBySecond(a: Timestamp, b: Timestamp)
    ensures TextLess(Text(a), Text(b)) <==>
            Seconds(a) < Seconds(b)
            || (Seconds(a) == Seconds(b) && TextLess(Fraction(a.nanos) + "Z", Fraction(b.nanos) + "Z"))
    ensures Seconds(a) == Seconds(b) ==> a.(nanos := 0) == b.(nanos := 0)
    ensures Text(a) == Text(b) ==> Seconds(a) == Seconds(b) && Fraction(a.nanos) + "Z" == Fraction(b.nanos) + "Z"
  {
    var fa, fb := Fraction(a.nanos) + "Z", Fraction(b.nanos) + "Z";
    DateTextOrder(a, b);
    ClockTextOrder(a, b);
    TextLessField(ClockText(a), fa, ClockText(b), fb);
    Separator("T", ClockText(a) + fa, ClockText(b) + fb);
    TextLessField(DateText(a), "T" + (ClockText(a) + fa), DateText(b), "T" + (ClockText(b) + fb));
    FieldOrder(a, b);
    FieldOrder(b, a);
  }

  /** Section 5.1 of RFC 3339: for whole-second UTC times, text order is time order. */
  lemma {:induction false} WholeSecondTextOrder(a: Timestamp, b: Timestamp)
    requires a.nanos == 0 && b.nanos == 0
    ensures TextLess(Text(a), Text(b)) <==> Nanos(a) < Nanos(b)
  {
    TextOrderBySecond(a, b);
    TextLessTrichotomy("Z", "Z");
    assert Fraction(0) + "Z" == "Z";
  }

  // ----- fractional seconds -----

  lemma {:induction false} ZerosLeast(s: string, t: string)
    requires |s| == |t| && IsDigits(s) && IsDigits(t)
    requires forall i :: 0 <= i < |s| ==> s[i] == '0'
    ensures !TextLess(t, s)
    ensures TextLess(s, t) <==> exists i :: 0 <= i < |t| && t[i] != '0'
  {
    if s != "" {
      ZerosLeast(s[1..], t[1..]);
      if t[0] == '0' && TextLess(s, t) {
        var i :| 0 <= i < |t| - 1 && t[1..][i] != '0';
        assert t[i + 1] != '0';
      }
      if i :| 0 <= i < |t| && t[i] != '0' {
        if i > 0 { assert t[1..][i - 1] != '0'; }
      }
    }
  }

  lemma {:induction false} TrimOrder(s: string, t: string)
    requires |s| == |t| && IsDigits(s) && IsDigits(t)
    ensures TextLess(Trim(s), Trim(t)) <==> TextLess(s, t)
    ensures IsDigits(Trim(s)) && IsDigits(Trim(t))
  {
    if s != "" {
      TrimOrder(s[1..], t[1..]);
      if forall i :: 0 <= i < |s| ==> s[i] == '0' { ZerosLeast(s, t); }
      else if forall i :: 0 <= i < |t| ==> t[i] == '0' { ZerosLeast(t, s); }
      else {
        assert Trim(s)[1..] == Trim(s[1..]) && Trim(t)[1..] == Trim(t[1..]);
      }
      if exists i :: 0 <= i < |s| && s[i] != '0' { assert Trim(s) == [s[0]] + Trim(s[1..]); }
      if exists i :: 0 <= i < |t| && t[i] != '0' { assert Trim(t) == [t[0]] + Trim(t[1..]); }
    }
  }

  predicate BelowZ(s: string) { forall i :: 0 <= i < |s| ==> s[i] < 'Z' }

  /** The closing `Z` sorts after every digit, so it swaps a text with its extensions. */
  lemma {:induction false} ClosingZ(p: string, q: string)
    requires BelowZ(p) && BelowZ(q) && TextLess(p, q)
    ensures TextLess(p + "Z", q + "Z") <==> !(p <= q)
  {
    if p == "" {
      assert p + "Z" == "Z";
    } else {
      assert (p + "Z")[1..] == p[1..] + "Z" && (q + "Z")[1..] == q[1..] + "Z";
      if p[0] == q[0] {
        ClosingZ(p[1..], q[1..]);
        assert p == [p[0]] + p[1..] && q == [q[0]] + q[1..];
        if p[1..] <= q[1..] { assert p <= q; }
        if p <= q { assert p[1..] <= q[1..]; }
      }
    }
  }

  lemma FractionOrder(a: nat, b: nat)
    requires a < b < Pow10(9)
    ensures TextLess(Fraction(a), Fraction(b))
    ensures BelowZ(Fraction(a)) && BelowZ(Fraction(b))
  {
    DigitsOrder(a, b, 9);
    TrimOrder(Digits(a, 9), Digits(b, 9));
    if a != 0 { Separator(".", Trim(Digits(a, 9)), Trim(Digits(b, 9))); }
  }

  /** Exactly when text order gets two different times the wrong way round: they fall in the
      same second and the earlier fraction is a prefix of the later one. */
  lemma TextOrderExact(a: Timestamp, b: Timestamp)
    requires Nanos(a) < Nanos(b)
    ensures TextLess(Text(a), Text(b)) <==> !(Seconds(a) == Seconds(b) && Fraction(a.nanos) <= Fraction(b.nanos))
    ensures TextLess(Text(b), Text(a)) <==> Seconds(a) == Seconds(b) && Fraction(a.nanos) <= Fraction(b.nanos)
  {
    PowFacts();
    TextOrderBySecond(a, b);
    TextOrderBySecond(b, a);
    if Seconds(a) == Seconds(b) {
      FractionOrder(a.nanos, b.nanos);
      ClosingZ(Fraction(a.nanos), Fraction(b.nanos));
      TextLessTrichotomy(Fraction(a.nanos) + "Z", Fraction(b.nanos) + "Z");
      var p, q := Fraction(a.nanos), Fraction(b.nanos);
      if p + "Z" == q + "Z" {
        assert |p| == |q| && p == (p + "Z")[..|p|] && q == (q + "Z")[..|q|];
        TextLessTrichotomy(p, q);
      }
    }
  }

  /** Different instants have different texts. */
  lemma {:induction false} TextInjective(a: Timestamp, b: Timestamp)
    ensures Text(a) == Text(b) <==> a == b
  {
    PowFacts();
    TextOrderBySecond(a, b);
    TextLessTrichotomy(Text(a), Text(b));
    if Text(a) == Text(b) && a.nanos != b.nanos {
      if a.nanos < b.nanos { TextOrderExact(a, b); } else { TextOrderExact(b, a); }
    }
  }

  lemma NanosSplit(x: nat, p: nat, y: nat, q: nat)
    requires p < 1000000000 && q < 1000000000 && x * 1000000000 + p == y * 1000000000 + q
    ensures x == y && p == q
  {
  }

  /** An instant has only one way to be written down. */
  lemma {:induction false} NanosInjective(a: Timestamp, b: Timestamp)
    requires Nanos(a) == Nanos(b)
    ensures a == b
  {
    var x, y := Seconds(a), Seconds(b);
    PowFacts();
    NanosSplit(x, a.nanos, y, b.nanos);
    TextOrderBySecond(a, b);
    assert a == a.(nanos := 0).(nanos := a.nanos) && b == b.(nanos := 0).(nanos := b.nanos);
  }

  /** A second apart is enough: text order then is time order whatever the fractions. */
  lemma SecondApart(a: Timestamp, b: Timestamp)
    requires Nanos(a) + 1000000000 <= Nanos(b)
    ensures TextLess(Text(a), Text(b)) && !TextLess(Text(b), Text(a))
  {
    PowFacts();
    TextOrderBySecond(a, b);
    TextOrderBySecond(b, a);
  }

  // ----- the text itself -----

  /** The number a text of digits spells. */
  function Number(s: string): nat
    requires IsDigits(s)
  {
    if s == "" then 0 else 10 * Number(s[..|s| - 1]) + (s[|s| - 1] as nat - '0' as nat)
  }

  lemma {:induction false} DigitsSpell(n: nat, width: nat)
    requires n < Pow10(width)
    ensures Number(Digits(n, width)) == n
  {
    if width > 0 {
      DigitsSpell(n / 10, width - 1);
      var s := Digits(n, width);
      assert s[..|s| - 1] == Digits(n / 10, width - 1);
    }
  }

  lemma {:induction false} TrimExactly(s: string) returns (k: nat)
    ensures k <= |s| && Trim(s) == s[..k]
    ensures k > 0 ==> s[k - 1] != '0'
    ensures forall i :: k <= i < |s| ==> s[i] == '0'
  {
    if forall i :: 0 <= i < |s| ==> s[i] == '0' {
      k := 0;
    } else {
      var rest := TrimExactly(s[1..]);
      k := rest + 1;
      assert s[..k] == [s[0]] + s[1..][..rest];
      if rest == 0 {
        assert forall i :: 1 <= i < |s| ==> s[i] == s[1..][i - 1];
      }
      forall i | k <= i < |s| ensures s[i] == '0' { assert s[i] == s[1..][i - 1]; }
    }
  }

  /** The fraction is left out when it is zero, and otherwise is the nine digits of the nanoseconds
      without trailing zeros. */
  lemma FractionExactly(nanos: nat) returns (k: nat)
    requires nanos < Pow10(9)
    ensures k <= 9 && (k == 0 <==> nanos == 0)
    ensures Fraction(nanos) == if nanos == 0 then "" else "." + Digits(nanos, 9)[..k]
    ensures k > 0 ==> Digits(nanos, 9)[k - 1] != '0'
    ensures forall i :: k <= i < 9 ==> Digits(nanos, 9)[i] == '0'
  {
    var ds := Digits(nanos, 9);
    PowFacts();
    DigitsSpell(nanos, 9);
    k := TrimExactly(ds);
    if k == 0 { AllZeros(ds); }
    if nanos == 0 && k > 0 { NotZero(ds, k - 1); }
  }

  lemma {:induction false} AllZeros(s: string)
    requires IsDigits(s) && forall i :: 0 <= i < |s| ==> s[i] == '0'
    ensures Number(s) == 0
  {
    if s != "" { AllZeros(s[..|s| - 1]); }
  }

  lemma {:induction false} NotZero(s: string, i: nat)
    requires IsDigits(s) && i < |s| && s[i] != '0'
    ensures Number(s) > 0
  {
    var n := |s| - 1;
    if i < n { NotZero(s[..n], i); }
  }

  lemma DateLayout(t: Timestamp, d: string)
    requires d == DateText(t)
    ensures |d| == 10 && d[..4] == Digits(t.year, 4) && d[4] == '-' && d[5..7] == Digits(t.month, 2) && d[7] == '-'
    ensures d[8..10] == Digits(t.day, 2)
  {
    PowFacts();
  }

  lemma ClockLayout(t: Timestamp, c: string)
    requires c == ClockText(t)
    ensures |c| == 8 && c[..2] == Digits(t.hour, 2) && c[2] == ':' && c[3..5] == Digits(t.minute, 2) && c[5] == ':'
    ensures c[6..8] == Digits(t.second, 2)
  {
    PowFacts();
  }

  lemma Assembled(s: string, d: string, c: string, f: string)
    requires |d| == 10 && |c| == 8 && s == d + ("T" + (c + (f + "Z")))
    ensures |s| == 20 + |f| && s[..10] == d && s[10] == 'T' && s[11..19] == c && s[19..|s| - 1] == f && s[|s| - 1] == 'Z'
  {
  }

  /** Section 5.6 of RFC 3339: four digits of year, two each of month, day, hour, minute and second,
      the separators, the fraction, and the zone. */
  lemma TextLayout(t: Timestamp) returns (d: string, c: string)
    ensures var s := Text(t);
            |s| == 20 + |Fraction(t.nanos)| && s[..10] == d && s[10] == 'T' && s[11..19] == c
            && s[19..|s| - 1] == Fraction(t.nanos) && s[|s| - 1] == 'Z'
    ensures |d| == 10 && d[..4] == Digits(t.year, 4) && d[4] == '-' && d[5..7] == Digits(t.month, 2) && d[7] == '-'
    ensures d[8..10] == Digits(t.day, 2)
    ensures |c| == 8 && c[..2] == Digits(t.hour, 2) && c[2] == ':' && c[3..5] == Digits(t.minute, 2) && c[5] == ':'
    ensures c[6..8] == Digits(t.second, 2)
  {
    PowFacts();
    d, c := DateText(t), ClockText(t);
    DateLayout(t, d);
    ClockLayout(t, c);
    Assembled(Text(t), d, c, Fraction(t.nanos));
  }
}
