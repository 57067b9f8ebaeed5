/** Token expiry dates: day-number arithmetic and the timestamp parser. */
module Calendar {
  import opened Options
  import opened Numbers

  // ---- The code ----

  /** Days from 1970-01-01, in closed form over years that start in March. */
  function ClosedForm(year: int, month: int, d: int): int {
    var (y, m) := if month <= 2 then (year - 1, month + 12) else (year, month);
    var era := y / 400;
    var yoe := y - era * 400;
    var doy := (153 * (m - 3) + 2) / 5 + d - 1;
    var doe := yoe * 365 + yoe / 4 - yoe / 100 + doy;
    era * 146097 + doe - 719468
  }

  predicate InGuard(y: nat, m: nat, d: nat) {
    1970 <= y <= 2100 && 1 <= m <= 12 && 1 <= d <= 31
  }

  function DaysSinceEpoch(y: nat, m: nat, d: nat): Option<int> {
    if InGuard(y, m, d) then Some(ClosedForm(y, m, d)) else None
  }

  predicate IsSeparator(c: char) { c == ' ' || c == '-' || c == ':' }

  function FirstSeparator(s: string): (k: nat)
    ensures k <= |s| && (k < |s| ==> IsSeparator(s[k]))
    ensures forall i :: 0 <= i < k ==> !IsSeparator(s[i])
  {
    if s == [] || IsSeparator(s[0]) then 0 else 1 + FirstSeparator(s[1..])
  }

  function Split(s: string): (r: seq<string>)
    ensures r != []
  {
    var k := FirstSeparator(s);
    if k == |s| then [s] else [s[..k]] + Split(s[k + 1..])
  }

  /** Six numbers as read: year, month, day, hour, minute, second. */
  datatype Stamp = Stamp(y: nat, mo: nat, d: nat, h: nat, mi: nat, s: nat)

  predicate Numeric(field: string) { Parse(field, 10).Some? }

  function ReadNumber(field: string): nat
    requires Numeric(field)
  {
    Parse(field, 10).value
  }

  /** The first six fields must be numbers; anything after them is ignored. */
  function ReadStamp(parts: seq<string>): Option<Stamp> {
    if |parts| < 6 || !(forall i :: 0 <= i < 6 ==> Numeric(parts[i])) then None
    else Some(Stamp(ReadNumber(parts[0]), ReadNumber(parts[1]), ReadNumber(parts[2]),
                    ReadNumber(parts[3]), ReadNumber(parts[4]), ReadNumber(parts[5])))
  }

  /** The sum wraps at 64 bits. */
  function StampValue(t: Stamp): Option<nat> {
    var days := DaysSinceEpoch(t.y, t.mo, t.d);
    if days.None? then None
    else Some((days.value * 86400 + t.h * 3600 + t.mi * 60 + t.s) % U64_LIMIT)
  }

  function ExpiresUnix(s: string): Option<nat> {
    var t := ReadStamp(Split(s));
    if t.None? then None else StampValue(t.value)
  }

  // ---- A plain calendar ----

  predicate Leap(y: int) { y % 4 == 0 && (y % 100 != 0 || y % 400 == 0) }

  function MonthLength(y: int, m: int): nat
    requires 1 <= m <= 12
  {
    if m == 2 then (if Leap(y) then 29 else 28)
    else if m == 4 || m == 6 || m == 9 || m == 11 then 30
    else 31
  }

  function YearLength(y: int): nat { if Leap(y) then 366 else 365 }

  function DaysToYear(y: nat): nat
    requires y >= 1970
  {
    if y == 1970 then 0 else DaysToYear(y - 1) + YearLength(y - 1)
  }

  function DaysToMonth(y: nat, m: nat): nat
    requires 1 <= m <= 13
  {
    if m == 1 then 0 else DaysToMonth(y, m - 1) + MonthLength(y, m - 1)
  }

  /** Counting years, months and days one by one. */
  function PlainDays(y: nat, m: nat, d: nat): int
    requires y >= 1970 && 1 <= m <= 12
  {
    DaysToYear(y) + DaysToMonth(y, m) + d - 1
  }

  // ---- The closed form counts days ----

  /** Whole years since year 0, leap days included. */
  function Years(z: int): int { 365 * z + z / 4 - z / 100 + z / 400 }

  lemma ErasCollapse(z: nat)
    ensures var era := z / 400; var yoe := z - era * 400;
            era * 146097 + yoe * 365 + yoe / 4 - yoe / 100 == Years(z)
  {
    var era := z / 400;
    var yoe := z - era * 400;
    assert z == 400 * era + yoe && 0 <= yoe < 400;
    assert z / 4 == 100 * era + yoe / 4;
    assert z / 100 == 4 * era + yoe / 100;
  }

  lemma YearStep(z: nat)
    requires z > 0
    ensures Years(z) - Years(z - 1) == YearLength(z)
  {
    QuotientStep(z, 4);
    QuotientStep(z, 100);
    QuotientStep(z, 400);
    LeapCount(z);
  }

  lemma LeapCount(z: nat)
    ensures (if Leap(z) then 1 else 0)
            == (if z % 4 == 0 then 1 else 0) - (if z % 100 == 0 then 1 else 0) + (if z % 400 == 0 then 1 else 0)
  {
    Factors(z, 100, 4);
    Factors(z, 4, 25);
  }

  lemma Factors(z: nat, a: nat, b: nat)
    requires a > 0 && b > 0
    ensures z % (a * b) == 0 ==> z % a == 0
  {
    if z % (a * b) == 0 {
      var q := z / (a * b);
      assert z == a * (b * q);
      QuotientIs(z, a, b * q, 0);
    }
  }

  lemma QuotientStep(z: nat, q: nat)
    requires z > 0 && q > 0
    ensures z / q - (z - 1) / q == if z % q == 0 then 1 else 0
  {
    var k, r := z / q, z % q;
    assert z == q * k + r && 0 <= r < q;
    if r == 0 {
      assert z - 1 == q * (k - 1) + (q - 1);
      QuotientIs(z - 1, q, k - 1, q - 1);
    } else {
      QuotientIs(z - 1, q, k, r - 1);
    }
  }

  lemma QuotientIs(n: int, q: nat, k: int, r: nat)
    requires q > 0 && n == q * k + r && r < q
    ensures n / q == k && n % q == r
  {
    var d := n / q - k;
    assert n == q * (n / q) + n % q;
    assert q * d == r - n % q;
    assert d >= 1 ==> q * d >= q;
    assert d <= -1 ==> q * d <= 0 - q;
  }

  lemma {:induction false} YearsCountDays(y: nat)
    requires y >= 1970
    ensures DaysToYear(y) == Years(y - 1) - 719162
  {
    if y > 1970 {
      YearsCountDays(y - 1);
      YearStep(y - 1);
    }
  }

  /** Days before a month, from the first of January. */
  lemma MonthsCountDays(y: nat, m: nat)
    requires 1 <= m <= 12
    ensures m == 1 ==> DaysToMonth(y, m) == 0
    ensures m == 2 ==> DaysToMonth(y, m) == 31
    ensures m >= 3 ==> DaysToMonth(y, m) == 59 + (if Leap(y) then 1 else 0) + (153 * (m - 3) + 2) / 5
  {
    if m > 1 { MonthsCountDays(y, m - 1); }
  }

  /** The closed form is the plain count, for every year, month and day number. */
  lemma ClosedFormCountsDays(y: nat, m: nat, d: nat)
    requires y >= 1970 && 1 <= m <= 12
    ensures ClosedForm(y, m, d) == PlainDays(y, m, d)
  {
    if m <= 2 {
      EarlyMonths(y, m, d);
    } else {
      LateMonths(y, m, d);
    }
  }

  lemma EarlyMonths(y: nat, m: nat, d: nat)
    requires y >= 1970 && 1 <= m <= 2
    ensures ClosedForm(y, m, d) == PlainDays(y, m, d)
  {
    ErasCollapse(y - 1);
    assert (153 * (m + 12 - 3) + 2) / 5 == if m == 1 then 306 else 337;
    YearsCountDays(y);
    MonthsCountDays(y, m);
  }

  lemma LateMonths(y: nat, m: nat, d: nat)
    requires y >= 1970 && 3 <= m <= 12
    ensures ClosedForm(y, m, d) == PlainDays(y, m, d)
  {
    ErasCollapse(y);
    YearsCountDays(y);
    YearStep(y);
    MonthsCountDays(y, m);
  }

  // ---- Order ----

  predicate RealStamp(t: Stamp) {
    && 1970 <= t.y <= 2100 && 1 <= t.mo <= 12 && 1 <= t.d <= MonthLength(t.y, t.mo)
    && t.h < 24 && t.mi < 60 && t.s < 60
  }

  function Seconds(t: Stamp): int
    requires t.y >= 1970 && 1 <= t.mo <= 12
  {
    PlainDays(t.y, t.mo, t.d) * 86400 + t.h * 3600 + t.mi * 60 + t.s
  }

  predicate EarlierDate(a: Stamp, b: Stamp) {
    a.y < b.y || (a.y == b.y && (a.mo < b.mo || (a.mo == b.mo && a.d < b.d)))
  }

  predicate SameDate(a: Stamp, b: Stamp) { a.y == b.y && a.mo == b.mo && a.d == b.d }

  predicate Earlier(a: Stamp, b: Stamp) {
    || EarlierDate(a, b)
    || (SameDate(a, b) && (a.h < b.h || (a.h == b.h && (a.mi < b.mi || (a.mi == b.mi && a.s < b.s)))))
  }

  lemma {:induction false} MonthsFit(y: nat, m: nat, m': nat)
    requires 1 <= m < m' <= 13
    ensures DaysToMonth(y, m) + MonthLength(y, m) <= DaysToMonth(y, m')
    decreases m'
  {
    if m' > m + 1 { MonthsFit(y, m, m' - 1); }
  }

  lemma MonthsFillYear(y: nat)
    ensures DaysToMonth(y, 13) == YearLength(y)
  {
    MonthsCountDays(y, 12);
    assert MonthLength(y, 12) == 31;
  }

  lemma {:induction false} YearsFit(y: nat, y': nat)
    requires 1970 <= y < y'
    ensures DaysToYear(y) + YearLength(y) <= DaysToYear(y')
  {
    if y' > y + 1 { YearsFit(y, y' - 1); }
  }

  lemma DatesIncrease(a: Stamp, b: Stamp)
    requires RealStamp(a) && RealStamp(b) && EarlierDate(a, b)
    ensures PlainDays(a.y, a.mo, a.d) < PlainDays(b.y, b.mo, b.d)
  {
    if a.y < b.y {
      YearsFit(a.y, b.y);
      MonthsFillYear(a.y);
      MonthsFit(a.y, a.mo, 13);
    } else if a.mo < b.mo {
      MonthsFit(a.y, a.mo, b.mo);
    }
  }

  /** Later timestamps have larger values. */
  lemma SecondsIncrease(a: Stamp, b: Stamp)
    requires RealStamp(a) && RealStamp(b) && Earlier(a, b)
    ensures Seconds(a) < Seconds(b)
  {
    if EarlierDate(a, b) { DatesIncrease(a, b); }
  }

  /** The guard lets day 31 pass in every month: such a date counts on into the next one. */
  lemma ImpossibleDaySpillsOver(y: nat, m: nat, d: nat)
    requires InGuard(y, m, d) && m < 12 && d > MonthLength(y, m)
    ensures DaysSinceEpoch(y, m, d) == DaysSinceEpoch(y, m + 1, d - MonthLength(y, m))
  {
    ClosedFormCountsDays(y, m, d);
    ClosedFormCountsDays(y, m + 1, d - MonthLength(y, m));
  }

  // ---- Reading a printed timestamp ----

  function TwoDigits(n: nat): string { if n < 10 then "0" + Decimal(n) else Decimal(n) }

  function Joined(fields: seq<string>, seps: string): string
    requires |fields| == |seps| + 1
  {
    if seps == [] then fields[0] else fields[0] + [seps[0]] + Joined(fields[1..], seps[1..])
  }

  function FieldsOf(t: Stamp): seq<string> {
    [Decimal(t.y), TwoDigits(t.mo), TwoDigits(t.d), TwoDigits(t.h), TwoDigits(t.mi), TwoDigits(t.s)]
  }

  /** "%Y-%m-%d %H:%M:%S". */
  function Text(t: Stamp): string { Joined(FieldsOf(t), "-- ::") }

  lemma SplitAt(field: string, sep: char, rest: string)
    requires IsSeparator(sep) && Unsplit(field)
    ensures Split(field + [sep] + rest) == [field] + Split(rest)
  {
    var s := field + [sep] + rest;
    var k := FirstSeparator(s);
    assert s[|field|] == sep;
    assert forall i :: 0 <= i < |field| ==> s[i] == field[i];
    assert k == |field|;
    assert s[..k] == field && s[k + 1..] == rest;
  }

  lemma SplitLast(field: string)
    requires Unsplit(field)
    ensures Split(field) == [field]
  {
  }

  /** `field` reads as `n` and survives splitting. */
  predicate Reads(field: string, n: nat) {
    Parse(field, 10) == Some(n) && Unsplit(field)
  }

  lemma DecimalReads(n: nat)
    requires n < U64_LIMIT
    ensures Reads(Decimal(n), n)
  {
    DecimalRoundTrip(n);
    ParseDecimal(n);
    forall i | 0 <= i < |Decimal(n)| ensures !IsSeparator(Decimal(n)[i]) {
      assert IsDigit(Decimal(n)[i], 10);
    }
  }

  lemma TwoDigitsRead(n: nat)
    requires n < 100
    ensures Reads(TwoDigits(n), n)
  {
    DecimalReads(n);
    if n < 10 {
      var s := TwoDigits(n);
      DigitOf(n);
      DigitOf(0);
      assert s == [DIGITS[0], DIGITS[n]];
      assert s[..1] == [DIGITS[0]] && s[..1][..0] == [];
      assert Value(s[..1], 10) == 0;
      assert Value(s, 10) == n;
    }
  }

  predicate Unsplit(field: string) {
    forall i :: 0 <= i < |field| ==> !IsSeparator(field[i])
  }

  lemma {:induction false} SplitJoined(fields: seq<string>, seps: string)
    requires |fields| == |seps| + 1 && forall i :: 0 <= i < |seps| ==> IsSeparator(seps[i])
    requires forall i :: 0 <= i < |fields| ==> Unsplit(fields[i])
    ensures Split(Joined(fields, seps)) == fields
  {
    if seps == [] {
      SplitLast(fields[0]);
      assert fields == [fields[0]];
    } else {
      SplitJoined(fields[1..], seps[1..]);
      SplitAt(fields[0], seps[0], Joined(fields[1..], seps[1..]));
      assert fields == [fields[0]] + fields[1..];
    }
  }

  /** The field for each part of a timestamp. */
  function PartOf(t: Stamp, i: nat): nat
    requires i < 6
  {
    if i == 0 then t.y else if i == 1 then t.mo else if i == 2 then t.d
    else if i == 3 then t.h else if i == 4 then t.mi else t.s
  }

  lemma JoinedReadsBack(fields: seq<string>, seps: string, t: Stamp)
    requires |fields| == 6 && |seps| == 5 && forall i :: 0 <= i < 5 ==> IsSeparator(seps[i])
    requires forall i :: 0 <= i < 6 ==> Reads(fields[i], PartOf(t, i))
    ensures ReadStamp(Split(Joined(fields, seps))) == Some(t)
  {
    SplitJoined(fields, seps);
    assert forall i :: 0 <= i < 6 ==> Numeric(fields[i]) && ReadNumber(fields[i]) == PartOf(t, i);
  }

  lemma FieldReads(t: Stamp, i: nat)
    requires RealStamp(t) && i < 6
    ensures Reads(FieldsOf(t)[i], PartOf(t, i))
  {
    if i == 0 { DecimalReads(t.y); } else { TwoDigitsRead(PartOf(t, i)); }
  }

  lemma StampValueIsExact(t: Stamp)
    requires RealStamp(t)
    ensures StampValue(t) == Some(Seconds(t))
  {
    var days := PlainDays(t.y, t.mo, t.d);
    ClosedFormCountsDays(t.y, t.mo, t.d);
    assert DaysSinceEpoch(t.y, t.mo, t.d) == Some(days);
    SecondsInRange(t);
    SmallMod(Seconds(t), U64_LIMIT);
  }

  lemma SmallMod(n: int, m: int)
    requires 0 <= n < m
    ensures n % m == n
  {
  }

  /** The parser returns the true second count of every real timestamp. */
  lemma ExpiryIsExact(t: Stamp)
    requires RealStamp(t)
    ensures ExpiresUnix(Text(t)) == Some(Seconds(t))
  {
    forall i | 0 <= i < 6 ensures Reads(FieldsOf(t)[i], PartOf(t, i)) { FieldReads(t, i); }
    JoinedReadsBack(FieldsOf(t), "-- ::", t);
    StampValueIsExact(t);
  }

  lemma SecondsInRange(t: Stamp)
    requires RealStamp(t)
    ensures 0 <= Seconds(t) < U64_LIMIT
  {
    YearsCountDays(t.y);
    MonthsCountDays(t.y, t.mo);
  }

  /** Exactly which texts have a value: six fields or more, the first six numbers, the
      year from 1970 to 2100, the month from 1 to 12 and the day from 1 to 31. */
  lemma ReadableIff(s: string)
    ensures ExpiresUnix(s).Some? <==>
            && |Split(s)| >= 6
            && (forall i :: 0 <= i < 6 ==> Parse(Split(s)[i], 10).Some?)
            && 1970 <= Parse(Split(s)[0], 10).value <= 2100
            && 1 <= Parse(Split(s)[1], 10).value <= 12
            && 1 <= Parse(Split(s)[2], 10).value <= 31
  {
  }

  /** `expires_unix` is strictly increasing on printed timestamps. */
  lemma ExpiryIncreases(a: Stamp, b: Stamp)
    requires RealStamp(a) && RealStamp(b) && Earlier(a, b)
    ensures ExpiresUnix(Text(a)).Some? && ExpiresUnix(Text(b)).Some?
    ensures ExpiresUnix(Text(a)).value < ExpiresUnix(Text(b)).value
  {
    ExpiryIsExact(a);
    ExpiryIsExact(b);
    SecondsIncrease(a, b);
  }
}
