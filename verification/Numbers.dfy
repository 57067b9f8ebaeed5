/** Unsigned 64-bit numbers as text: `format!` in decimal, `from_str_radix` back. */
module Numbers {
  import opened Options

  const U64_LIMIT: nat := 0x1_0000_0000_0000_0000

  /** The digit's value, or None if `c` is no digit of any radix up to 16. */
  function DigitValue(c: char): Option<nat> {
    if '0' <= c <= '9' then Some(c as nat - '0' as nat)
    else if 'a' <= c <= 'f' then Some(c as nat - 'a' as nat + 10)
    else if 'A' <= c <= 'F' then Some(c as nat - 'A' as nat + 10)
    else None
  }

  predicate IsDigit(c: char, radix: nat) {
    DigitValue(c).Some? && DigitValue(c).value < radix
  }

  predicate AllDigits(s: string, radix: nat) {
    forall i :: 0 <= i < |s| ==> IsDigit(s[i], radix)
  }

  /** Positional value, most significant digit first. */
  function Value(s: string, radix: nat): nat
    requires AllDigits(s, radix)
  {
    if s == [] then 0
    else Value(s[..|s| - 1], radix) * radix + DigitValue(s[|s| - 1]).value
  }

  /** A sign of '+' is accepted, an empty number or an overflow is not. */
  function Parse(s: string, radix: nat): (r: Option<nat>)
    ensures r.Some? ==> r.value < U64_LIMIT
  {
    var digits := if s != [] && s[0] == '+' then s[1..] else s;
    if digits == [] || !AllDigits(digits, radix) then None
    else if Value(digits, radix) >= U64_LIMIT then None
    else Some(Value(digits, radix))
  }

  const DIGITS := "0123456789abcdef"

  /** The number in lower-case digits, without leading zeros. */
  function Printed(n: nat, radix: nat): string
    requires radix == 10 || radix == 16
  {
    if n < radix then [DIGITS[n]] else Printed(n / radix, radix) + [DIGITS[n % radix]]
  }

  function Decimal(n: nat): string { Printed(n, 10) }

  lemma DigitOf(d: nat)
    requires d < 16
    ensures DigitValue(DIGITS[d]) == Some(d)
  {
  }

  lemma ValueOfOneMore(s: string, d: nat, radix: nat)
    requires AllDigits(s, radix) && d < radix <= 16
    ensures AllDigits(s + [DIGITS[d]], radix) && Value(s + [DIGITS[d]], radix) == Value(s, radix) * radix + d
  {
    var t := s + [DIGITS[d]];
    DigitOf(d);
    assert t[..|t| - 1] == s;
  }

  lemma PrintedStep(n: nat, radix: nat) returns (q: nat, d: nat)
    requires (radix == 10 || radix == 16) && n >= radix
    ensures q < n && d < radix && q * radix + d == n
    ensures Printed(n, radix) == Printed(q, radix) + [DIGITS[d]]
  {
    if radix == 10 { q, d := n / 10, n % 10; } else { q, d := n / 16, n % 16; }
  }

  /** Reading a printed number gives it back. */
  lemma {:induction false} PrintedRoundTrip(n: nat, radix: nat)
    requires radix == 10 || radix == 16
    ensures var s := Printed(n, radix);
            s != [] && AllDigits(s, radix) && Value(s, radix) == n
  {
    if n < radix {
      ValueOfOneMore([], n, radix);
      assert [] + [DIGITS[n]] == Printed(n, radix);
    } else {
      var q, d := PrintedStep(n, radix);
      PrintedRoundTrip(q, radix);
      ValueOfOneMore(Printed(q, radix), d, radix);
    }
  }

  lemma ParsePrinted(n: nat, radix: nat)
    requires (radix == 10 || radix == 16) && n < U64_LIMIT
    ensures Parse(Printed(n, radix), radix) == Some(n)
  {
    PrintedRoundTrip(n, radix);
    assert IsDigit(Printed(n, radix)[0], radix);
  }

  lemma DecimalRoundTrip(n: nat)
    ensures Decimal(n) != [] && AllDigits(Decimal(n), 10) && Value(Decimal(n), 10) == n
  {
    PrintedRoundTrip(n, 10);
  }

  lemma DecimalIsInjective(m: nat, n: nat)
    requires Decimal(m) == Decimal(n)
    ensures m == n
  {
    DecimalRoundTrip(m);
    DecimalRoundTrip(n);
  }

  lemma ParseDecimal(n: nat)
    requires n < U64_LIMIT
    ensures Parse(Decimal(n), 10) == Some(n)
  {
    ParsePrinted(n, 10);
  }

  // ---- Which texts are read as a number ----

  function Zeros(n: nat): string {
    if n == 0 then "" else "0" + Zeros(n - 1)
  }

  lemma {:induction false} ValueAfterZero(s: string, radix: nat)
    requires AllDigits(s, radix) && radix > 0
    ensures AllDigits("0" + s, radix) && Value("0" + s, radix) == Value(s, radix)
  {
    var t := "0" + s;
    forall i | 0 <= i < |t| ensures IsDigit(t[i], radix) { if i > 0 { assert t[i] == s[i - 1]; } }
    if s == [] {
      assert t[..0] == [];
    } else {
      ValueAfterZero(s[..|s| - 1], radix);
      assert t[..|t| - 1] == "0" + s[..|s| - 1];
    }
  }

  lemma {:induction false} ValueAfterZeros(n: nat, s: string, radix: nat)
    requires AllDigits(s, radix) && radix > 0
    ensures AllDigits(Zeros(n) + s, radix) && Value(Zeros(n) + s, radix) == Value(s, radix)
  {
    if n == 0 {
      assert Zeros(0) + s == s;
    } else {
      ValueAfterZeros(n - 1, s, radix);
      ValueAfterZero(Zeros(n - 1) + s, radix);
      assert Zeros(n) + s == "0" + (Zeros(n - 1) + s);
    }
  }

  lemma DecimalAppend(q: nat, d: char)
    requires q > 0 && IsDigit(d, 10)
    ensures Decimal(q * 10 + DigitValue(d).value) == Decimal(q) + [d]
  {
    var v := DigitValue(d).value;
    assert DIGITS[v] == d;
    assert (q * 10 + v) / 10 == q && (q * 10 + v) % 10 == v;
  }

  lemma OneDigit(d: char)
    requires IsDigit(d, 10)
    ensures AllDigits([d], 10) && Decimal(Value([d], 10)) == [d] && (d != '0' ==> Value([d], 10) > 0)
  {
    assert [d][..0] == [];
    assert DIGITS[DigitValue(d).value] == d;
  }

  lemma LastDigit(front: string, d: char)
    requires AllDigits(front, 10) && IsDigit(d, 10)
    ensures AllDigits(front + [d], 10) && Value(front + [d], 10) == Value(front, 10) * 10 + DigitValue(d).value
  {
    assert (front + [d])[..|front|] == front;
  }

  /** Digits without a leading zero are the printed form of their value. */
  lemma {:induction false} CanonicalDigits(s: string) returns (n: nat)
    requires s != [] && AllDigits(s, 10) && (|s| > 1 ==> s[0] != '0')
    ensures n == Value(s, 10) && Decimal(n) == s && (s[0] != '0' ==> n > 0)
  {
    var front, last := s[..|s| - 1], s[|s| - 1];
    assert s == front + [last] && IsDigit(last, 10);
    if front == [] {
      assert s == [last];
      OneDigit(last);
      n := Value([last], 10);
    } else {
      assert front[0] == s[0];
      var q := CanonicalDigits(front);
      LastDigit(front, last);
      DecimalAppend(q, last);
      n := q * 10 + DigitValue(last).value;
    }
  }

  lemma {:induction false} LeadingZeros(s: string) returns (n: nat, rest: string)
    requires s != []
    ensures s == Zeros(n) + rest && rest != [] && (|rest| > 1 ==> rest[0] != '0')
  {
    if |s| > 1 && s[0] == '0' {
      n, rest := LeadingZeros(s[1..]);
      assert s == "0" + s[1..];
      assert "0" + (Zeros(n) + rest) == "0" + Zeros(n) + rest;
      n := n + 1;
    } else {
      n, rest := 0, s;
    }
  }

  /** The digits are leading zeros and then the number in decimal. */
  ghost predicate ZerosThen(digits: string, n: nat) {
    exists zeros :: digits == Zeros(zeros) + Decimal(n)
  }

  lemma DigitsOf(digits: string, n: nat)
    requires AllDigits(digits, 10) && digits != []
    ensures Value(digits, 10) == n <==> ZerosThen(digits, n)
  {
    if Value(digits, 10) == n {
      var zeros, rest := LeadingZeros(digits);
      forall i | 0 <= i < |rest| ensures IsDigit(rest[i], 10) { assert rest[i] == digits[|digits| - |rest| + i]; }
      ValueAfterZeros(zeros, rest, 10);
      var m := CanonicalDigits(rest);
    }
    if zeros :| digits == Zeros(zeros) + Decimal(n) {
      DecimalRoundTrip(n);
      ValueAfterZeros(zeros, Decimal(n), 10);
    }
  }

  lemma ZerosThenIsDigits(digits: string, n: nat)
    requires ZerosThen(digits, n)
    ensures digits != [] && AllDigits(digits, 10) && digits[0] != '+'
  {
    var zeros :| digits == Zeros(zeros) + Decimal(n);
    DecimalRoundTrip(n);
    ValueAfterZeros(zeros, Decimal(n), 10);
    assert IsDigit(digits[0], 10);
  }

  lemma ReadsDigitsIff(digits: string, n: nat)
    ensures digits != [] && AllDigits(digits, 10) && Value(digits, 10) == n <==> ZerosThen(digits, n)
  {
    if ZerosThen(digits, n) { ZerosThenIsDigits(digits, n); }
    if digits != [] && AllDigits(digits, 10) { DigitsOf(digits, n); }
  }

  /** Exactly which texts are read as which number: an optional plus sign, any number
      of zeros, and the decimal digits, below two to the sixty-fourth. */
  lemma ParseIff(s: string, n: nat)
    ensures Parse(s, 10) == Some(n) <==>
            && n < 0x1_0000_0000_0000_0000
            && (ZerosThen(s, n) || (s != "" && s[0] == '+' && ZerosThen(s[1..], n)))
  {
    if s != [] && s[0] == '+' {
      ReadsDigitsIff(s[1..], n);
      if ZerosThen(s, n) { ZerosThenIsDigits(s, n); }
    } else {
      ReadsDigitsIff(s, n);
    }
  }

  /** A printed number contains digits only. */
  lemma DecimalHasNo(n: nat, c: char)
    requires !IsDigit(c, 10)
    ensures c !in Decimal(n)
  {
    DecimalRoundTrip(n);
  }
}
