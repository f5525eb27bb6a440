/**
 * Printing of unsigned numbers (source/kernel/tty.cc): the digit loops of `%u`, `%x`, `%llu` and `%llx`,
 * in 32 or 64 bits and in base 10 or 16.
 */
module Digits {
  /** The value of a digit; what is no digit gets a value that no base allows. */
  function DigitValue(c: char): nat {
    if '0' <= c <= '9' then c as int - '0' as int
    else if 'A' <= c <= 'F' then c as int - 'A' as int + 10
    else 255
  }

  function DigitChar(l: nat): (c: char)
    requires l < 16
    ensures DigitValue(c) == l
  {
    if l < 10 then ('0' as int + l) as char else ('A' as int + l - 10) as char
  }

  /** What the string says in the given base. */
  function Value(s: string, base: nat): nat
    decreases |s|
  {
    if s == "" then 0 else Value(s[..|s| - 1], base) * base + DigitValue(s[|s| - 1])
  }

  /** Digits of the base, and no leading zero but in the number zero itself. */
  ghost predicate Canonical(s: string, base: nat) {
    && s != "" && (forall i :: 0 <= i < |s| ==> DigitValue(s[i]) < base)
    && (|s| > 1 ==> DigitValue(s[0]) > 0)
  }

  lemma ValueAppend(s: string, base: nat, c: char)
    ensures Value(s + [c], base) == Value(s, base) * base + DigitValue(c)
  {
  }

  function Pow(base: nat, n: nat): (r: nat)
    requires base > 0
    ensures r > 0
    decreases n
  {
    if n == 0 then 1 else base * Pow(base, n - 1)
  }

  lemma PowUnfold(base: nat, n: nat)
    requires base > 0
    ensures Pow(base, 0) == 1 && (n > 0 ==> Pow(base, n) == base * Pow(base, n - 1))
  {
  }

  lemma EmptyValue(base: nat)
    ensures Value("", base) == 0
  {
  }

  lemma {:induction false} PowMonotone(base: nat, m: nat, n: nat)
    requires base > 0 && m <= n
    ensures Pow(base, m) <= Pow(base, n)
    decreases n - m
  {
    if m < n {
      PowMonotone(base, m, n - 1);
      assert Pow(base, n) >= Pow(base, n - 1);
    }
  }

  /** Dividing once more divides by the next power. */
  lemma DivideOnce(num: nat, base: nat, p: nat, i: nat)
    requires base > 0 && p > 0 && i * p <= num < (i + 1) * p
    ensures i / base * (base * p) <= num < (i / base + 1) * (base * p)
  {
    var q, r := i / base, i % base;
    assert i == q * base + r;
    assert i * p == q * (base * p) + r * p;
    assert r * p <= (base - 1) * p;
    assert r * p >= 0;
  }

  /** The counting loop: one less than the number of digits. */
  method CountDigits(num: nat, base: nat) returns (digit: nat)
    requires base > 1
    ensures num < Pow(base, digit + 1) && (digit > 0 ==> Pow(base, digit) <= num)
  {
    var i := num;
    digit := 0;
    while i >= base
      invariant i * Pow(base, digit) <= num < (i + 1) * Pow(base, digit)
      invariant digit > 0 ==> i > 0
      decreases i
    {
      DivideOnce(num, base, Pow(base, digit), i);
      assert i / base > 0 && i / base < i by { Shrinks(i, base); }
      i := i / base;
      digit := digit + 1;
    }
    AtMost(i + 1, base, Pow(base, digit));
    AtMost(1, if digit > 0 then i else 1, Pow(base, digit));
  }

  lemma Shrinks(i: nat, base: nat)
    requires 1 < base <= i
    ensures 0 < i / base < i
  {
    var q := i / base;
    assert i == q * base + i % base;
    AtMost(2, base, q);
  }

  lemma NoWrap(x: nat, width: nat)
    requires x < width
    ensures x % width == x
  {
  }

  lemma AtMost(a: nat, b: nat, p: nat)
    requires a <= b
    ensures a * p <= b * p
  {
  }

  /** The loop that rebuilds a power, in arithmetic that wraps at `width`. */
  method Rebuild(base: nat, j: nat, width: nat) returns (i: nat)
    requires base > 0 && Pow(base, j) < width
    ensures i == Pow(base, j)
  {
    i := 1;
    var k := 0;
    while k < j
      invariant k <= j && i == Pow(base, k)
    {
      PowMonotone(base, k + 1, j);
      NoWrap(i * base, width);
      i := i * base % width;
      k := k + 1;
    }
  }

  /** The digit at place `j` and what remains below it. */
  lemma Digit(num: nat, base: nat, value: nat, rest: nat, p: nat)
    requires base > 0 && p > 0 && value * (base * p) + rest == num && rest < base * p
    ensures var l := rest / p;
            && l < base && l * p <= rest && rest - l * p < p
            && (value * base + l) * p + (rest - l * p) == num
  {
  }

  /** What the digits printed so far and the number that remains stand for. */
  ghost predicate Split(num: nat, base: nat, s: string, rest: nat, places: nat)
    requires base > 0
  {
    rest < Pow(base, places) && Value(s, base) * Pow(base, places) + rest == num
  }

  /** One turn of the printing loop: the digit at place `j`; the digit is a 32-bit variable. */
  method PrintDigit(ghost num: nat, base: nat, width: nat, s: string, rest: nat, j: nat) returns (l: nat, rest': nat)
    requires 0 < base <= 16 && Pow(base, j) < width && Split(num, base, s, rest, j + 1)
    ensures l < base && Split(num, base, s + [DigitChar(l)], rest', j)
    ensures s == "" ==> (l == 0 ==> num < Pow(base, j))
  {
    var i := Rebuild(base, j, width);
    Digit(num, base, Value(s, base), rest, i);
    NoWrap(rest / i, 0x1_0000_0000);
    l := rest / i % 0x1_0000_0000;
    rest' := rest - l * i;
    ValueAppend(s, base, DigitChar(l));
  }

  /** The printing loop of one number: a canonical numeral that reads back as the number. */
  method Print(num: nat, base: nat, width: nat) returns (s: string)
    requires (base == 10 || base == 16) && num < width && base < width
    ensures Canonical(s, base) && Value(s, base) == num
  {
    hide Value, Pow;
    s := "";
    var digit := CountDigits(num, base);
    var rest := num;
    var j: int := digit;
    StartSplit(num, base, digit + 1);
    while j >= 0
      invariant -1 <= j <= digit && |s| == digit - j && Split(num, base, s, rest, j + 1)
      invariant forall i :: 0 <= i < |s| ==> DigitValue(s[i]) < base
      invariant |s| > 0 && digit > 0 ==> DigitValue(s[0]) > 0
      decreases j
    {
      PowMonotone(base, j, digit);
      PowUnfold(base, 0);
      var l: nat;
      l, rest := PrintDigit(num, base, width, s, rest, j);
      s := s + [DigitChar(l)];
      j := j - 1;
    }
    PowUnfold(base, 0);
  }

  lemma StartSplit(num: nat, base: nat, places: nat)
    requires base > 0 && num < Pow(base, places)
    ensures Split(num, base, "", num, places)
  {
  }

  lemma SameDigit(c: char, d: char)
    requires DigitValue(c) == DigitValue(d) < 16
    ensures c == d
  {
  }

  lemma TwoMore(s: string, base: nat, t: string)
    requires |t| == 2
    ensures Value(s + t, base) == (Value(s, base) * base + DigitValue(t[0])) * base + DigitValue(t[1])
  {
    ValueAppend(s, base, t[0]);
    ValueAppend(s + [t[0]], base, t[1]);
    assert s + t == s + [t[0]] + [t[1]];
  }

  /** What the sixteen digits are worth. */
  lemma KnownNumerals()
    ensures Value("1234567890", 10) == 1234567890 && Value("123456789ABCDEF0", 16) == 0x123456789ABCDEF0
  {
    hide Value;
    EmptyValue(10);
    TwoMore("", 10, "12");
    TwoMore("" + "12", 10, "34");
    TwoMore("" + "12" + "34", 10, "56");
    TwoMore("" + "12" + "34" + "56", 10, "78");
    TwoMore("" + "12" + "34" + "56" + "78", 10, "90");
    assert "" + "12" + "34" + "56" + "78" + "90" == "1234567890";
    KnownHexadecimal();
  }

  lemma KnownHexadecimal()
    ensures Value("123456789ABCDEF0", 16) == 0x123456789ABCDEF0
  {
    hide Value;
    EmptyValue(16);
    TwoMore("", 16, "12");
    TwoMore("" + "12", 16, "34");
    TwoMore("" + "12" + "34", 16, "56");
    TwoMore("" + "12" + "34" + "56", 16, "78");
    TwoMore("" + "12" + "34" + "56" + "78", 16, "9A");
    TwoMore("" + "12" + "34" + "56" + "78" + "9A", 16, "BC");
    TwoMore("" + "12" + "34" + "56" + "78" + "9A" + "BC", 16, "DE");
    TwoMore("" + "12" + "34" + "56" + "78" + "9A" + "BC" + "DE", 16, "F0");
    assert "" + "12" + "34" + "56" + "78" + "9A" + "BC" + "DE" + "F0" == "123456789ABCDEF0";
  }

  /** A numeral of several digits is at least the base. */
  lemma {:induction false} Large(s: string, base: nat)
    requires (base == 10 || base == 16) && Canonical(s, base)
    ensures |s| > 1 ==> Value(s, base) >= base && Canonical(s[..|s| - 1], base) && Value(s[..|s| - 1], base) > 0
    decreases |s|
  {
    if |s| > 1 {
      var p := s[..|s| - 1];
      Large(p, base);
      if |p| == 1 {
        assert p[..0] == "" && Value(p, base) == DigitValue(p[0]);
      }
    }
  }

  lemma OneSplit(a: nat, x: nat, b: nat, y: nat, base: nat)
    requires (base == 10 || base == 16) && a * base + x == b * base + y && x < base && y < base
    ensures a == b && x == y
  {
  }

  /** There is one canonical numeral for a number, so the text that `Print` writes is determined. */
  lemma {:induction false} Unique(s: string, t: string, base: nat)
    requires (base == 10 || base == 16) && Canonical(s, base) && Canonical(t, base) && Value(s, base) == Value(t, base)
    ensures s == t
    decreases |s|
  {
    hide DigitValue, Value;
    Large(s, base);
    Large(t, base);
    EmptyValue(base);
    var p, q, c, d := s[..|s| - 1], t[..|t| - 1], s[|s| - 1], t[|t| - 1];
    assert s == p + [c] && t == q + [d];
    ValueAppend(p, base, c);
    ValueAppend(q, base, d);
    OneSplit(Value(p, base), DigitValue(c), Value(q, base), DigitValue(d), base);
    SameDigit(c, d);
    if |p| > 0 && |q| > 0 {
      Unique(p, q, base);
    }
  }
}
