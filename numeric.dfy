/**
 * Integer text: the digits printf writes for %d, %ld and %o, and the lenient
 * parse of atoi/atol (leading white space, an optional sign, the longest run
 * of decimal digits, 0 when there is none).
 */
module Numeric {

  predicate IsDigit(c: char)
  {
    '0' <= c <= '9'
  }

  predicate AllDigits(t: string)
  {
    forall j :: 0 <= j < |t| ==> IsDigit(t[j])
  }

  function DigitChar(d: nat): (c: char)
    requires d < 10
    ensures IsDigit(c)
  {
    ('0' as int + d) as char
  }

  function DigitVal(c: char): nat
    requires IsDigit(c)
  {
    c as int - '0' as int
  }

  function Pow(b: nat, k: nat): nat
  {
    if k == 0 then 1 else b * Pow(b, k - 1)
  }

  /** The digits of `n` in `base`, most significant first, without leading zeros. */
  function Digits(n: nat, base: nat): (t: string)
    requires 2 <= base <= 10
    ensures |t| > 0 && AllDigits(t)
    ensures forall j :: 0 <= j < |t| ==> DigitVal(t[j]) < base
    decreases n
  {
    if n < base then [DigitChar(n)]
    else
      DivModBounds(n, base);
      Digits(n / base, base) + [DigitChar(n % base)]
  }

  lemma DivModBounds(n: nat, base: nat)
    requires 2 <= base <= n
    ensures n / base < n && n % base < base
  {
  }

  /** The number a run of digits denotes in `base`. */
  function Value(t: string, base: nat): nat
    requires AllDigits(t)
  {
    if t == [] then 0 else Value(t[..|t| - 1], base) * base + DigitVal(t[|t| - 1])
  }

  /** Signed decimal text, as printf's %d and %ld write it. */
  function Dec(n: int): string
  {
    if n < 0 then "-" + Digits(-n, 10) else Digits(n, 10)
  }

  /** `t` preceded by enough '0' characters to make it `width` long (the 0 flag of printf). */
  function PadLeft(t: string, width: nat): string
  {
    if |t| < width then Zeros(width - |t|) + t else t
  }

  function Zeros(k: nat): (z: string)
    ensures |z| == k && forall j :: 0 <= j < k ==> z[j] == '0'
  {
    if k == 0 then [] else "0" + Zeros(k - 1)
  }

  /** The characters isspace accepts in the C locale. */
  predicate IsSpace(c: char)
  {
    c == ' ' || c == '\t' || c == '\n' || c == '\U{0B}' || c == '\U{0C}' || c == '\r'
  }

  function SkipSpace(t: string): (u: string)
    ensures |u| <= |t| && u == t[|t| - |u|..]
    ensures u == [] || !IsSpace(u[0])
  {
    if |t| > 0 && IsSpace(t[0]) then SkipSpace(t[1..]) else t
  }

  /** The longest prefix of `t` made of decimal digits. */
  function DigitPrefix(t: string): (d: string)
    ensures |d| <= |t| && d == t[..|d|] && AllDigits(d)
    ensures |d| == |t| || !IsDigit(t[|d|])
  {
    if |t| > 0 && IsDigit(t[0]) then [t[0]] + DigitPrefix(t[1..]) else []
  }

  /** atoi and atol: no error is ever reported; text that is not a number reads as 0. */
  function Atoi(t: string): int
  {
    var u := SkipSpace(t);
    if |u| > 0 && u[0] == '-' then -(Value(DigitPrefix(u[1..]), 10) as int)
    else if |u| > 0 && u[0] == '+' then Value(DigitPrefix(u[1..]), 10)
    else Value(DigitPrefix(u), 10)
  }

  /** Decimal text without white space, '+', "-0" or leading zeros: the text Dec writes. */
  predicate IsCanonicalNat(t: string)
  {
    |t| > 0 && AllDigits(t) && (t[0] == '0' ==> |t| == 1)
  }

  predicate IsDecimal(t: string)
  {
    IsCanonicalNat(t) || (|t| >= 2 && t[0] == '-' && t[1] != '0' && IsCanonicalNat(t[1..]))
  }

  /** No digit follows the leading white space and the optional sign: atoi finds no number. */
  predicate NoLeadingNumber(t: string)
  {
    var u := SkipSpace(t);
    var d := if |u| > 0 && (u[0] == '-' || u[0] == '+') then u[1..] else u;
    d == [] || !IsDigit(d[0])
  }

  /** A text with no digit after its white space and optional sign ("", "-", "+x", "rw") reads as 0. */
  lemma AtoiNonNumeric(t: string)
    requires NoLeadingNumber(t)
    ensures Atoi(t) == 0
  {
  }

  lemma {:induction false} DigitPrefixAll(t: string)
    requires AllDigits(t)
    ensures DigitPrefix(t) == t
  {
    if |t| > 0 {
      DigitPrefixAll(t[1..]);
    }
  }

  /** Reading back the digits of `n` gives `n`. */
  lemma {:induction false} ValueOfDigits(n: nat, base: nat)
    requires 2 <= base <= 10
    ensures Value(Digits(n, base), base) == n
    decreases n
  {
    if n < base {
      ValueOfOneDigit(n, base);
    } else {
      var q := n / base;
      ValueOfDigits(q, base);
      ValueOfDigitsStep(n, base, q, n % base);
    }
  }

  lemma ValueOfOneDigit(n: nat, base: nat)
    requires 2 <= base <= 10 && n < base
    ensures Value(Digits(n, base), base) == n
  {
    ValueSnoc([], DigitChar(n), base);
    assert [] + [DigitChar(n)] == Digits(n, base);
  }

  lemma ValueOfDigitsStep(n: nat, base: nat, q: nat, d: nat)
    requires 2 <= base <= 10 && n >= base && q == n / base && d == n % base
    requires Value(Digits(q, base), base) == q
    ensures Value(Digits(n, base), base) == n
  {
    var u := Digits(q, base);
    assert Digits(n, base) == u + [DigitChar(d)];
    ValueSnoc(u, DigitChar(d), base);
    DivMod(n, base, q, d);
  }

  lemma DivMod(n: nat, base: nat, q: nat, d: nat)
    requires base > 0 && q == n / base && d == n % base
    ensures q * base + d == n
  {
  }

  /** Appending a digit multiplies by the base and adds the digit. */
  lemma ValueSnoc(u: string, c: char, base: nat)
    requires AllDigits(u) && IsDigit(c)
    ensures AllDigits(u + [c]) && Value(u + [c], base) == Value(u, base) * base + DigitVal(c)
  {
    assert (u + [c])[..|u|] == u;
  }

  /** Only zero is written "0"; every other number starts with a non-zero digit. */
  lemma {:induction false} DigitsLeading(n: nat, base: nat)
    requires 2 <= base <= 10
    ensures Digits(n, base)[0] != '0' || n == 0
    ensures n == 0 ==> Digits(n, base) == "0"
    decreases n
  {
    if n < base {
      DigitsOne(n, base);
    } else {
      var q := n / base;
      DivPositive(n, base);
      DigitsLeading(q, base);
      DigitsFirst(n, base, q);
    }
  }

  lemma DigitsOne(n: nat, base: nat)
    requires 2 <= base <= 10 && n < base
    ensures Digits(n, base) == [DigitChar(n)] && (n == 0 ==> Digits(n, base) == "0")
    ensures n != 0 ==> DigitChar(n) != '0'
  {
  }

  lemma DigitsFirst(n: nat, base: nat, q: nat)
    requires 2 <= base <= n && base <= 10 && q == n / base
    ensures Digits(n, base)[0] == Digits(q, base)[0]
  {
  }

  lemma DivPositive(n: nat, base: nat)
    requires 1 <= base <= n
    ensures n / base >= 1
  {
  }

  /** Leading '0' characters do not change the value of a run of digits. */
  lemma {:induction false} ValueOfZeros(k: nat, t: string, base: nat)
    requires AllDigits(t)
    ensures AllDigits(Zeros(k) + t) && Value(Zeros(k) + t, base) == Value(t, base)
    decreases |t|
  {
    var z := Zeros(k) + t;
    if t == [] {
      assert z == Zeros(k);
      ValueOfAllZeros(k, base);
    } else {
      assert z[..|z| - 1] == Zeros(k) + t[..|t| - 1];
      ValueOfZeros(k, t[..|t| - 1], base);
    }
  }

  lemma {:induction false} ValueOfAllZeros(k: nat, base: nat)
    ensures Value(Zeros(k), base) == 0
  {
    if k > 0 {
      var z := Zeros(k);
      assert z[..k - 1] == Zeros(k - 1);
      ValueOfAllZeros(k - 1, base);
    }
  }

  lemma {:induction false} PowAdd(b: nat, j: nat, k: nat)
    ensures Pow(b, j + k) == Pow(b, j) * Pow(b, k)
    decreases k
  {
    if k > 0 {
      PowAdd(b, j, k - 1);
      assert Pow(b, j + k) == b * Pow(b, j + k - 1);
    }
  }

  /** A number below base^k has at most k digits. */
  lemma {:induction false} DigitsLength(n: nat, base: nat, k: nat)
    requires 2 <= base <= 10 && k >= 1 && n < Pow(base, k)
    ensures |Digits(n, base)| <= k
    decreases k
  {
    if n >= base {
      assert Pow(base, 1) == base;
      DivBound(n, base, Pow(base, k - 1));
      DigitsLength(n / base, base, k - 1);
    }
  }

  lemma DivBound(n: nat, b: nat, p: nat)
    requires b > 0 && n < b * p
    ensures n / b < p
  {
    if n / b >= p {
      MulMonotone(b, p, n / b);
    }
  }

  lemma {:induction false} MulMonotone(b: nat, p: nat, q: nat)
    requires p <= q
    ensures b * p <= b * q
    decreases q - p
  {
    if p < q {
      MulMonotone(b, p, q - 1);
    }
  }

  /** A run of digits that starts with a non-zero digit denotes a positive number. */
  lemma {:induction false} ValuePositive(t: string)
    requires |t| > 0 && AllDigits(t) && t[0] != '0'
    ensures Value(t, 10) > 0
    decreases |t|
  {
    if |t| > 1 {
      ValuePositive(t[..|t| - 1]);
    }
  }

  /** Canonical decimal digits are exactly what Digits writes for their value. */
  lemma {:induction false} DigitsOfValue(t: string)
    requires IsCanonicalNat(t)
    ensures Digits(Value(t, 10), 10) == t
    decreases |t|
  {
    if |t| > 1 {
      var u := t[..|t| - 1];
      var c := t[|t| - 1];
      ValuePositive(u);
      DigitsOfValue(u);
      assert t == u + [c];
      ValueSnoc(u, c, 10);
      DigitsSnoc(Value(u, 10), DigitVal(c));
      assert DigitChar(DigitVal(c)) == c;
    }
  }

  /** Writing a*10 + d in decimal appends the digit d to the digits of a, for a > 0. */
  lemma DigitsSnoc(a: nat, d: nat)
    requires a > 0 && d < 10
    ensures Digits(a * 10 + d, 10) == Digits(a, 10) + [DigitChar(d)]
  {
    var n := a * 10 + d;
    assert n / 10 == a && n % 10 == d;
  }

  /** Dec writes canonical decimal text, and atoi reads it back: a round trip. */
  lemma AtoiOfDec(n: int)
    ensures IsDecimal(Dec(n)) && NoColonOrNul(Dec(n))
    ensures Atoi(Dec(n)) == n
  {
    if n < 0 {
      DecNegative(n);
    } else {
      DecNonNegative(n);
    }
  }

  lemma DecNegative(n: int)
    requires n < 0
    ensures IsDecimal(Dec(n)) && NoColonOrNul(Dec(n))
    ensures Atoi(Dec(n)) == n
  {
    var m: nat := -n;
    var d := Digits(m, 10);
    DigitsLeading(m, 10);
    DecimalNegative(d);
    AtoiNegative(d);
    ValueOfDigits(m, 10);
  }

  lemma DecimalNegative(d: string)
    requires IsCanonicalNat(d) && d[0] != '0'
    ensures IsDecimal("-" + d) && NoColonOrNul("-" + d)
  {
    assert ("-" + d)[1..] == d;
  }

  lemma DecNonNegative(n: nat)
    ensures IsDecimal(Dec(n)) && NoColonOrNul(Dec(n))
    ensures Atoi(Dec(n)) == n
  {
    var d := Digits(n, 10);
    DigitsLeading(n, 10);
    AtoiDigits(d);
    ValueOfDigits(n, 10);
  }

  /** atoi of a run of digits is the value of the digits. */
  lemma AtoiDigits(d: string)
    requires |d| > 0 && AllDigits(d)
    ensures Atoi(d) == Value(d, 10)
  {
    assert !IsSpace(d[0]);
    assert SkipSpace(d) == d;
    assert d[0] != '-' && d[0] != '+';
    DigitPrefixAll(d);
  }

  /** atoi of '-' and a run of digits is minus the value of the digits. */
  lemma AtoiNegative(d: string)
    requires |d| > 0 && AllDigits(d)
    ensures Atoi("-" + d) == -(Value(d, 10) as int)
  {
    AtoiMinus(d);
    DigitPrefixAll(d);
  }

  lemma AtoiMinus(d: string)
    ensures Atoi("-" + d) == -(Value(DigitPrefix(d), 10) as int)
  {
    var t := "-" + d;
    assert SkipSpace(t) == t;
    assert t[1..] == d;
  }

  /** Canonical decimal text is what Dec writes for the number atoi reads from it. */
  lemma DecOfAtoi(t: string)
    requires IsDecimal(t)
    ensures Dec(Atoi(t)) == t
  {
    if IsCanonicalNat(t) {
      AtoiDigits(t);
      DigitsOfValue(t);
    } else {
      var u := t[1..];
      assert t == "-" + u;
      AtoiNegative(u);
      ValuePositive(u);
      DigitsOfValue(u);
    }
  }

  predicate NoColonOrNul(t: string)
  {
    forall j :: 0 <= j < |t| ==> t[j] != ':' && t[j] != '\0'
  }
}
