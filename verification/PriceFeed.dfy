/**
  The price feed's conversion of a decimal string to an integer with 18 decimals, by string
  surgery: split at the dot, pad and cut the fraction to 18 digits, join, parse.
 */
module PriceFeed {
  import opened Wrappers

  const DECIMALS: nat := 18

  predicate IsDigit(c: char) {
    '0' <= c <= '9'
  }

  predicate Digits(s: string) {
    forall i | 0 <= i < |s| :: IsDigit(s[i])
  }

  function Zeros(n: nat): (s: string)
    ensures |s| == n && Digits(s)
  {
    seq(n, _ => '0')
  }

  /** The end of the field that starts at a position: the next dot, or the end of the string. */
  function FieldEnd(s: string, from: nat): (end: nat)
    requires from <= |s|
    ensures from <= end <= |s|
    ensures forall i | from <= i < end :: s[i] != '.'
    ensures end < |s| ==> s[end] == '.'
    decreases |s| - from
  {
    if from == |s| || s[from] == '.' then from else FieldEnd(s, from + 1)
  }

  /** The first two fields of a split at dots; a missing second field is empty. */
  function SplitAtDot(s: string): (string, string) {
    var end := FieldEnd(s, 0);
    (s[..end], if end == |s| then "" else s[end + 1..FieldEnd(s, end + 1)])
  }

  function DigitOf(c: char): nat
    requires IsDigit(c)
  {
    (c as int) - ('0' as int)
  }

  /** The number a string of digits denotes. */
  function Num(s: string): nat
    requires Digits(s)
  {
    if s == [] then 0 else 10 * Num(s[..|s| - 1]) + DigitOf(s[|s| - 1])
  }

  /** Parsing: anything but digits is refused. */
  function ParseInteger(s: string): Option<nat> {
    if Digits(s) then Some(Num(s)) else None
  }

  /** A fraction padded with zeros, or cut, to a number of digits. */
  function Normalize(fraction: string, n: nat): (r: string)
    ensures |r| == n
  {
    (fraction + Zeros(n))[..n]
  }

  function ConvertPrice(s: string): Option<nat> {
    var (whole, fraction) := SplitAtDot(s);
    ParseInteger(whole + Normalize(fraction, DECIMALS))
  }

  // ---------- what the result means ----------

  function Pow10(n: nat): (p: nat)
    ensures p > 0
  {
    if n == 0 then 1 else 10 * Pow10(n - 1)
  }

  /** The number a decimal string with this whole part and fraction denotes. */
  function Denoted(whole: string, fraction: string): real
    requires Digits(whole) && Digits(fraction)
  {
    Num(whole) as real + Num(fraction) as real / Pow10(|fraction|) as real
  }

  lemma {:induction false} Pow10Add(a: nat, b: nat)
    ensures Pow10(a + b) == Pow10(a) * Pow10(b)
  {
    if b == 0 {
    } else {
      Pow10Add(a, b - 1);
      assert 10 * (Pow10(a) * Pow10(b - 1)) == Pow10(a) * (10 * Pow10(b - 1));
    }
  }

  lemma {:induction false} NumAppend(a: string, b: string)
    requires Digits(a) && Digits(b)
    ensures Digits(a + b)
    ensures Num(a + b) == Num(a) * Pow10(|b|) + Num(b)
  {
    if b == [] {
      assert a + b == a;
    } else {
      var front := b[..|b| - 1];
      NumAppend(a, front);
      assert (a + b)[..|a + b| - 1] == a + front;
      assert 10 * (Num(a) * Pow10(|front|)) == Num(a) * (10 * Pow10(|front|));
    }
  }

  lemma {:induction false} NumBound(s: string)
    requires Digits(s)
    ensures Num(s) < Pow10(|s|)
  {
    if s != [] {
      NumBound(s[..|s| - 1]);
    }
  }

  lemma {:induction false} NumZeros(n: nat)
    ensures Num(Zeros(n)) == 0
  {
    if n != 0 {
      assert Zeros(n)[..n - 1] == Zeros(n - 1);
      NumZeros(n - 1);
    }
  }

  lemma {:induction false} FieldEndIs(s: string, from: nat, end: nat)
    requires from <= end <= |s| && (end < |s| ==> s[end] == '.')
    requires forall i | from <= i < end :: s[i] != '.'
    ensures FieldEnd(s, from) == end
    decreases end - from
  {
    if from < end {
      FieldEndIs(s, from + 1, end);
    }
  }

  predicate NoDot(s: string) {
    forall i | 0 <= i < |s| :: s[i] != '.'
  }

  lemma SplitJoined(whole: string, fraction: string)
    requires NoDot(whole) && NoDot(fraction)
    ensures SplitAtDot(whole + "." + fraction) == (whole, fraction)
    ensures SplitAtDot(whole) == (whole, "")
  {
    var s := whole + "." + fraction;
    var n := |whole|;
    assert s[n] == '.' && s[..n] == whole && s[n + 1..|s|] == fraction;
    FieldEndIs(s, 0, n);
    FieldEndIs(s, n + 1, |s|);
    FieldEndIs(whole, 0, n);
    assert whole[..n] == whole;
  }

  /** Only the first two fields count, however many dots there are. */
  lemma SplitOfMany(whole: string, fraction: string, rest: string)
    requires NoDot(whole) && NoDot(fraction)
    ensures ConvertPrice(whole + "." + fraction + "." + rest) == ConvertPrice(whole + "." + fraction)
  {
    hide Normalize, ParseInteger;
    var s := whole + "." + fraction + "." + rest;
    var n := |whole|;
    var m := n + 1 + |fraction|;
    assert s[n] == '.' && s[m] == '.' && s[..n] == whole && s[n + 1..m] == fraction;
    forall i | n + 1 <= i < m ensures s[i] != '.' {
      assert s[i] == fraction[i - (n + 1)];
    }
    FieldEndIs(s, 0, n);
    FieldEndIs(s, n + 1, m);
    SplitJoined(whole, fraction);
  }

  /** A short fraction is padded: nothing is lost. */
  lemma ShortFraction(whole: string, fraction: string, n: nat)
    requires Digits(whole) && Digits(fraction) && |fraction| <= n
    ensures var padded := Normalize(fraction, n);
            && Digits(whole + padded)
            && Num(whole + padded) == Num(whole) * Pow10(n) + Num(fraction) * Pow10(n - |fraction|)
  {
    var pad := Zeros(n - |fraction|);
    assert Normalize(fraction, n) == fraction + pad;
    NumAppend(fraction, pad);
    NumZeros(n - |fraction|);
    NumAppend(whole, fraction + pad);
  }

  /** A long fraction is cut: the dropped digits are the remainder. */
  lemma LongFraction(whole: string, fraction: string, n: nat)
    requires Digits(whole) && Digits(fraction) && |fraction| > n
    ensures var cut, rest := Normalize(fraction, n), fraction[n..];
            && Digits(cut) && Digits(rest) && Digits(whole + cut)
            && Num(whole + cut) == Num(whole) * Pow10(n) + Num(cut)
            && Num(fraction) == Num(cut) * Pow10(|rest|) + Num(rest)
            && Num(rest) < Pow10(|rest|)
            && Pow10(|fraction|) == Pow10(n) * Pow10(|rest|)
  {
    var cut, rest := fraction[..n], fraction[n..];
    assert Normalize(fraction, n) == cut;
    assert fraction == cut + rest;
    NumAppend(cut, rest);
    NumAppend(whole, cut);
    NumBound(rest);
    Pow10Add(n, |rest|);
  }

  /** Scaling a fraction cancels the common power of ten. */
  lemma ScaleExact(f: real, p: real, q: real)
    requires p > 0.0
    ensures f / p * (p * q) == f * q
  {
    assert f / p * p == f;
    assert f / p * (p * q) == (f / p * p) * q;
  }

  lemma ScaleFloor(cut: nat, rest: nat, one: real, p: real, f: real, all: real, x: real)
    requires one > 0.0 && p > 0.0 && rest as real < p
    requires f == cut as real * p + rest as real && all == one * p && all > 0.0
    requires x == f / all * one
    ensures cut as real <= x < cut as real + 1.0
  {
    var c := cut as real;
    assert x * p == f by {
      assert x * p == f / all * (one * p);
      assert f / all * all == f;
    }
    assert (x - c) * p == rest as real;
    Quotient(x - c, p, rest as real);
  }

  lemma Quotient(y: real, p: real, r: real)
    requires p > 0.0 && 0.0 <= r < p && y * p == r
    ensures 0.0 <= y < 1.0
  {
    if y < 0.0 {
      NegativeProduct(y, p);
    } else if y >= 1.0 {
      LargeProduct(y, p);
    }
  }

  lemma NegativeProduct(y: real, p: real)
    requires y < 0.0 && p > 0.0
    ensures y * p < 0.0
  {
  }

  lemma LargeProduct(y: real, p: real)
    requires y >= 1.0 && p > 0.0
    ensures y * p >= p
  {
  }

  lemma FloorOfSum(whole: nat, cut: nat, x: real)
    requires IsFloorOf(cut, x)
    ensures (whole as real + x).Floor == whole + cut
  {
  }

  /** The joined digits are the denoted number times 10^n, rounded down. */
  lemma JoinedIsScaledFloor(whole: string, fraction: string, n: nat)
    requires Digits(whole) && Digits(fraction)
    ensures Digits(whole + Normalize(fraction, n))
    ensures Num(whole + Normalize(fraction, n)) == (Denoted(whole, fraction) * Pow10(n) as real).Floor
  {
    hide Num, Pow10, Normalize, Denoted, Scaled;
    var x := Scaled(Num(fraction), Pow10(|fraction|), Pow10(n));
    DenotedScaled(whole, fraction, n);
    if |fraction| <= n {
      ShortFraction(whole, fraction, n);
      ShortScaled(fraction, n);
      FloorOfSum(Num(whole) * Pow10(n), Num(fraction) * Pow10(n - |fraction|), x);
    } else {
      LongFraction(whole, fraction, n);
      LongScaled(fraction, n);
      FloorOfSum(Num(whole) * Pow10(n), Num(Normalize(fraction, n)), x);
    }
  }

  lemma DenotedScaled(whole: string, fraction: string, n: nat)
    requires Digits(whole) && Digits(fraction)
    ensures Denoted(whole, fraction) * Pow10(n) as real ==
            (Num(whole) * Pow10(n)) as real + Scaled(Num(fraction), Pow10(|fraction|), Pow10(n))
  {
    hide Num, Pow10;
    var i, x, one := Num(whole) as real, Num(fraction) as real / Pow10(|fraction|) as real, Pow10(n) as real;
    assert (i + x) * one == i * one + x * one;
  }

  lemma ShortScaled(fraction: string, n: nat)
    requires Digits(fraction) && |fraction| <= n
    ensures Scaled(Num(fraction), Pow10(|fraction|), Pow10(n)) ==
            (Num(fraction) * Pow10(n - |fraction|)) as real
  {
    hide Num, Pow10;
    var d := |fraction|;
    Pow10Add(d, n - d);
    ScaleExact(Num(fraction) as real, Pow10(d) as real, Pow10(n - d) as real);
    assert Pow10(n) as real == Pow10(d) as real * Pow10(n - d) as real;
  }

  lemma LongScaled(fraction: string, n: nat)
    requires Digits(fraction) && |fraction| > n
    ensures Digits(Normalize(fraction, n))
    ensures IsFloorOf(Num(Normalize(fraction, n)), Scaled(Num(fraction), Pow10(|fraction|), Pow10(n)))
  {
    hide Scaled, Num, Pow10, Normalize, IsFloorOf;
    LongFraction("", fraction, n);
    CutIsFloor(Num(fraction), Num(Normalize(fraction, n)), Num(fraction[n..]),
               Pow10(n), Pow10(|fraction[n..]|), Pow10(|fraction|));
  }

  function Scaled(f: nat, p: nat, one: nat): real
    requires p > 0
  {
    f as real / p as real * one as real
  }

  predicate IsFloorOf(n: nat, x: real) {
    n as real <= x < n as real + 1.0
  }

  lemma CutIsFloor(f: nat, cut: nat, rest: nat, one: nat, p: nat, all: nat)
    requires one > 0 && p > 0 && all > 0 && rest < p
    requires f == cut * p + rest && all == one * p
    ensures IsFloorOf(cut, Scaled(f, all, one))
  {
    RealProduct(cut, p);
    RealProduct(one, p);
    ScaleFloor(cut, rest, one as real, p as real, f as real, all as real, f as real / all as real * one as real);
  }

  lemma RealProduct(a: nat, b: nat)
    ensures (a * b) as real == a as real * b as real
  {
  }

  /**
    The scaled price: for every decimal string of digits with a dot, of any fraction length,
    the result is the denoted number times 10^18, rounded down.
   */
  lemma ConvertIsScaledFloor(whole: string, fraction: string)
    requires Digits(whole) && Digits(fraction)
    ensures ConvertPrice(whole + "." + fraction) ==
            Some((Denoted(whole, fraction) * Pow10(DECIMALS) as real).Floor)
  {
    hide Normalize, Denoted, Pow10, Num;
    SplitJoined(whole, fraction);
    JoinedIsScaledFloor(whole, fraction, DECIMALS);
  }

  /** A string of digits alone is scaled exactly. */
  lemma ConvertWhole(whole: string)
    requires Digits(whole)
    ensures ConvertPrice(whole) == Some(Num(whole) * Pow10(DECIMALS))
  {
    hide Normalize, Pow10;
    SplitJoined(whole, "");
    ShortFraction(whole, "", DECIMALS);
  }

  // ---------- printed numbers ----------

  const DIGIT_CHARS: string := "0123456789"

  /** A number in decimal, without leading zeros. */
  function Print(n: nat): (s: string) {
    if n < 10 then [DIGIT_CHARS[n]] else Print(n / 10) + [DIGIT_CHARS[n % 10]]
  }

  /** Its last digits, this many of them. */
  function PrintDigits(n: nat, digits: nat): (s: string)
    ensures |s| == digits
    decreases digits
  {
    if digits == 0 then "" else PrintDigits(n / 10, digits - 1) + [DIGIT_CHARS[n % 10]]
  }

  /** Each digit character reads as the digit it stands at. */
  lemma DigitChars(d: nat)
    requires d < 10
    ensures IsDigit(DIGIT_CHARS[d]) && DigitOf(DIGIT_CHARS[d]) == d
  {
  }

  lemma OneMoreDigit(s: string, d: nat)
    requires Digits(s) && d < 10
    ensures Digits(s + [DIGIT_CHARS[d]]) && Num(s + [DIGIT_CHARS[d]]) == 10 * Num(s) + d
  {
    DigitChars(d);
    assert (s + [DIGIT_CHARS[d]])[..|s|] == s;
  }

  /** Reading what was printed gives the number back. */
  lemma {:induction false} NumOfPrint(n: nat)
    ensures Digits(Print(n)) && Num(Print(n)) == n
  {
    if n < 10 {
      OneMoreDigit("", n);
      assert "" + [DIGIT_CHARS[n]] == Print(n);
    } else {
      NumOfPrint(n / 10);
      OneMoreDigit(Print(n / 10), n % 10);
    }
  }

  lemma {:induction false} NumOfDigits(n: nat, digits: nat)
    requires n < Pow10(digits)
    ensures Digits(PrintDigits(n, digits)) && Num(PrintDigits(n, digits)) == n
    decreases digits
  {
    if digits > 0 {
      NumOfDigits(n / 10, digits - 1);
      OneMoreDigit(PrintDigits(n / 10, digits - 1), n % 10);
    }
  }

  /** Every string of digits is some number printed with as many digits. */
  lemma {:induction false} DigitsArePrinted(s: string)
    requires Digits(s)
    ensures Num(s) < Pow10(|s|) && s == PrintDigits(Num(s), |s|)
  {
    if s != [] {
      var front, d := s[..|s| - 1], DigitOf(s[|s| - 1]);
      DigitsArePrinted(front);
      assert Num(s) == 10 * Num(front) + d && Num(s) / 10 == Num(front) && Num(s) % 10 == d;
      DigitChars(d);
      assert s == front + [s[|s| - 1]];
    }
  }

  /**
    The conversion of a printed number: with a whole part and a fraction of any number of digits,
    the result is that number times 10^18, rounded down, and without rounding up to 18 digits.
   */
  lemma ConvertOfPrinted(whole: nat, fraction: nat, digits: nat)
    requires fraction < Pow10(digits)
    ensures ConvertPrice(Print(whole) + "." + PrintDigits(fraction, digits)) ==
            Some(((whole as real + fraction as real / Pow10(digits) as real) * 1_000_000_000_000_000_000.0).Floor)
    ensures digits <= 18 ==>
              ConvertPrice(Print(whole) + "." + PrintDigits(fraction, digits)) ==
              Some(whole * 1_000_000_000_000_000_000 + fraction * Pow10(18 - digits))
    ensures ConvertPrice(Print(whole)) == Some(whole * 1_000_000_000_000_000_000)
  {
    hide Num, Pow10, Print, PrintDigits, ConvertPrice, Digits, DIGIT_CHARS;
    NumOfPrint(whole);
    NumOfDigits(fraction, digits);
    ConvertFraction(Print(whole), PrintDigits(fraction, digits));
    ConvertWhole(Print(whole));
    Pow18();
    if digits <= 18 {
      ConvertShort(Print(whole), PrintDigits(fraction, digits));
    }
  }

  lemma ConvertFraction(whole: string, fraction: string)
    requires Digits(whole) && Digits(fraction)
    ensures ConvertPrice(whole + "." + fraction) ==
            Some(((Num(whole) as real + Num(fraction) as real / Pow10(|fraction|) as real) * 1_000_000_000_000_000_000.0).Floor)
  {
    hide Num, Pow10, ConvertPrice;
    ConvertIsScaledFloor(whole, fraction);
    Pow18();
  }

  lemma ConvertShort(whole: string, fraction: string)
    requires Digits(whole) && Digits(fraction) && |fraction| <= DECIMALS
    ensures ConvertPrice(whole + "." + fraction) == Some(Num(whole) * Pow10(DECIMALS) + Num(fraction) * Pow10(DECIMALS - |fraction|))
  {
    hide Normalize, Pow10, Num;
    SplitJoined(whole, fraction);
    ShortFraction(whole, fraction, DECIMALS);
  }

  lemma Pow18()
    ensures Pow10(18) == 1_000_000_000_000_000_000
  {
    assert Pow10(6) == 1_000_000;
    Pow10Add(6, 6);
    Pow10Add(12, 6);
  }

  /**
    Exponent notation is refused exactly when the exponent mark falls among the first 18
    fraction digits. Behind 18 digits or more mark and exponent are dropped, and the result is
    that of the number without them. Without a fraction the notation is always refused.
   */
  lemma ExponentIsRefusedExactlyWhen(whole: string, fraction: string, exponent: string)
    requires Digits(whole) && Digits(fraction) && NoDot(exponent)
    ensures ConvertPrice(whole + "." + (fraction + "e" + exponent)) == None <==> |fraction| <= 17
    ensures |fraction| >= 18 ==>
              ConvertPrice(whole + "." + (fraction + "e" + exponent)) == ConvertPrice(whole + "." + fraction)
    ensures ConvertPrice(whole + "e" + exponent) == None
  {
    var marked, bare := fraction + "e" + exponent, whole + "e" + exponent;
    SplitJoined(whole, marked);
    SplitJoined(whole, fraction);
    SplitJoined(bare, "");
    var cut := Normalize(marked, DECIMALS);
    if |fraction| < DECIMALS {
      assert cut[|fraction|] == 'e';
      assert (whole + cut)[|whole| + |fraction|] == 'e';
    } else {
      assert cut == fraction[..DECIMALS] == Normalize(fraction, DECIMALS);
      NumAppend(whole, cut);
    }
    assert (bare + Normalize("", DECIMALS))[|whole|] == 'e';
  }
}
