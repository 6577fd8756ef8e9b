/** Decimal and hexadecimal renderings of integers, and the reader of Go's strconv.Atoi. */
module Numerals {

  import opened Options

  const MAX_INT: int := 0x7FFF_FFFF_FFFF_FFFF
  const MIN_INT: int := -MAX_INT - 1

  type Base = b: int | b == 10 || b == 16 witness 10

  function DigitChar(d: nat): (c: char)
    requires d < 16
    ensures d < 10 ==> '0' <= c <= '9'
  {
    if d < 10 then '0' + d as char else 'a' + (d - 10) as char
  }

  function DigitValue(c: char): (d: nat)
    ensures d < 16
  {
    if '0' <= c <= '9' then (c - '0') as nat
    else if 'a' <= c <= 'f' then (c - 'a') as nat + 10
    else 0
  }

  /** The digits of `n`, most significant first, without leading zeros. */
  function Digits(n: nat, base: Base): (s: string)
    ensures s != ""
    ensures base == 10 ==> AllDecimal(s)
    decreases n
  {
    if n < base then [DigitChar(n)] else Digits(n / base, base) + [DigitChar(n % base)]
  }

  function Value(s: string, base: Base): nat {
    if s == "" then 0 else Value(s[..|s| - 1], base) * base + DigitValue(s[|s| - 1])
  }

  lemma {:induction false} ValueDigits(n: nat, base: Base)
    ensures Value(Digits(n, base), base) == n
    decreases n
  {
    var s := Digits(n, base);
    assert forall d: nat | d < 16 :: DigitValue(DigitChar(d)) == d;
    if n < base {
      assert s[..|s| - 1] == "";
    } else {
      assert s[..|s| - 1] == Digits(n / base, base);
      ValueDigits(n / base, base);
      if base == 10 {
        assert n == n / 10 * 10 + n % 10;
      } else {
        assert n == n / 16 * 16 + n % 16;
      }
    }
  }

  predicate AllDecimal(s: string) {
    forall k | 0 <= k < |s| :: '0' <= s[k] <= '9'
  }

  /** strconv.Itoa. */
  function Itoa(n: int): (s: string)
    ensures s != ""
    ensures n >= 0 ==> AllDecimal(s)
  {
    if n < 0 then "-" + Digits(-n, 10) else Digits(n, 10)
  }

  /** strconv.Atoi on 64-bit integers: an optional sign, at least one decimal digit and
      nothing else, and a value in range. */
  function Atoi(s: string): Option<int> {
    var signed := s != "" && (s[0] == '-' || s[0] == '+');
    var digits := if signed then s[1..] else s;
    if digits == "" || !AllDecimal(digits) then None
    else
      var n := if signed && s[0] == '-' then -(Value(digits, 10) as int) else Value(digits, 10);
      if MIN_INT <= n <= MAX_INT then Some(n) else None
  }

  /** Reading a rendering gives the number back exactly when the number fits. */
  lemma AtoiItoa(n: int)
    ensures Atoi(Itoa(n)) == if MIN_INT <= n <= MAX_INT then Some(n) else None
  {
    hide Value, Digits;
    if n < 0 {
      ValueDigits(-n, 10);
      assert Itoa(n)[1..] == Digits(-n, 10);
    } else {
      ValueDigits(n, 10);
      assert AllDecimal(Itoa(n)) && Itoa(n)[0] != '-' && Itoa(n)[0] != '+';
    }
  }

  function Zeros(k: nat): (s: string)
    ensures |s| == k
  {
    seq(k, _ => '0')
  }

  /** fmt's "%040x": lower-case hexadecimal, padded with zeros to 40 places. */
  function Hex40(n: nat): (s: string)
    ensures |s| >= 40
  {
    var digits := Digits(n, 16);
    if |digits| >= 40 then digits else Zeros(40 - |digits|) + digits
  }

  lemma {:induction false} ValuePadded(k: nat, s: string, base: Base)
    ensures Value(Zeros(k) + s, base) == Value(s, base)
    decreases k + |s|
  {
    var t := Zeros(k) + s;
    if s != "" {
      assert t[..|t| - 1] == Zeros(k) + s[..|s| - 1];
      ValuePadded(k, s[..|s| - 1], base);
    } else if k > 0 {
      assert t[..|t| - 1] == Zeros(k - 1) + s;
      ValuePadded(k - 1, s, base);
    }
  }

  /** No two numbers share a padded rendering. */
  lemma Hex40Injective(m: nat, n: nat)
    requires Hex40(m) == Hex40(n)
    ensures m == n
  {
    forall v: nat ensures Value(Hex40(v), 16) == v {
      ValueDigits(v, 16);
      if |Digits(v, 16)| < 40 {
        ValuePadded(40 - |Digits(v, 16)|, Digits(v, 16), 16);
      }
    }
    assert Value(Hex40(m), 16) == Value(Hex40(n), 16);
  }

  // ---- digit by digit ----

  /** Decimal text: one digit for a number below ten, and one more behind it for a tenfold and a digit. */
  lemma ItoaDigits(n: int, d: int)
    requires n >= 0 && 0 <= d < 10
    ensures Itoa(d) == ["0123456789"[d]]
    ensures n > 0 ==> Itoa(10 * n + d) == Itoa(n) + ["0123456789"[d]]
    ensures n > 0 ==> Itoa(-n) == "-" + Itoa(n)
  {
    assert (10 * n + d) / 10 == n && (10 * n + d) % 10 == d;
  }

  lemma HexDigit(d: nat)
    requires d < 16
    ensures DigitChar(d) == "0123456789abcdef"[d]
  {
  }

  lemma {:induction false} DigitsWithin(n: nat, k: nat)
    requires k > 0 && n < Power16(k)
    ensures |Digits(n, 16)| <= k
    decreases k
  {
    if n >= 16 {
      assert k > 1;
      DigitsWithin(n / 16, k - 1);
    }
  }

  function Power16(k: nat): nat { if k == 0 then 1 else 16 * Power16(k - 1) }

  /** Padding one digit more takes one zero less. */
  lemma PadOne(rest: string, c: char)
    requires |rest| <= 39
    ensures var s := Zeros(39 - |rest|) + (rest + [c]);
            |s| == 40 && s[39] == c && "0" + s[..39] == Zeros(40 - |rest|) + rest
  {
    assert Zeros(40 - |rest|) == "0" + Zeros(39 - |rest|);
    assert (Zeros(39 - |rest|) + (rest + [c]))[..39] == Zeros(39 - |rest|) + rest;
  }

  lemma DigitsLast(n: nat)
    ensures n >= 16 ==> Digits(n, 16) == Digits(n / 16, 16) + [DigitChar(n % 16)]
    ensures n < 16 ==> Digits(n, 16) == [DigitChar(n % 16)] && n % 16 == n && n / 16 == 0
  {
  }

  lemma HexOfZero()
    ensures Hex40(0) == Zeros(40) == Zeros(40) + ""
  {
    assert Digits(0, 16) == "0";
  }

  /** The padded rendering: 40 places for a number that fits them, the last for the number modulo 16 and the
      others, after a zero, for the rest of it. */
  lemma Hex40Digits(n: nat)
    requires n < Power16(40)
    ensures |Hex40(n)| == 40
    ensures Hex40(n)[39] == "0123456789abcdef"[n % 16]
    ensures "0" + Hex40(n)[..39] == Hex40(n / 16)
    ensures n == 0 ==> Hex40(n) == Zeros(40)
  {
    hide Power16, Digits, Zeros, DigitChar;
    DigitsWithin(n, 40);
    HexDigit(n % 16);
    DigitsLast(n);
    HexOfZero();
    PadOne(if n < 16 then "" else Digits(n / 16, 16), DigitChar(n % 16));
    assert "" + [DigitChar(n % 16)] == [DigitChar(n % 16)];
    if n >= 16 && |Digits(n / 16, 16)| == 39 {
      NoZeros(Digits(n, 16));
    }
  }

  lemma NoZeros(s: string)
    ensures Zeros(0) + s == s
  {
  }
}
