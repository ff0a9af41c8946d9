/**
  * Unsigned numerals as Rust's formatter writes them: `{}` and `{:0w}` in
  * base 10, `{:0wx}` in base 16 with lowercase digits. Zero padding fills
  * up to the width and never truncates.
  */
module Numerals {

  /** The bases the formatter uses here. */
  predicate ValidBase(base: nat) {
    base == 10 || base == 16
  }

  /** The character of digit `d`: `0`-`9`, then lowercase `a`-`f`. */
  function DigitChar(d: nat): char
    requires d < 16
  {
    if d < 10 then ('0' as int + d) as char else ('a' as int + d - 10) as char
  }

  /** The value of a digit character; 16 for anything that is not a digit. */
  function DigitValue(c: char): nat {
    if '0' <= c <= '9' then c as int - '0' as int
    else if 'a' <= c <= 'f' then c as int - 'a' as int + 10
    else 16
  }

  predicate IsDigit(c: char, base: nat) {
    DigitValue(c) < base
  }

  predicate AllDigits(s: string, base: nat) {
    forall i :: 0 <= i < |s| ==> IsDigit(s[i], base)
  }

  function Pow(base: nat, n: nat): nat {
    if n == 0 then 1 else base * Pow(base, n - 1)
  }

  /** The shortest numeral of `n` (`0` for zero, no leading zeros otherwise). */
  function Digits(n: nat, base: nat): (r: string)
    requires ValidBase(base)
    ensures |r| >= 1
    ensures AllDigits(r, base)
    ensures |r| > 1 ==> r[0] != '0'
    decreases n
  {
    if n < base then [DigitChar(n)]
    else Digits(n / base, base) + [DigitChar(n % base)]
  }

  /** Reads a numeral back, most significant digit first. */
  function ValueOf(s: string, base: nat): nat
    requires ValidBase(base)
    requires AllDigits(s, base)
    decreases |s|
  {
    if |s| == 0 then 0
    else ValueOf(s[..|s| - 1], base) * base + DigitValue(s[|s| - 1])
  }

  lemma {:induction false} ValueOfDigits(n: nat, base: nat)
    requires ValidBase(base)
    ensures ValueOf(Digits(n, base), base) == n
    decreases n
  {
    var s := Digits(n, base);
    if n >= base {
      assert s[..|s| - 1] == Digits(n / base, base);
      ValueOfDigits(n / base, base);
    }
  }

  lemma {:induction false} ValueOfAppend(a: string, b: string, base: nat)
    requires ValidBase(base) && AllDigits(a, base) && AllDigits(b, base)
    ensures AllDigits(a + b, base)
    ensures ValueOf(a + b, base) == ValueOf(a, base) * Pow(base, |b|) + ValueOf(b, base)
    decreases |b|
  {
    assert AllDigits(a + b, base) by {
      forall i | 0 <= i < |a + b| ensures IsDigit((a + b)[i], base) {
        if i >= |a| {
          assert (a + b)[i] == b[i - |a|];
        }
      }
    }
    if |b| == 0 {
      assert a + b == a;
    } else {
      var b' := b[..|b| - 1];
      assert (a + b)[..|a + b| - 1] == a + b';
      ValueOfAppend(a, b', base);
      var x, y, d := ValueOf(a, base), ValueOf(b', base), DigitValue(b[|b| - 1]);
      assert ValueOf(a + b, base) == ValueOf(a + b', base) * base + d;
      assert ValueOf(b, base) == y * base + d;
      ShiftDigit(x, Pow(base, |b'|), y, base, d);
    }
  }

  /** The arithmetic step of `ValueOfAppend`: shifting by one more digit. */
  lemma ShiftDigit(x: nat, p: nat, y: nat, base: nat, d: nat)
    ensures (x * p + y) * base + d == x * (base * p) + (y * base + d)
  {
    calc {
      (x * p + y) * base + d;
      x * p * base + y * base + d;
      x * (base * p) + (y * base + d);
    }
  }

  function Zeros(k: nat): (r: string)
    ensures |r| == k
    ensures forall i :: 0 <= i < k ==> r[i] == '0'
  {
    seq(k, i => '0')
  }

  lemma {:induction false} ValueOfZeros(k: nat, base: nat)
    requires ValidBase(base)
    ensures AllDigits(Zeros(k), base)
    ensures ValueOf(Zeros(k), base) == 0
    decreases k
  {
    if k > 0 {
      assert Zeros(k)[..k - 1] == Zeros(k - 1);
      ValueOfZeros(k - 1, base);
    }
  }

  /**
    * `{:0width}` (`{:0widthx}` in base 16): the numeral of `n`, padded on the
    * left with zeros to `width` characters; its length is the width, or the
    * numeral's own length when wider.
    */
  function ZeroPad(n: nat, width: nat, base: nat): (r: string)
    requires ValidBase(base)
    ensures |r| == if |Digits(n, base)| < width then width else |Digits(n, base)|
  {
    var d := Digits(n, base);
    Zeros(if |d| < width then width - |d| else 0) + d
  }

  /** A padded numeral is all digits and reads back as the value: padding adds only leading zeros. */
  lemma ZeroPadValue(n: nat, width: nat, base: nat)
    requires ValidBase(base)
    ensures AllDigits(ZeroPad(n, width, base), base)
    ensures ValueOf(ZeroPad(n, width, base), base) == n
  {
    var d := Digits(n, base);
    var k := if |d| < width then width - |d| else 0;
    ValueOfZeros(k, base);
    ValueOfAppend(Zeros(k), d, base);
    ValueOfDigits(n, base);
  }

  /** A numeral of `n` fits in `w` digits exactly when `n < base^w`. */
  lemma {:induction false} DigitsFit(n: nat, base: nat, w: nat)
    requires ValidBase(base) && w >= 1
    ensures |Digits(n, base)| <= w <==> n < Pow(base, w)
    decreases n
  {
    if n >= base {
      if w == 1 {
        assert Pow(base, 1) == base;
        assert |Digits(n, base)| == |Digits(n / base, base)| + 1;
      } else {
        DigitsFit(n / base, base, w - 1);
        assert Pow(base, w) == base * Pow(base, w - 1);
        assert n / base < Pow(base, w - 1) <==> n < base * Pow(base, w - 1);
      }
    } else {
      PowAtLeastBase(base, w);
    }
  }

  lemma {:induction false} PowAtLeastBase(base: nat, w: nat)
    requires ValidBase(base) && w >= 1
    ensures Pow(base, w) >= base
    decreases w
  {
    if w > 1 {
      PowAtLeastBase(base, w - 1);
    }
  }

  /** Padding a value below `base^width` gives exactly `width` digits. */
  lemma FixedWidth(n: nat, width: nat, base: nat)
    requires ValidBase(base) && width >= 1 && n < Pow(base, width)
    ensures |ZeroPad(n, width, base)| == width
  {
    DigitsFit(n, base, width);
  }

  /**
    * `{:0width}` of a signed value: the `-` sign comes first and counts
    * towards the width, the zeros go between the sign and the digits.
    */
  function SignedZeroPad(v: int, width: nat): (r: string)
    ensures |r| >= width
    ensures v < 0 ==> |r| >= 2 && r[0] == '-'
  {
    if v < 0 then "-" + ZeroPad(-v, if width > 0 then width - 1 else 0, 10)
    else ZeroPad(v, width, 10)
  }

  /** A signed padded numeral reads back as its value: the digits after any sign give the magnitude. */
  lemma SignedZeroPadValue(v: int, width: nat)
    ensures var r := SignedZeroPad(v, width);
            && (v >= 0 ==> AllDigits(r, 10) && ValueOf(r, 10) == v)
            && (v < 0 ==> AllDigits(r[1..], 10) && ValueOf(r[1..], 10) == -v)
  {
    if v < 0 {
      var digits := ZeroPad(-v, if width > 0 then width - 1 else 0, 10);
      assert SignedZeroPad(v, width)[1..] == digits;
      ZeroPadValue(-v, if width > 0 then width - 1 else 0, 10);
    } else {
      ZeroPadValue(v, width, 10);
    }
  }
}
