/** Decimal and hexadecimal digit strings: JavaScript's `String(n)` and
    `padStart(width, '0')`, the fixed-width fields of a timestamp, and the
    24 hex digits of a MongoDB ObjectId, each with its parser and the
    round trip between the two. */
module Digits {

  predicate IsDigit(c: char)
  {
    '0' <= c <= '9'
  }

  predicate AllDigits(s: string)
  {
    forall i :: 0 <= i < |s| ==> IsDigit(s[i])
  }

  function DigitChar(d: nat): char
    requires d < 10
  {
    ('0' as int + d) as char
  }

  function DigitValue(c: char): nat
    requires IsDigit(c)
  {
    c as int - '0' as int
  }

  function Pow10(k: nat): (p: nat)
    ensures p > 0
  {
    if k == 0 then 1 else 10 * Pow10(k - 1)
  }

  /** `String(n)` in JavaScript and `str(n)` in Python, for n >= 0: the
      decimal digits without leading zeros. */
  function NatToString(n: nat): string
  {
    if n < 10 then [DigitChar(n)] else NatToString(n / 10) + [DigitChar(n % 10)]
  }

  function Zeros(k: nat): string
  {
    seq(k, _ => '0')
  }

  /** `String(n).padStart(width, '0')`: left-padded with zeros, never cut. */
  function PadZero(n: nat, width: nat): string
  {
    var s := NatToString(n);
    if |s| < width then Zeros(width - |s|) + s else s
  }

  /** The number a string of decimal digits denotes. */
  function DecValue(s: string): nat
    requires AllDigits(s)
  {
    if s == [] then 0 else 10 * DecValue(s[..|s| - 1]) + DigitValue(s[|s| - 1])
  }

  /** The last `width` decimal digits of n, most significant first. */
  function FixedDigits(n: nat, width: nat): string
  {
    if width == 0 then [] else FixedDigits(n / 10, width - 1) + [DigitChar(n % 10)]
  }

  /** Reading back what `String(n)` wrote gives n. */
  lemma {:induction false} NatToStringRoundTrip(n: nat)
    ensures AllDigits(NatToString(n)) && |NatToString(n)| >= 1
    ensures DecValue(NatToString(n)) == n
  {
    if n >= 10 {
      NatToStringRoundTrip(n / 10);
      var s := NatToString(n);
      assert s[..|s| - 1] == NatToString(n / 10);
    }
  }

  /** `String(n)` is injective. */
  lemma NatToStringInjective(m: nat, n: nat)
    requires NatToString(m) == NatToString(n)
    ensures m == n
  {
    NatToStringRoundTrip(m);
    NatToStringRoundTrip(n);
  }

  /** `String(n)` has at most `width` digits when n < 10^width. */
  lemma {:induction false} NatToStringLength(n: nat, width: nat)
    requires 1 <= width && n < Pow10(width)
    ensures |NatToString(n)| <= width
  {
    if n >= 10 {
      assert Pow10(1) == 10;
      NatToStringLength(n / 10, width - 1);
    }
  }

  lemma {:induction false} FixedDigitsOfZero(width: nat)
    ensures FixedDigits(0, width) == Zeros(width)
  {
    if width > 0 {
      FixedDigitsOfZero(width - 1);
    }
  }

  /** For a value that fits, padding `String(n)` is the same as writing its
      last `width` digits. */
  lemma {:induction false} PadZeroIsFixed(n: nat, width: nat)
    requires 1 <= width && n < Pow10(width)
    ensures PadZero(n, width) == FixedDigits(n, width)
  {
    NatToStringLength(n, width);
    if n < 10 {
      FixedDigitsOfZero(width - 1);
      assert FixedDigits(n, width) == FixedDigits(0, width - 1) + [DigitChar(n)];
    } else {
      assert Pow10(1) == 10;
      PadZeroIsFixed(n / 10, width - 1);
      NatToStringLength(n / 10, width - 1);
      var s' := NatToString(n / 10);
      if |s'| + 1 < width {
        assert Zeros(width - |s'| - 1) + (s' + [DigitChar(n % 10)])
            == (Zeros(width - 1 - |s'|) + s') + [DigitChar(n % 10)];
      }
    }
  }

  lemma {:induction false} MulAtLeast(k: int, m: int)
    requires k >= 1 && m >= 0
    ensures k * m >= m
  {
    if k > 1 {
      MulAtLeast(k - 1, m);
      assert k * m == (k - 1) * m + m;
    }
  }

  /** Euclidean division is unique: any quotient and remainder in range are
      the ones `/` and `%` give. */
  lemma DivModUnique(n: int, m: int, q: int, r: int)
    requires m > 0 && 0 <= r < m && n == q * m + r
    ensures n / m == q && n % m == r
  {
    var q0, r0 := n / m, n % m;
    assert n == q0 * m + r0;
    if q0 > q {
      assert (q0 - q) * m == q0 * m - q * m;
      MulAtLeast(q0 - q, m);
    } else if q0 < q {
      assert (q - q0) * m == q * m - q0 * m;
      MulAtLeast(q - q0, m);
    }
  }

  /** The remainder modulo base * p splits into the remainder of the
      quotient by the base, shifted, and the last digit. */
  lemma SplitLastDigit(n: nat, base: nat, p: nat)
    requires base >= 2 && p > 0
    ensures n % (base * p) == base * ((n / base) % p) + n % base
  {
    var a, d := n / base, n % base;
    var q, r := a / p, a % p;
    assert n == base * a + d;
    assert a == p * q + r;
    assert base * (p * q + r) == base * (p * q) + base * r;
    assert base * (p * q) == (base * p) * q;
    assert n == (base * p) * q + (base * r + d);
    var slack: nat := p - 1 - r;
    assert base * (p - 1) == base * r + base * slack;
    assert base * p == base * (p - 1) + base;
    assert base * r + d < base * p;
    DivModUnique(n, base * p, q, base * r + d);
  }

  lemma {:induction false} FixedDigitsValue(n: nat, width: nat)
    ensures AllDigits(FixedDigits(n, width)) && |FixedDigits(n, width)| == width
    ensures DecValue(FixedDigits(n, width)) == n % Pow10(width)
  {
    if width > 0 {
      FixedDigitsValue(n / 10, width - 1);
      var s := FixedDigits(n, width);
      assert s[..|s| - 1] == FixedDigits(n / 10, width - 1);
      SplitLastDigit(n, 10, Pow10(width - 1));
    }
  }

  lemma {:induction false} DecValueBound(s: string)
    requires AllDigits(s)
    ensures DecValue(s) < Pow10(|s|)
  {
    if s != [] {
      DecValueBound(s[..|s| - 1]);
    }
  }

  /** Writing back the value of a digit string, at its own width, gives the
      string again (leading zeros included). */
  lemma {:induction false} FixedDigitsOfValue(s: string)
    requires AllDigits(s)
    ensures FixedDigits(DecValue(s), |s|) == s
  {
    if s != [] {
      var init := s[..|s| - 1];
      FixedDigitsOfValue(init);
      var v := DecValue(s);
      assert v / 10 == DecValue(init);
      assert v % 10 == DigitValue(s[|s| - 1]);
      assert s == init + [s[|s| - 1]];
    }
  }

  /** A zero-padded field reads back as its value. */
  lemma PadZeroRoundTrip(n: nat, width: nat)
    requires 1 <= width && n < Pow10(width)
    ensures AllDigits(PadZero(n, width)) && |PadZero(n, width)| == width
    ensures DecValue(PadZero(n, width)) == n
  {
    PadZeroIsFixed(n, width);
    FixedDigitsValue(n, width);
    DivModUnique(n, Pow10(width), 0, n);
  }

  /** A digit field is the zero-padded form of its own value. */
  lemma PadZeroOfValue(s: string)
    requires AllDigits(s) && |s| >= 1
    ensures PadZero(DecValue(s), |s|) == s
  {
    DecValueBound(s);
    PadZeroIsFixed(DecValue(s), |s|);
    FixedDigitsOfValue(s);
  }

  lemma {:induction false} DecValueOfZeros(k: nat)
    ensures AllDigits(Zeros(k)) && DecValue(Zeros(k)) == 0
  {
    if k > 0 {
      DecValueOfZeros(k - 1);
      assert Zeros(k)[..k - 1] == Zeros(k - 1);
    }
  }

  /** Leading zeros do not change the value of a digit string. */
  lemma {:induction false} DecValueLeadingZeros(k: nat, s: string)
    requires AllDigits(s)
    ensures AllDigits(Zeros(k) + s) && DecValue(Zeros(k) + s) == DecValue(s)
  {
    DecValueOfZeros(k);
    if s != [] {
      DecValueLeadingZeros(k, s[..|s| - 1]);
      var t := Zeros(k) + s;
      assert t[..|t| - 1] == Zeros(k) + s[..|s| - 1];
    } else {
      assert Zeros(k) + s == Zeros(k);
    }
  }

  /** `String(n).padStart(width, '0')` reads back as n, whatever the width. */
  lemma PadZeroValue(n: nat, width: nat)
    ensures AllDigits(PadZero(n, width)) && DecValue(PadZero(n, width)) == n
  {
    NatToStringRoundTrip(n);
    var s := NatToString(n);
    if |s| < width {
      DecValueLeadingZeros(width - |s|, s);
    }
  }

  lemma PadZeroInjective(m: nat, n: nat, width: nat)
    requires PadZero(m, width) == PadZero(n, width)
    ensures m == n
  {
    PadZeroValue(m, width);
    PadZeroValue(n, width);
  }

  // Hexadecimal

  predicate IsHexDigit(c: char)
  {
    ('0' <= c <= '9') || ('a' <= c <= 'f') || ('A' <= c <= 'F')
  }

  predicate AllHex(s: string)
  {
    forall i :: 0 <= i < |s| ==> IsHexDigit(s[i])
  }

  function HexDigitValue(c: char): nat
    requires IsHexDigit(c)
  {
    if '0' <= c <= '9' then c as int - '0' as int
    else if 'a' <= c <= 'f' then c as int - 'a' as int + 10
    else c as int - 'A' as int + 10
  }

  /** Lower-case hex digit, as `binascii.hexlify` writes it. */
  function HexDigitChar(d: nat): char
    requires d < 16
  {
    if d < 10 then ('0' as int + d) as char else ('a' as int + d - 10) as char
  }

  function Pow16(k: nat): (p: nat)
    ensures p > 0
  {
    if k == 0 then 1 else 16 * Pow16(k - 1)
  }

  function HexValue(s: string): nat
    requires AllHex(s)
  {
    if s == [] then 0 else 16 * HexValue(s[..|s| - 1]) + HexDigitValue(s[|s| - 1])
  }

  /** The last `width` hex digits of n, lower case, most significant first. */
  function HexFixed(n: nat, width: nat): string
  {
    if width == 0 then [] else HexFixed(n / 16, width - 1) + [HexDigitChar(n % 16)]
  }

  lemma {:induction false} HexFixedValue(n: nat, width: nat)
    ensures AllHex(HexFixed(n, width)) && |HexFixed(n, width)| == width
    ensures HexValue(HexFixed(n, width)) == n % Pow16(width)
  {
    if width > 0 {
      HexFixedValue(n / 16, width - 1);
      var s := HexFixed(n, width);
      assert s[..|s| - 1] == HexFixed(n / 16, width - 1);
      SplitLastDigit(n, 16, Pow16(width - 1));
    }
  }

  lemma {:induction false} HexValueBound(s: string)
    requires AllHex(s)
    ensures HexValue(s) < Pow16(|s|)
  {
    if s != [] {
      HexValueBound(s[..|s| - 1]);
    }
  }
}
