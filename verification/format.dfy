/**
 * Decimal and hexadecimal text forms: Go's `%d`, the zero-padded
 * numbers of `time.Format`, and `encoding/hex.EncodeToString`. Each
 * encoder has a decoder, and the round trips give injectivity.
 */
module Format {

  type Byte = b: int | 0 <= b < 256

  const Digits: string := "0123456789"
  const HexDigits: string := "0123456789abcdef"

  predicate IsDigit(c: char) {
    '0' <= c <= '9'
  }

  predicate AllDigits(s: string) {
    forall i :: 0 <= i < |s| ==> IsDigit(s[i])
  }

  function DigitValue(c: char): nat
    requires IsDigit(c)
  {
    c as int - '0' as int
  }

  /** The decimal digit of a value below ten. */
  function Digit(v: nat): (c: char)
    requires v < 10
    ensures IsDigit(c) && DigitValue(c) == v
  {
    ('0' as int + v) as char
  }

  /** The digit is the one at position `v` of `"0123456789"`. */
  lemma DigitTable(v: nat)
    requires v < 10
    ensures Digit(v) == Digits[v]
  {
  }

  function Pow10(k: nat): nat {
    if k == 0 then 1 else 10 * Pow10(k - 1)
  }

  /** The decimal digits of `n`, without leading zeros (`"0"` for zero). */
  function NatDigits(n: nat): (s: string)
    ensures |s| >= 1 && AllDigits(s)
  {
    if n < 10 then [Digit(n)] else NatDigits(n / 10) + [Digit(n % 10)]
  }

  /** `k` zero digits. */
  function Zeros(k: nat): (s: string)
    ensures |s| == k && forall i :: 0 <= i < k ==> s[i] == '0'
  {
    if k == 0 then "" else "0" + Zeros(k - 1)
  }

  /** The digits of `n`, left-padded with zeros to at least `width` characters. */
  function PadDigits(n: nat, width: nat): (s: string)
    ensures AllDigits(s) && |s| >= width && |s| >= 1
  {
    var d := NatDigits(n);
    if |d| < width then Zeros(width - |d|) + d else d
  }

  /**
   * Go's `appendInt(b, n, width)` of package time, and `%d` for `width <= 1`:
   * a minus sign for negative numbers, then the padded digits of the magnitude.
   */
  function FormatInt(n: int, width: nat): (s: string)
    ensures |s| >= 1
    ensures forall i :: 0 <= i < |s| ==> IsDigit(s[i]) || (i == 0 && s[i] == '-')
    ensures s[0] == '-' <==> n < 0
    ensures n >= 0 ==> |s| >= width
  {
    if n < 0 then "-" + PadDigits(-n, width) else PadDigits(n, width)
  }

  /** The value of a digit string, most significant digit first. */
  function DecValue(s: string): nat
    requires AllDigits(s)
  {
    if |s| == 0 then 0 else DecValue(s[..|s| - 1]) * 10 + DigitValue(s[|s| - 1])
  }

  /** The value of an optionally signed digit string. */
  function IntValue(s: string): int
    requires |s| >= 1
    requires forall i :: 0 <= i < |s| ==> IsDigit(s[i]) || (i == 0 && s[i] == '-')
  {
    if s[0] == '-' then -(DecValue(s[1..]) as int) else DecValue(s)
  }

  lemma {:induction false} NatDigitsValue(n: nat)
    ensures DecValue(NatDigits(n)) == n
  {
    if n >= 10 {
      var s := NatDigits(n);
      assert s[..|s| - 1] == NatDigits(n / 10);
      NatDigitsValue(n / 10);
    }
  }

  lemma {:induction false} DecValueAppend(a: string, b: string)
    requires AllDigits(a) && AllDigits(b)
    ensures DecValue(a + b) == DecValue(a) * Pow10(|b|) + DecValue(b)
    decreases |b|
  {
    if |b| > 0 {
      var b' := b[..|b| - 1];
      assert (a + b)[..|a + b| - 1] == a + b';
      DecValueAppend(a, b');
      var x, y, d := DecValue(a), DecValue(b'), DigitValue(b[|b| - 1]);
      var p := Pow10(|b'|);
      assert DecValue(a + b) == DecValue(a + b') * 10 + d;
      assert DecValue(b) == y * 10 + d;
      assert Pow10(|b|) == p * 10;
      ShiftDigit(x, p, y, d);
    } else {
      assert a + b == a;
    }
  }

  /** Appending a digit to `x` shifted by `p` places. */
  lemma ShiftDigit(x: int, p: int, y: int, d: int)
    ensures (x * p + y) * 10 + d == x * (p * 10) + (y * 10 + d)
  {
    assert (x * p) * 10 == x * (p * 10);
  }

  lemma {:induction false} ZerosValue(k: nat)
    ensures DecValue(Zeros(k)) == 0
  {
    if k > 0 {
      assert Zeros(k) == Zeros(k - 1) + "0";
      ZerosAppend(k - 1);
      ZerosValue(k - 1);
    }
  }

  lemma {:induction false} ZerosAppend(k: nat)
    ensures Zeros(k + 1) == Zeros(k) + "0"
  {
    if k > 0 {
      ZerosAppend(k - 1);
    }
  }

  /** Leading zeros do not change the value: the padded digits still read back as `n`. */
  lemma PadDigitsValue(n: nat, width: nat)
    ensures DecValue(PadDigits(n, width)) == n
  {
    var d := NatDigits(n);
    NatDigitsValue(n);
    if |d| < width {
      var z := Zeros(width - |d|);
      assert PadDigits(n, width) == z + d;
      ZerosValue(width - |d|);
      LeadingZeroValue(z, d);
    }
  }

  /** A prefix worth zero adds nothing to the value. */
  lemma LeadingZeroValue(z: string, d: string)
    requires AllDigits(z) && AllDigits(d) && DecValue(z) == 0
    ensures DecValue(z + d) == DecValue(d)
  {
    DecValueAppend(z, d);
  }

  /** Reading back what `FormatInt` wrote gives the number again. */
  lemma FormatIntRoundTrip(n: int, width: nat)
    ensures IntValue(FormatInt(n, width)) == n
  {
    var s := FormatInt(n, width);
    if n < 0 {
      var p := PadDigits(-n, width);
      assert s[1..] == p;
      PadDigitsValue(-n, width);
      assert IntValue(s) == -(DecValue(p) as int);
    } else {
      var p := PadDigits(n, width);
      assert s == p && s[0] != '-';
      PadDigitsValue(n, width);
      assert IntValue(s) == DecValue(p);
    }
  }

  /** Distinct numbers have distinct text forms at any width. */
  lemma FormatIntInjective(m: int, n: int, width: nat)
    requires FormatInt(m, width) == FormatInt(n, width)
    ensures m == n
  {
    FormatIntRoundTrip(m, width);
    FormatIntRoundTrip(n, width);
  }

  /** A number below `10^width` is written in exactly `width` digits. */
  lemma {:induction false} NatDigitsLength(n: nat, width: nat)
    requires 1 <= width && n < Pow10(width)
    ensures |NatDigits(n)| <= width
  {
    if n >= 10 {
      assert width > 1;
      assert n / 10 < Pow10(width - 1);
      NatDigitsLength(n / 10, width - 1);
    }
  }

  lemma PadDigitsExact(n: nat, width: nat)
    requires 1 <= width && n < Pow10(width)
    ensures |PadDigits(n, width)| == width
  {
    NatDigitsLength(n, width);
  }

  predicate IsHexDigit(c: char) {
    ('0' <= c <= '9') || ('a' <= c <= 'f')
  }

  predicate AllHexDigits(s: string) {
    forall i :: 0 <= i < |s| ==> IsHexDigit(s[i])
  }

  /** The lower-case hex digit of a nibble. */
  function HexDigit(v: nat): (c: char)
    requires v < 16
    ensures IsHexDigit(c)
  {
    if v < 10 then ('0' as int + v) as char else ('a' as int + v - 10) as char
  }

  /** The digit is the one at position `v` of Go's `hextable`. */
  lemma HexDigitTable(v: nat)
    requires v < 16
    ensures HexDigit(v) == HexDigits[v]
  {
  }

  function HexValue(c: char): (v: nat)
    requires IsHexDigit(c)
    ensures v < 16
  {
    if '0' <= c <= '9' then c as int - '0' as int else c as int - 'a' as int + 10
  }

  /** A hex digit is the digit of its own value. */
  lemma HexValueDigit(c: char)
    requires IsHexDigit(c)
    ensures HexDigit(HexValue(c)) == c
  {
  }

  lemma HexDigitValue(v: nat)
    requires v < 16
    ensures HexValue(HexDigit(v)) == v
  {
  }

  /** Go's `hex.EncodeToString`: two lowercase hex digits per byte, high nibble first. */
  function HexEncode(bs: seq<Byte>): (s: string)
    ensures |s| == 2 * |bs| && AllHexDigits(s)
  {
    if |bs| == 0 then "" else [HexDigit(bs[0] / 16), HexDigit(bs[0] % 16)] + HexEncode(bs[1..])
  }

  /** Go's `hex.DecodeString` on well-formed input: each pair of digits is one byte, high nibble first. */
  function HexDecode(s: string): (bs: seq<Byte>)
    requires |s| % 2 == 0 && AllHexDigits(s)
    ensures 2 * |bs| == |s|
  {
    seq(|s| / 2, i requires 0 <= i < |s| / 2 => HexValue(s[2 * i]) * 16 + HexValue(s[2 * i + 1]))
  }

  /** The two digits byte `i` is encoded to. */
  lemma {:induction false} HexEncodeAt(bs: seq<Byte>, i: nat)
    requires i < |bs|
    ensures HexEncode(bs)[2 * i] == HexDigit(bs[i] / 16)
    ensures HexEncode(bs)[2 * i + 1] == HexDigit(bs[i] % 16)
  {
    if i > 0 {
      HexEncodeAt(bs[1..], i - 1);
      var rest := HexEncode(bs[1..]);
      assert HexEncode(bs) == [HexDigit(bs[0] / 16), HexDigit(bs[0] % 16)] + rest;
      assert HexEncode(bs)[2 * i] == rest[2 * (i - 1)];
      assert HexEncode(bs)[2 * i + 1] == rest[2 * (i - 1) + 1];
    }
  }

  lemma {:induction false} HexRoundTrip(bs: seq<Byte>)
    ensures HexDecode(HexEncode(bs)) == bs
  {
    var d := HexDecode(HexEncode(bs));
    forall i | 0 <= i < |bs|
      ensures d[i] == bs[i]
    {
      HexEncodeAt(bs, i);
      HexPairValue(bs[i]);
    }
  }

  /** The two digits of a byte decode back to the byte. */
  lemma HexPairValue(x: Byte)
    ensures HexValue(HexDigit(x / 16)) * 16 + HexValue(HexDigit(x % 16)) == x
  {
    HexDigitValue(x / 16);
    HexDigitValue(x % 16);
  }

  lemma {:induction false} HexEncodeAppend(a: seq<Byte>, b: seq<Byte>)
    ensures HexEncode(a + b) == HexEncode(a) + HexEncode(b)
  {
    if |a| > 0 {
      assert (a + b)[1..] == a[1..] + b;
      HexEncodeAppend(a[1..], b);
    } else {
      assert a + b == b;
    }
  }

  lemma HexEncodeInjective(a: seq<Byte>, b: seq<Byte>)
    requires HexEncode(a) == HexEncode(b)
    ensures a == b
  {
    HexRoundTrip(a);
    HexRoundTrip(b);
  }
}
