/** Hexadecimal strings: `Hex.encodeHexString` from commons-codec, the reading
    `new BigInteger(s, 16)` that the proof of work applies to hashes, and `ZERO_HASH`. */
module Hex {
  import opened Bytes

  predicate IsHexDigit(c: char)
  {
    '0' <= c <= '9' || 'a' <= c <= 'f' || 'A' <= c <= 'F'
  }

  /** Block hashes are stored as hex strings; "" (the blank tip) is one of them. */
  type HexString = s: string | forall i | 0 <= i < |s| :: IsHexDigit(s[i])

  function DigitValue(c: char): (v: nat)
    requires IsHexDigit(c)
    ensures v < 16
  {
    if c <= '9' then c as int - '0' as int
    else if c >= 'a' then c as int - 'a' as int + 10
    else c as int - 'A' as int + 10
  }

  /** The lower-case digit commons-codec writes for a nibble. */
  function HexChar(v: nat): (c: char)
    requires v < 16
    ensures IsHexDigit(c) && DigitValue(c) == v
    ensures !('A' <= c <= 'F')
  {
    if v < 10 then ('0' as int + v) as char else ('a' as int + v - 10) as char
  }

  /** `new BigInteger(s, 16)` of a non-empty digit string: the digits read most
      significant first (callers never pass the empty string). */
  function Value(s: HexString): (n: nat)
    ensures n < Pow(16, |s|)
  {
    if s == [] then 0
    else
      var p := s[..|s| - 1];
      assert Value(p) <= Pow(16, |p|) - 1;
      Value(p) * 16 + DigitValue(s[|s| - 1])
  }

  /** `Hex.encodeHexString`: two lower-case digits per byte, high nibble first. */
  function Encode(d: seq<Byte>): (s: HexString)
    ensures |s| == 2 * |d|
    ensures forall i | 0 <= i < |s| :: !('A' <= s[i] <= 'F')
  {
    if d == [] then []
    else Encode(d[..|d| - 1]) + [HexChar(d[|d| - 1] / 16), HexChar(d[|d| - 1] % 16)]
  }

  /** Reading an encoded digest as a hex number gives the digest's unsigned value, so
      comparing `new BigInteger(encodeHexString(h), 16)` with a target compares the
      digest bytes themselves. */
  lemma {:induction false} ValueOfEncode(d: seq<Byte>)
    ensures Value(Encode(d)) == Unsigned(d)
    decreases |d|
  {
    if d != [] {
      var d' := d[..|d| - 1];
      var x := d[|d| - 1];
      var e := Encode(d);
      assert e[..|e| - 1] == Encode(d') + [HexChar(x / 16)];
      assert e[..|e| - 1][..|e| - 2] == Encode(d');
      ValueOfEncode(d');
    }
  }

  /** `Constant.ZERO_HASH`: the hex encoding of 32 zero bytes. */
  const ZERO_HASH: HexString := Encode(Zeros(32))

  /** ZERO_HASH is 64 '0' digits and reads as the number 0. */
  lemma ZeroHash()
    ensures |ZERO_HASH| == 64
    ensures forall i | 0 <= i < 64 :: ZERO_HASH[i] == '0'
    ensures Value(ZERO_HASH) == 0
  {
    AllZeroDigits(Zeros(32));
    ValueOfEncode(Zeros(32));
    UnsignedZeros(32);
  }

  lemma {:induction false} AllZeroDigits(d: seq<Byte>)
    requires forall i | 0 <= i < |d| :: d[i] == 0
    ensures forall i | 0 <= i < |Encode(d)| :: Encode(d)[i] == '0'
    decreases |d|
  {
    if d != [] {
      AllZeroDigits(d[..|d| - 1]);
    }
  }
}
