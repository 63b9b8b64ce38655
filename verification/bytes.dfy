/** Byte-level helpers: Java's fixed-width integers, `ByteUtils` (merge, toBytes), the
    `java.math.BigInteger` conversions the source relies on (`new BigInteger(1, bytes)`,
    `toByteArray()`), and `String.getBytes()` under the UTF-8 charset. */
module Bytes {
  import opened Outcomes

  /** A Java `byte` seen as its unsigned value 0..255 (only equality and zero tests are
      made on bytes in the source, so the signed view is never needed). */
  type Byte = b: int | 0 <= b < 256

  type Int32 = x: int | -0x8000_0000 <= x < 0x8000_0000

  type Long = x: int | -0x8000_0000_0000_0000 <= x < 0x8000_0000_0000_0000

  const LONG_MAX: Long := 0x7FFF_FFFF_FFFF_FFFF

  /** Java `int` arithmetic: the exact result folded into the 32-bit two's-complement range. */
  function Wrap32(x: int): (r: Int32)
    ensures (r - x) % 0x1_0000_0000 == 0
    ensures -0x8000_0000 <= x < 0x8000_0000 ==> r == x
  {
    var m := x % 0x1_0000_0000;
    if m < 0x8000_0000 then m else m - 0x1_0000_0000
  }

  function Pow(b: nat, e: nat): (r: nat)
    ensures b >= 1 ==> r >= 1
  {
    if e == 0 then 1 else b * Pow(b, e - 1)
  }

  function Zeros(n: nat): (r: seq<Byte>)
    ensures |r| == n && forall i | 0 <= i < n :: r[i] == 0
  {
    seq(n, _ => 0)
  }

  /** `new BigInteger(1, d)`: the bytes read as an unsigned big-endian number. */
  function Unsigned(d: seq<Byte>): (r: nat)
    ensures r < Pow(256, |d|)
  {
    if d == [] then 0
    else
      var p := d[..|d| - 1];
      assert Unsigned(p) <= Pow(256, |p|) - 1;
      Unsigned(p) * 256 + d[|d| - 1]
  }

  /** The n-byte big-endian encoding of u. */
  function BigEndian(u: nat, n: nat): (r: seq<Byte>)
    requires u < Pow(256, n)
    ensures |r| == n && Unsigned(r) == u
  {
    if n == 0 then []
    else
      var r := BigEndian(u / 256, n - 1) + [u % 256];
      assert r[..n - 1] == BigEndian(u / 256, n - 1);
      r
  }

  /** Reading 8 big-endian bytes as a two's-complement `long` (`ByteBuffer.getLong`). */
  function ReadLong(b: seq<Byte>): Long
    requires |b| == 8
  {
    var u := Unsigned(b);
    if u < 0x8000_0000_0000_0000 then u else u - 0x1_0000_0000_0000_0000
  }

  /** `ByteUtils.toBytes`: the 8-byte big-endian two's-complement image of a `long`. */
  function ToBytes(v: Long): (r: seq<Byte>)
    ensures |r| == 8
    ensures ReadLong(r) == v
  {
    assert Pow(256, 8) == 0x1_0000_0000_0000_0000;
    BigEndian(if v < 0 then v + 0x1_0000_0000_0000_0000 else v, 8)
  }

  /** `toBytes` loses nothing: distinct longs have distinct images. */
  lemma ToBytesInjective(v: Long, w: Long)
    requires ToBytes(v) == ToBytes(w)
    ensures v == w
  {
  }

  /** `ByteUtils.merge`: `Stream.concat` folded over the arguments from the first to the last. */
  function Merge(parts: seq<seq<Byte>>): (r: seq<Byte>)
  {
    if parts == [] then [] else Merge(parts[..|parts| - 1]) + parts[|parts| - 1]
  }

  function TotalLength(parts: seq<seq<Byte>>): nat
  {
    if parts == [] then 0 else TotalLength(parts[..|parts| - 1]) + |parts[|parts| - 1]|
  }

  /** Merging two argument lists is merging each and concatenating: the result is the
      arguments laid end to end, in argument order. */
  lemma {:induction false} MergeAppend(ps: seq<seq<Byte>>, qs: seq<seq<Byte>>)
    ensures Merge(ps + qs) == Merge(ps) + Merge(qs)
    ensures TotalLength(ps + qs) == TotalLength(ps) + TotalLength(qs)
    decreases |qs|
  {
    if qs == [] {
      assert ps + qs == ps;
    } else {
      var qs' := qs[..|qs| - 1];
      assert (ps + qs)[..|ps + qs| - 1] == ps + qs';
      MergeAppend(ps, qs');
    }
  }

  /** The length of a merge is the sum of the argument lengths. */
  lemma {:induction false} MergeLength(parts: seq<seq<Byte>>)
    ensures |Merge(parts)| == TotalLength(parts)
    decreases |parts|
  {
    if parts != [] {
      MergeLength(parts[..|parts| - 1]);
    }
  }

  /** The five-argument merge that `prepareData` performs. */
  lemma MergeFive(a: seq<Byte>, b: seq<Byte>, c: seq<Byte>, d: seq<Byte>, e: seq<Byte>)
    ensures Merge([a, b, c, d, e]) == a + b + c + d + e
    ensures Merge([]) == []
  {
    assert [a][..0] == [];
    assert Merge([a]) == a;
    assert [a, b][..1] == [a];
    assert Merge([a, b]) == a + b;
    assert [a, b, c][..2] == [a, b];
    assert Merge([a, b, c]) == a + b + c;
    assert [a, b, c, d][..3] == [a, b, c];
    assert Merge([a, b, c, d]) == a + b + c + d;
    assert [a, b, c, d, e][..4] == [a, b, c, d];
  }

  /** `BigInteger.toByteArray()` of a non-negative number: big-endian two's complement of
      minimal length. Zero is the single byte 0x00, and a leading 0x00 appears exactly
      when the next byte has its top bit set. */
  function ToByteArray(n: nat): (r: seq<Byte>)
    ensures |r| >= 1 && Unsigned(r) == n
    ensures r[0] < 128
    ensures |r| >= 2 ==> !(r[0] == 0 && r[1] < 128)
    decreases n
  {
    if n < 128 then [n]
    else
      var r := ToByteArray(n / 256) + [n % 256];
      assert r[..|r| - 1] == ToByteArray(n / 256);
      r
  }

  /** Number of leading elements equal to x. */
  function LeadingCount<T(==)>(s: seq<T>, x: T): (k: nat)
    ensures k <= |s|
    ensures forall i | 0 <= i < k :: s[i] == x
    ensures k < |s| ==> s[k] != x
  {
    if s == [] || s[0] != x then 0 else 1 + LeadingCount(s[1..], x)
  }

  function Repeat<T>(x: T, n: nat): (r: seq<T>)
    ensures |r| == n && forall i | 0 <= i < n :: r[i] == x
  {
    seq(n, _ => x)
  }

  /** Leading zero bytes do not change the unsigned value. */
  lemma {:induction false} UnsignedZerosPrefix(z: nat, d: seq<Byte>)
    ensures Unsigned(Zeros(z) + d) == Unsigned(d)
    decreases |d|
  {
    if d == [] {
      assert Zeros(z) + d == Zeros(z);
      UnsignedZeros(z);
    } else {
      var d' := d[..|d| - 1];
      assert (Zeros(z) + d)[..|Zeros(z) + d| - 1] == Zeros(z) + d';
      UnsignedZerosPrefix(z, d');
    }
  }

  lemma {:induction false} UnsignedZeros(z: nat)
    ensures Unsigned(Zeros(z)) == 0
  {
    if z > 0 {
      assert Zeros(z)[..z - 1] == Zeros(z - 1);
      UnsignedZeros(z - 1);
    }
  }

  /** A byte string that does not start with 0x00 has a positive value unless it is empty. */
  lemma {:induction false} UnsignedPositive(d: seq<Byte>)
    requires d != [] && d[0] != 0
    ensures Unsigned(d) > 0
    decreases |d|
  {
    if |d| > 1 {
      UnsignedPositive(d[..|d| - 1]);
    }
  }

  /** Dropping the sign byte that `toByteArray` may add gives back any byte string without
      leading zeros: the magnitude bytes are recovered exactly. */
  lemma {:induction false} MagnitudeBytes(d: seq<Byte>)
    requires d == [] || d[0] != 0
    ensures StripSignByte(ToByteArray(Unsigned(d))) == d
    decreases |d|
  {
    if |d| >= 2 {
      var p := d[..|d| - 1];
      UnsignedPositive(p);
      var n := Unsigned(d);
      assert n == Unsigned(p) * 256 + d[|d| - 1];
      assert n >= 128;
      assert n / 256 == Unsigned(p) && n % 256 == d[|d| - 1];
      MagnitudeBytes(p);
      var t := ToByteArray(Unsigned(p));
      assert ToByteArray(n) == t + [d[|d| - 1]];
      if t[0] == 0 {
        assert StripSignByte(t + [d[|d| - 1]]) == t[1..] + [d[|d| - 1]];
      }
    }
  }

  /** The first step of `base58ToRawBytes` after `toByteArray`: drop a leading 0x00. */
  function StripSignByte(b: seq<Byte>): (r: seq<Byte>)
    requires |b| >= 1
  {
    if b[0] == 0 then b[1..] else b
  }

  /** `String.getBytes()` under the UTF-8 default charset. */
  function Utf8(s: string): (r: seq<Byte>)
    ensures |r| >= |s|
    ensures (forall i | 0 <= i < |s| :: s[i] as int < 0x80) ==> |r| == |s|
  {
    if s == [] then [] else Utf8(s[..|s| - 1]) + Utf8Char(s[|s| - 1])
  }

  function Utf8Char(c: char): (r: seq<Byte>)
    ensures 1 <= |r| <= 4
    ensures c as int < 0x80 <==> r == [c as int]
  {
    var v := c as int;
    if v < 0x80 then [v]
    else if v < 0x800 then [0xC0 + v / 64, 0x80 + v % 64]
    else if v < 0x1_0000 then [0xE0 + v / 4096, 0x80 + (v / 64) % 64, 0x80 + v % 64]
    else [0xF0 + v / 0x4_0000, 0x80 + (v / 4096) % 64, 0x80 + (v / 64) % 64, 0x80 + v % 64]
  }

  /** `Arrays.copyOfRange(a, from, to)`: a negative length is an IllegalArgumentException,
      a start outside the array an ArrayIndexOutOfBoundsException; positions past the end
      of `a` are filled with zero bytes. */
  function CopyOfRange(a: seq<Byte>, from: int, to: int): (r: Result<seq<Byte>>)
    ensures r.Success? <==> 0 <= from <= |a| && from <= to
    ensures from > to ==> r == Failure(IllegalRange)
    ensures r.Success? ==> |r.value| == to - from
    ensures r.Success? ==> forall i | 0 <= i < to - from ::
      r.value[i] == if from + i < |a| then a[from + i] else 0
  {
    if from > to then Failure(IllegalRange)
    else if from < 0 || from > |a| then Failure(IndexOutOfBounds)
    else if to <= |a| then Success(a[from..to])
    else Success(a[from..] + Zeros(to - |a|))
  }
}
