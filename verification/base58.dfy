/** `Base58Check`: Bitcoin's base-58 text encoding of byte strings (big-number conversion
    plus one '1' per leading zero byte) and its checked form with a four-byte
    double-SHA-256 checksum. */
module Base58Check {
  import opened Bytes
  import opened Outcomes
  import opened Crypto

  /** The k-th character of the Bitcoin alphabet
      "123456789ABCDEFGHJKLMNPQRSTUVWXYZabcdefghijkmnopqrstuvwxyz": the digits without
      '0', then the upper-case letters without 'I' and 'O', then the lower-case letters
      without 'l', each run in ascending order. */
  function AlphabetChar(k: nat): char
    requires k < 58
  {
    if k < 9 then ('1' as int + k) as char
    else if k < 17 then ('A' as int + (k - 9)) as char
    else if k < 22 then ('J' as int + (k - 17)) as char
    else if k < 33 then ('P' as int + (k - 22)) as char
    else if k < 44 then ('a' as int + (k - 33)) as char
    else ('m' as int + (k - 44)) as char
  }

  /** The first n characters of the alphabet. */
  function AlphabetPrefix(n: nat): (s: string)
    requires n <= 58
    ensures |s| == n && forall k | 0 <= k < n :: s[k] == AlphabetChar(k)
  {
    if n == 0 then [] else AlphabetPrefix(n - 1) + [AlphabetChar(n - 1)]
  }

  const ALPHABET: string := AlphabetPrefix(58)

  /** The alphabet is strictly ascending (so no character repeats), starts with '1' and
      leaves out the look-alike characters '0', 'O', 'I' and 'l'. */
  lemma AlphabetShape()
    ensures |ALPHABET| == 58 && ALPHABET[0] == '1'
    ensures forall k | 0 <= k < 58 :: ALPHABET[k] == AlphabetChar(k)
    ensures forall i, j | 0 <= i < j < 58 :: AlphabetChar(i) < AlphabetChar(j)
    ensures '0' !in ALPHABET && 'O' !in ALPHABET && 'I' !in ALPHABET && 'l' !in ALPHABET
  {
  }

  lemma AlphabetZero()
    ensures |ALPHABET| == 58 && ALPHABET[0] == '1'
  {
  }

  lemma AlphabetAt(k: nat)
    requires k < 58
    ensures |ALPHABET| == 58 && ALPHABET[k] == AlphabetChar(k)
  {
  }

  /** `ALPHABET.indexOf(c)`: the position of c in the alphabet, or -1. */
  function IndexOf(c: char): (r: int)
    ensures -1 <= r < 58
    ensures r >= 0 ==> AlphabetChar(r) == c
  {
    if '1' <= c <= '9' then c as int - '1' as int
    else if 'A' <= c <= 'H' then c as int - 'A' as int + 9
    else if 'J' <= c <= 'N' then c as int - 'J' as int + 17
    else if 'P' <= c <= 'Z' then c as int - 'P' as int + 22
    else if 'a' <= c <= 'k' then c as int - 'a' as int + 33
    else if 'm' <= c <= 'z' then c as int - 'm' as int + 44
    else -1
  }

  /** `indexOf` misses exactly the characters outside the alphabet. */
  lemma IndexOfMisses(c: char)
    ensures IndexOf(c) == -1 <==> c !in ALPHABET
  {
    AlphabetShape();
  }

  predicate AllDigits(s: string)
  {
    forall i | 0 <= i < |s| :: IndexOf(s[i]) >= 0
  }

  /** The base-58 digits of n, most significant first, without leading '1' digits;
      zero has no digits. */
  function Digits(n: nat): (s: string)
    ensures AllDigits(s)
    ensures n == 0 <==> s == []
    ensures s != [] ==> s[0] != '1'
    decreases n
  {
    if n == 0 then []
    else
      var s := Digits(n / 58) + [AlphabetChar(n % 58)];
      assert s[..|s| - 1] == Digits(n / 58);
      s
  }

  /** The number a string of alphabet characters denotes in base 58. */
  function Base58Value(s: string): nat
    requires AllDigits(s)
  {
    if s == [] then 0 else Base58Value(s[..|s| - 1]) * 58 + IndexOf(s[|s| - 1])
  }

  /** What `rawBytesToBase58(d)` returns: one '1' per leading zero byte, then the
      base-58 digits of d read as an unsigned number. */
  function RawToBase58(d: seq<Byte>): string
  {
    Repeat('1', LeadingCount(d, 0)) + Digits(Unsigned(d))
  }

  /** What `base58ToRawBytes(s)` returns or throws. */
  function Base58ToRaw(s: string): (r: Result<seq<Byte>>)
    ensures r.Failure? <==> !AllDigits(s)
    ensures r.Failure? ==> r.error == InvalidCharacter
  {
    if !AllDigits(s) then Failure(InvalidCharacter)
    else Success(Zeros(LeadingCount(s, '1')) + StripSignByte(ToByteArray(Base58Value(s))))
  }

  function Reverse(s: string): (r: string)
    ensures |r| == |s|
  {
    if s == [] then [] else [s[|s| - 1]] + Reverse(s[..|s| - 1])
  }

  /** `rawBytesToBase58`: repeated division by 58 appending the remainder digits, then
      one '1' per leading zero byte, then the builder reversed. */
  method RawBytesToBase58(data: seq<Byte>) returns (s: string)
    ensures s == RawToBase58(data)
  {
    ghost var digits := Digits(Unsigned(data));
    var sb: string := [];
    var num := Unsigned(data);
    while num != 0
      invariant digits == Digits(num) + Reverse(sb)
      decreases num
    {
      DigitStep(num, sb, digits);
      sb := sb + [ALPHABET[num % 58]];
      num := num / 58;
    }
    var i := 0;
    AlphabetZero();
    while i < |data| && data[i] == 0
      invariant i <= LeadingCount(data, 0)
      invariant Reverse(sb) == Repeat('1', i) + digits
    {
      OnesStep(sb, i, digits);
      sb := sb + [ALPHABET[0]];
      i := i + 1;
    }
    s := Reverse(sb);
  }

  lemma DigitStep(n: nat, sb: string, digits: string)
    requires n > 0 && digits == Digits(n) + Reverse(sb)
    ensures digits == Digits(n / 58) + Reverse(sb + [ALPHABET[n % 58]])
  {
    AlphabetAt(n % 58);
    ReverseSnoc(sb, ALPHABET[n % 58]);
  }

  lemma OnesStep(sb: string, i: nat, digits: string)
    requires Reverse(sb) == Repeat('1', i) + digits
    ensures Reverse(sb + ['1']) == Repeat('1', i + 1) + digits
  {
    ReverseSnoc(sb, '1');
    assert Repeat('1', i + 1) == ['1'] + Repeat('1', i);
  }

  lemma ReverseSnoc(s: string, c: char)
    ensures Reverse(s + [c]) == [c] + Reverse(s)
  {
    assert (s + [c])[..|s|] == s;
  }

  /** `base58ToRawBytes`: the digits accumulated into one number (throwing at the first
      character outside the alphabet), its `toByteArray()` without the sign byte, and one
      zero byte in front per leading '1'. */
  method Base58ToRawBytes(s: string) returns (r: Result<seq<Byte>>)
    ensures r == Base58ToRaw(s)
  {
    var num := 0;
    var i := 0;
    while i < |s|
      invariant 0 <= i <= |s|
      invariant AllDigits(s[..i]) && num == Base58Value(s[..i])
    {
      num := num * 58;
      var digit := IndexOf(s[i]);
      if digit == -1 {
        return Failure(InvalidCharacter);
      }
      ValueStep(s, i);
      num := num + digit;
      i := i + 1;
    }
    assert s[..i] == s;
    var b := ToByteArray(num);
    if b[0] == 0 {
      b := b[1..];
    }
    var buf: seq<Byte> := [];
    var j := 0;
    AlphabetZero();
    while j < |s| && s[j] == ALPHABET[0]
      invariant j <= LeadingCount(s, '1')
      invariant buf == Zeros(j)
    {
      LeadingStep(s, j);
      ZerosStep(j);
      buf := buf + [0];
      j := j + 1;
    }
    r := Success(buf + b);
  }

  lemma ValueStep(s: string, i: nat)
    requires i < |s| && AllDigits(s[..i]) && IndexOf(s[i]) >= 0
    ensures AllDigits(s[..i + 1])
    ensures Base58Value(s[..i + 1]) == Base58Value(s[..i]) * 58 + IndexOf(s[i])
  {
    assert s[..i + 1][..i] == s[..i];
  }

  lemma LeadingStep(s: string, j: nat)
    requires j <= LeadingCount(s, '1') && j < |s| && s[j] == '1'
    ensures j + 1 <= LeadingCount(s, '1')
  {
  }

  lemma ZerosStep(j: nat)
    ensures Zeros(j) + [0] == Zeros(j + 1)
  {
  }

  /** Every alphabet character is found at its own position. */
  lemma IndexOfAlphabet(k: nat)
    requires k < 58
    ensures IndexOf(AlphabetChar(k)) == k
  {
  }

  lemma {:induction false} ValueOfDigits(n: nat)
    ensures Base58Value(Digits(n)) == n
    decreases n
  {
    if n > 0 {
      var s := Digits(n);
      assert s[..|s| - 1] == Digits(n / 58);
      ValueOfDigits(n / 58);
      IndexOfAlphabet(n % 58);
    }
  }

  /** Leading '1' characters (the digit zero) do not change the value. */
  lemma {:induction false} ValueOnesPrefix(z: nat, t: string)
    requires AllDigits(t)
    ensures AllDigits(Repeat('1', z) + t)
    ensures Base58Value(Repeat('1', z) + t) == Base58Value(t)
    decreases z + |t|
  {
    var s := Repeat('1', z) + t;
    IndexOfAlphabet(0);
    if t == [] {
      assert s == Repeat('1', z);
      if z > 0 {
        assert s[..|s| - 1] == Repeat('1', z - 1) + [];
        ValueOnesPrefix(z - 1, []);
      }
    } else {
      assert s[..|s| - 1] == Repeat('1', z) + t[..|t| - 1];
      ValueOnesPrefix(z, t[..|t| - 1]);
    }
  }

  /** `rawBytesToBase58` emits only alphabet characters, so never '0', 'O', 'I' or 'l'. */
  lemma RawToBase58Alphabet(d: seq<Byte>)
    ensures AllDigits(RawToBase58(d))
    ensures forall i | 0 <= i < |RawToBase58(d)| :: RawToBase58(d)[i] in ALPHABET
    ensures forall i | 0 <= i < |RawToBase58(d)| ::
      RawToBase58(d)[i] !in {'0', 'O', 'I', 'l'}
  {
    ValueOnesPrefix(LeadingCount(d, 0), Digits(Unsigned(d)));
    AlphabetShape();
  }

  /** The encoding starts with exactly as many '1' characters as d has leading zero bytes. */
  lemma RawToBase58LeadingOnes(d: seq<Byte>)
    ensures LeadingCount(RawToBase58(d), '1') == LeadingCount(d, 0)
  {
    var z := LeadingCount(d, 0);
    var s := RawToBase58(d);
    assert forall j | 0 <= j < z :: s[j] == '1';
    assert z == |s| || s[z] != '1';
  }

  /** `base58ToRawBytes(rawBytesToBase58(d)) == d` for every byte string, the empty one
      and all-zero ones included. */
  lemma RawRoundTrip(d: seq<Byte>)
    ensures Base58ToRaw(RawToBase58(d)) == Success(d)
  {
    var z := LeadingCount(d, 0);
    var rest := d[z..];
    assert d == Zeros(z) + rest;
    UnsignedZerosPrefix(z, rest);
    MagnitudeBytes(rest);
    var n := Unsigned(d);
    ValueOnesPrefix(z, Digits(n));
    ValueOfDigits(n);
    RawToBase58LeadingOnes(d);
  }

  /** `addCheckHash`: the data followed by the first four bytes of its double hash. */
  function AddCheckHash(h: Hashes, data: seq<Byte>): (r: seq<Byte>)
    ensures |r| == |data| + 4
    ensures r[..|data|] == data && r[|data|..] == Checksum(h, data)
  {
    data + DoubleHash(h, data)[..4]
  }

  /** `bytesToBase58`: the raw encoding of the checked data. */
  function BytesToBase58(h: Hashes, data: seq<Byte>): string
  {
    RawToBase58(AddCheckHash(h, data))
  }

  /** `base58ToBytes`: decode, split off the last four bytes, and compare them with the
      recomputed checksum. Fewer than four decoded bytes make `Arrays.copyOf` fail with a
      negative length. */
  function Base58ToBytes(h: Hashes, s: string): (r: Result<seq<Byte>>)
    ensures r == Failure(InvalidCharacter) <==> !AllDigits(s)
    ensures r == Failure(NegativeArraySize) <==>
      Base58ToRaw(s).Success? && |Base58ToRaw(s).value| < 4
    ensures r.Success? ==> Base58ToRaw(s) == Success(AddCheckHash(h, r.value))
    ensures r == Failure(ChecksumMismatch) <==>
      && Base58ToRaw(s).Success? && |Base58ToRaw(s).value| >= 4
      && forall d :: Base58ToRaw(s) != Success(AddCheckHash(h, d))
    ensures r.Failure? ==> r.error in {InvalidCharacter, NegativeArraySize, ChecksumMismatch}
  {
    match Base58ToRaw(s)
    case Failure(e) => Failure(e)
    case Success(concat) =>
      if |concat| < 4 then Failure(NegativeArraySize)
      else
        var data := concat[..|concat| - 4];
        if DoubleHash(h, data)[..4] != concat[|concat| - 4..] then Failure(ChecksumMismatch)
        else
          assert concat == AddCheckHash(h, data);
          Success(data)
  }

  /** A string whose raw decoding is `addCheckHash(d)` decodes under the check to d. */
  lemma DecodeChecked(h: Hashes, s: string, d: seq<Byte>)
    requires Base58ToRaw(s) == Success(AddCheckHash(h, d))
    ensures Base58ToBytes(h, s) == Success(d)
  {
    var c := AddCheckHash(h, d);
    assert c[..|c| - 4] == d;
  }

  /** `base58ToBytes(bytesToBase58(d)) == d`. */
  lemma CheckedRoundTrip(h: Hashes, d: seq<Byte>)
    ensures Base58ToBytes(h, BytesToBase58(h, d)) == Success(d)
  {
    RawRoundTrip(AddCheckHash(h, d));
    DecodeChecked(h, BytesToBase58(h, d), d);
  }
}
