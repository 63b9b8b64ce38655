/** The hash functions of `BtcAddressUtils` and the Merkle root of `MerkleTree`. Their
    algorithms are outside the model: a `Hashes` value carries them as functions, and
    everything proved holds for every choice of them that has the right output lengths. */
module Crypto {
  import opened Bytes

  type Digest32 = d: seq<Byte> | |d| == 32 witness seq(32, _ => 0)
  type Digest20 = d: seq<Byte> | |d| == 20 witness seq(20, _ => 0)

  datatype Hashes = Hashes(
    sha256: seq<Byte> -> Digest32,
    ripemd160: seq<Byte> -> Digest20,
    /** `new MerkleTree(txIdArrays).getRoot().getHash()` as a function of the txId list. */
    merkleRoot: seq<seq<Byte>> -> seq<Byte>)

  /** `doubleHash`: SHA-256 applied twice. */
  function DoubleHash(h: Hashes, data: seq<Byte>): Digest32
  {
    h.sha256(h.sha256(data))
  }

  /** `ripeMD160Hash`: RIPEMD-160 of the SHA-256 of a public key. */
  function RipeMD160Hash(h: Hashes, pubKey: seq<Byte>): Digest20
  {
    h.ripemd160(h.sha256(pubKey))
  }

  /** `checksum`: the first four bytes of the double hash. */
  function Checksum(h: Hashes, payload: seq<Byte>): (r: seq<Byte>)
    ensures |r| == 4
  {
    DoubleHash(h, payload)[..4]
  }
}
