/** `Wallet.getAddress`: a key pair's Bitcoin-style address. Key generation is outside the
    model, so a wallet is just the pair of key encodings. */
module Wallets {
  import opened Bytes
  import opened Outcomes
  import opened Crypto
  import opened Base58Check

  /** An ECDSA private key, kept opaque: only the signing function reads it. */
  datatype PrivateKey = PrivateKey(encoded: seq<Byte>)

  datatype Wallet = Wallet(privateKey: PrivateKey, publicKey: seq<Byte>)

  /** The version byte 0x00 followed by the public key's RIPEMD-160(SHA-256) hash. */
  function VersionedPayload(h: Hashes, publicKey: seq<Byte>): (p: seq<Byte>)
    ensures |p| == 21 && p[0] == 0
  {
    [0] + RipeMD160Hash(h, publicKey)
  }

  /** `getAddress`: the raw Base58 text of version byte, hash and checksum. The checked
      decoding of the address gives back the versioned payload, and the zero version
      byte makes every address start with '1'. */
  function GetAddress(h: Hashes, w: Wallet): (address: string)
    ensures Base58ToBytes(h, address) == Success(VersionedPayload(h, w.publicKey))
    ensures |address| > 0 && address[0] == '1'
  {
    var payload := VersionedPayload(h, w.publicKey);
    var address := RawToBase58(payload + Checksum(h, payload));
    assert payload + Checksum(h, payload) == AddCheckHash(h, payload);
    CheckedRoundTrip(h, payload);
    RawToBase58LeadingOnes(payload + Checksum(h, payload));
    address
  }

  /** The address is a function of the public key alone. */
  lemma AddressIgnoresPrivateKey(h: Hashes, w1: Wallet, w2: Wallet)
    requires w1.publicKey == w2.publicKey
    ensures GetAddress(h, w1) == GetAddress(h, w2)
  {
  }
}
