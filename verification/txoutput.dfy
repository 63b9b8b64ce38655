/** `TXOutput`: an amount locked to the hash of a public key. */
module Outputs {
  import opened Bytes
  import opened Outcomes
  import opened Crypto
  import opened Base58Check
  import opened Wallets

  datatype TXOutput = TXOutput(value: Int32, pubKeyHash: seq<Byte>)

  /** `newTXOutput`: the value as given, locked to the checked-decoded address without
      its version byte. An address `base58ToBytes` rejects fails the same way, and a
      decoding to no bytes at all fails in `copyOfRange`. */
  function NewTXOutput(h: Hashes, value: Int32, address: string): (r: Result<TXOutput>)
    ensures Base58ToBytes(h, address).Failure? ==> r == Failure(Base58ToBytes(h, address).error)
    ensures Base58ToBytes(h, address) == Success([]) ==> r == Failure(IllegalRange)
    ensures Base58ToBytes(h, address).Success? && |Base58ToBytes(h, address).value| >= 1 ==>
      r == Success(TXOutput(value, Base58ToBytes(h, address).value[1..]))
    ensures r.Success? ==> r.value.value == value
    ensures r.Success? ==> exists version :: Base58ToBytes(h, address) == Success([version] + r.value.pubKeyHash)
  {
    match Base58ToBytes(h, address)
    case Failure(e) => Failure(e)
    case Success(versionedPayload) =>
      match CopyOfRange(versionedPayload, 1, |versionedPayload|)
      case Failure(e) => Failure(e)
      case Success(pubKeyHash) =>
        assert versionedPayload == [versionedPayload[0]] + pubKeyHash;
        Success(TXOutput(value, pubKeyHash))
  }

  /** `isLockedWithKey`: byte-for-byte equality of the locking hash. */
  predicate IsLockedWithKey(o: TXOutput, pubKeyHash: seq<Byte>)
  {
    o.pubKeyHash == pubKeyHash
  }

  /** Paying to a wallet's address locks the output to that wallet's public-key hash:
      the address round trip restores exactly the hash `isLockedWithKey` compares. */
  lemma OutputToWallet(h: Hashes, value: Int32, w: Wallet)
    ensures NewTXOutput(h, value, GetAddress(h, w)) == Success(TXOutput(value, RipeMD160Hash(h, w.publicKey)))
    ensures IsLockedWithKey(NewTXOutput(h, value, GetAddress(h, w)).value, RipeMD160Hash(h, w.publicKey))
  {
    var p := VersionedPayload(h, w.publicKey);
    assert p[1..] == RipeMD160Hash(h, w.publicKey);
  }
}
