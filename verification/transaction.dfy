/** `Transaction` and `TXInput`: transaction ids, coinbase transactions, the trimmed copy
    and the per-input signing digest shared by `sign` and `verify`. The Kryo
    serialisation, SHA-256 and ECDSA are functions carried in a `TxCrypto` value. */
module Transactions {
  import opened Bytes
  import opened Outcomes
  import opened Crypto
  import opened Wallets
  import opened Outputs

  /** `Transaction.SUBSIDY`: the value of a coinbase output. */
  const SUBSIDY: Int32 := 10

  /** A reference to output `txOutputIndex` of transaction `txId`, with the spender's
      signature and public key (`null` is `None`). */
  datatype TXInput = TXInput(
    txId: seq<Byte>,
    txOutputIndex: Int32,
    signature: Option<seq<Byte>>,
    pubKey: Option<seq<Byte>>)

  datatype Transaction = Transaction(
    txId: seq<Byte>,
    inputs: seq<TXInput>,
    outputs: seq<TXOutput>,
    createTime: Long)

  /** The functions a transaction's id and signatures are computed with: hashing,
      Kryo's byte encoding of a transaction, ECDSA signing with a private key, and ECDSA
      verification against the public point (x, y) of secp256k1. Verification is
      everything after `createPoint`: building the key, decoding the signature and
      checking it; a `Failure` is an exception it throws, such as `SignatureFailure`
      for a signature that does not decode. */
  datatype TxCrypto = TxCrypto(
    hashes: Hashes,
    serialize: Transaction -> seq<Byte>,
    ecSign: (PrivateKey, seq<Byte>) -> seq<Byte>,
    ecVerify: (nat, nat, seq<Byte>, seq<Byte>) -> Result<bool>)

  /** The prime of the field secp256k1 is defined over, 2^256 - 2^32 - 977: `createPoint`
      rejects a coordinate at or above it. */
  const SECP256K1_P: nat := 0xffff_ffff_ffff_ffff_ffff_ffff_ffff_ffff_ffff_ffff_ffff_ffff_ffff_fffe_ffff_fc2f

  /** The previous transactions an input may reference, by txId. */
  type PrevTxs = map<seq<Byte>, Transaction>

  /** `hash()`: SHA-256 of the serialised transaction with its txId emptied. */
  function TxHash(c: TxCrypto, tx: Transaction): Digest32
  {
    c.hashes.sha256(c.serialize(tx.(txId := [])))
  }

  /** `hash()` never reads the txId field: transactions that differ only in txId hash
      alike, which is why storing the hash in txId leaves the id stable. */
  lemma HashIgnoresTxId(c: TxCrypto, tx: Transaction, id: seq<Byte>)
    ensures TxHash(c, tx.(txId := id)) == TxHash(c, tx)
  {
  }

  /** `isCoinbase`: exactly one input, with an empty txId and output index -1. */
  predicate IsCoinbase(tx: Transaction)
  {
    |tx.inputs| == 1 && |tx.inputs[0].txId| == 0 && tx.inputs[0].txOutputIndex == -1
  }

  /** `Character.isWhitespace`. */
  predicate IsWhitespace(ch: char)
  {
    ch == ' ' || ch == '\t' || ch == '\n' || ch == '\U{000B}' || ch == '\U{000C}' || ch == '\r'
    || '\U{001C}' <= ch <= '\U{001F}'
    || ch == '\U{1680}' || '\U{2000}' <= ch <= '\U{2006}' || '\U{2008}' <= ch <= '\U{200A}'
    || ch == '\U{2028}' || ch == '\U{2029}' || ch == '\U{205F}' || ch == '\U{3000}'
  }

  /** `StringUtils.isBlank` of a non-null string. */
  predicate IsBlank(s: string)
  {
    forall i | 0 <= i < |s| :: IsWhitespace(s[i])
  }

  /** The coinbase text used when the given data is blank. */
  function RewardText(to: string): string
  {
    "Reward to '" + to + "'"
  }

  /** `newCoinbaseTX(to, data)` at clock reading `now`: one input carrying the data bytes
      (or the reward text when the data is blank) and one output of SUBSIDY locked to
      `to`; its txId is its own hash. An address `newTXOutput` rejects fails the call. */
  function NewCoinbaseTX(c: TxCrypto, to: string, data: string, now: Long): (r: Result<Transaction>)
    ensures NewTXOutput(c.hashes, SUBSIDY, to).Failure? <==> r.Failure?
    ensures r.Success? ==>
      && IsCoinbase(r.value)
      && r.value.inputs[0] == TXInput([], -1, None, Some(Utf8(if IsBlank(data) then RewardText(to) else data)))
      && r.value.outputs == [NewTXOutput(c.hashes, SUBSIDY, to).value]
      && r.value.outputs[0].value == SUBSIDY
      && r.value.createTime == now
      && r.value.txId == TxHash(c, r.value)
  {
    var text := if IsBlank(data) then RewardText(to) else data;
    var input := TXInput([], -1, None, Some(Utf8(text)));
    match NewTXOutput(c.hashes, SUBSIDY, to)
    case Failure(e) => Failure(e)
    case Success(output) =>
      var tx := Transaction([], [input], [output], now);
      Success(tx.(txId := TxHash(c, tx)))
  }

  /** The trimmed form of a transaction: every input's signature and public key nulled,
      everything else kept. */
  function Trimmed(tx: Transaction): Transaction
  {
    tx.(inputs := seq(|tx.inputs|, i requires 0 <= i < |tx.inputs| =>
      tx.inputs[i].(signature := None, pubKey := None)))
  }

  /** `trimmedCopy`: a fresh transaction with the same txId, createTime, outputs and input
      references, and every input's signature and public key nulled. */
  method TrimmedCopy(tx: Transaction) returns (copy: Transaction)
    ensures copy == Trimmed(tx)
    ensures copy.txId == tx.txId && copy.createTime == tx.createTime && copy.outputs == tx.outputs
    ensures |copy.inputs| == |tx.inputs|
    ensures forall i | 0 <= i < |tx.inputs| ::
      && copy.inputs[i].txId == tx.inputs[i].txId
      && copy.inputs[i].txOutputIndex == tx.inputs[i].txOutputIndex
      && copy.inputs[i].signature == None && copy.inputs[i].pubKey == None
  {
    var inputs: seq<TXInput> := [];
    for i := 0 to |tx.inputs|
      invariant |inputs| == i
      invariant forall j | 0 <= j < i :: inputs[j] == TXInput(tx.inputs[j].txId, tx.inputs[j].txOutputIndex, None, None)
    {
      var input := tx.inputs[i];
      inputs := inputs + [TXInput(input.txId, input.txOutputIndex, None, None)];
    }
    var outputs: seq<TXOutput> := [];
    for i := 0 to |tx.outputs|
      invariant outputs == tx.outputs[..i]
    {
      var output := tx.outputs[i];
      outputs := outputs + [TXOutput(output.value, output.pubKeyHash)];
    }
    copy := Transaction(tx.txId, inputs, outputs, tx.createTime);
  }

  predicate AllPrevFound(tx: Transaction, prevTxs: PrevTxs)
  {
    forall i | 0 <= i < |tx.inputs| :: tx.inputs[i].txId in prevTxs
  }

  /** The output input i spends: `prevTx.getOutputs()[txOutputIndex]`, or None where
      that index is outside the previous transaction's outputs. */
  function PrevOutput(tx: Transaction, prevTxs: PrevTxs, i: nat): Option<TXOutput>
    requires i < |tx.inputs| && AllPrevFound(tx, prevTxs)
  {
    var prev := prevTxs[tx.inputs[i].txId];
    var k := tx.inputs[i].txOutputIndex;
    if 0 <= k < |prev.outputs| then Some(prev.outputs[k]) else None
  }

  /** The message signed and verified for input i: the hash of the trimmed copy in which
      only input i carries, as its public key, the locking hash of the output it spends. */
  function InputDigest(c: TxCrypto, tx: Transaction, i: nat, lockingHash: seq<Byte>): Digest32
    requires i < |tx.inputs|
  {
    var copy := Trimmed(tx);
    TxHash(c, copy.(inputs := copy.inputs[i := copy.inputs[i].(pubKey := Some(lockingHash))]))
  }

  /** The three steps `sign` and `verify` take on the trimmed copy for input i: put the
      spent output's locking hash in as the public key, hash into txId, and null the
      public key again; the new txId is input i's digest and the copy is trimmed again. */
  method HashWithLockingHash(c: TxCrypto, copy: Transaction, ghost tx: Transaction, i: nat, lockingHash: seq<Byte>)
    returns (copy': Transaction)
    requires i < |tx.inputs| && copy == Trimmed(tx).(txId := copy.txId)
    ensures copy' == Trimmed(tx).(txId := copy'.txId)
    ensures copy'.txId == InputDigest(c, tx, i, lockingHash)
  {
    copy' := copy.(inputs := copy.inputs[i := copy.inputs[i].(pubKey := Some(lockingHash), signature := None)]);
    copy' := copy'.(txId := TxHash(c, copy'));
    copy' := copy'.(inputs := copy'.inputs[i := copy'.inputs[i].(pubKey := None)]);
  }

  /** The digest depends on the inputs' references, the outputs and createTime only, so
      it is the same before and after signatures or public keys are filled in. */
  lemma InputDigestSameTrim(c: TxCrypto, tx: Transaction, tx': Transaction, i: nat, lockingHash: seq<Byte>)
    requires i < |tx.inputs| && Trimmed(tx) == Trimmed(tx')
    ensures |tx'.inputs| == |tx.inputs|
    ensures InputDigest(c, tx, i, lockingHash) == InputDigest(c, tx', i, lockingHash)
  {
    assert |Trimmed(tx').inputs| == |tx'.inputs|;
  }

  /** The first input from `from` on whose referenced output does not exist, or the
      number of inputs when there is none. */
  function FirstBadIndex(tx: Transaction, prevTxs: PrevTxs, from: nat): (k: nat)
    requires AllPrevFound(tx, prevTxs) && from <= |tx.inputs|
    ensures from <= k <= |tx.inputs|
    ensures forall j | from <= j < k :: PrevOutput(tx, prevTxs, j).Some?
    ensures k < |tx.inputs| ==> PrevOutput(tx, prevTxs, k).None?
    decreases |tx.inputs| - from
  {
    if from == |tx.inputs| || PrevOutput(tx, prevTxs, from).None? then from
    else FirstBadIndex(tx, prevTxs, from + 1)
  }

  /** The signature `sign` writes into input i. */
  function InputSignature(c: TxCrypto, tx: Transaction, key: PrivateKey, prevTxs: PrevTxs, i: nat): seq<Byte>
    requires i < |tx.inputs| && AllPrevFound(tx, prevTxs) && PrevOutput(tx, prevTxs, i).Some?
  {
    c.ecSign(key, InputDigest(c, tx, i, PrevOutput(tx, prevTxs, i).value.pubKeyHash))
  }

  /** tx with the signatures of inputs 0..k-1 written. */
  function SignedUpTo(c: TxCrypto, tx: Transaction, key: PrivateKey, prevTxs: PrevTxs, k: nat): (r: Transaction)
    requires AllPrevFound(tx, prevTxs) && k <= |tx.inputs|
    requires forall j | 0 <= j < k :: PrevOutput(tx, prevTxs, j).Some?
    ensures |r.inputs| == |tx.inputs|
  {
    tx.(inputs := seq(|tx.inputs|, j requires 0 <= j < |tx.inputs| =>
      if j < k then tx.inputs[j].(signature := Some(InputSignature(c, tx, key, prevTxs, j)))
      else tx.inputs[j]))
  }

  /** Signing one more input writes its signature and changes nothing else. */
  lemma SignedUpToStep(c: TxCrypto, tx: Transaction, key: PrivateKey, prevTxs: PrevTxs, k: nat)
    requires AllPrevFound(tx, prevTxs) && k < |tx.inputs|
    requires forall j | 0 <= j <= k :: PrevOutput(tx, prevTxs, j).Some?
    ensures var s := SignedUpTo(c, tx, key, prevTxs, k);
      SignedUpTo(c, tx, key, prevTxs, k + 1)
        == s.(inputs := s.inputs[k := s.inputs[k].(signature := Some(InputSignature(c, tx, key, prevTxs, k)))])
  {
  }

  /** What `sign` leaves in the transaction, and the exception it throws if any. Signing
      a coinbase does nothing; a missing previous transaction is reported before anything
      is written; an output index out of range stops the loop with the earlier inputs
      already signed. */
  function SignSpec(c: TxCrypto, tx: Transaction, key: PrivateKey, prevTxs: PrevTxs): (Transaction, Option<Error>)
  {
    if IsCoinbase(tx) then (tx, None)
    else if !AllPrevFound(tx, prevTxs) then (tx, Some(PrevTxNotFound))
    else
      var k := FirstBadIndex(tx, prevTxs, 0);
      (SignedUpTo(c, tx, key, prevTxs, k), if k < |tx.inputs| then Some(IndexOutOfBounds) else None)
  }

  /** `sign`: for each input, put the spent output's locking hash into the trimmed copy,
      hash the copy, and store the ECDSA signature of that hash in the input. Only the
      inputs' signature fields change. */
  method Sign(c: TxCrypto, tx: Transaction, key: PrivateKey, prevTxs: PrevTxs)
    returns (signed: Transaction, err: Option<Error>)
    ensures (signed, err) == SignSpec(c, tx, key, prevTxs)
    ensures signed.txId == tx.txId && signed.outputs == tx.outputs && signed.createTime == tx.createTime
    ensures |signed.inputs| == |tx.inputs|
    ensures forall i | 0 <= i < |tx.inputs| ::
      signed.inputs[i].(signature := tx.inputs[i].signature) == tx.inputs[i]
  {
    if IsCoinbase(tx) {
      return tx, None;
    }
    for i := 0 to |tx.inputs|
      invariant forall j | 0 <= j < i :: tx.inputs[j].txId in prevTxs
    {
      if tx.inputs[i].txId !in prevTxs {
        return tx, Some(PrevTxNotFound);
      }
    }
    var copy := TrimmedCopy(tx);
    signed := tx;
    var i := 0;
    while i < |copy.inputs|
      invariant i <= |tx.inputs| == |copy.inputs|
      invariant copy == Trimmed(tx).(txId := copy.txId)
      invariant forall j | 0 <= j < i :: PrevOutput(tx, prevTxs, j).Some?
      invariant signed == SignedUpTo(c, tx, key, prevTxs, i)
    {
      var input := copy.inputs[i];
      var prevTx := prevTxs[input.txId];
      if !(0 <= input.txOutputIndex < |prevTx.outputs|) {
        assert PrevOutput(tx, prevTxs, i).None?;
        assert FirstBadIndex(tx, prevTxs, 0) == i;
        return signed, Some(IndexOutOfBounds);
      }
      var prevOutput := prevTx.outputs[input.txOutputIndex];
      copy := HashWithLockingHash(c, copy, tx, i, prevOutput.pubKeyHash);
      SignedUpToStep(c, tx, key, prevTxs, i);
      var signature := c.ecSign(key, copy.txId);
      signed := signed.(inputs := signed.inputs[i := signed.inputs[i].(signature := Some(signature))]);
      i := i + 1;
    }
    err := None;
  }

  /** The public point `verify` builds from an input's public key: x from bytes 1..32
      and y from bytes 33..64, each read unsigned (missing bytes past the end count as
      zero, as `copyOfRange` pads). */
  function PointX(pubKey: seq<Byte>): nat
    requires |pubKey| >= 33
  {
    Unsigned(CopyOfRange(pubKey, 1, 33).value)
  }

  function PointY(pubKey: seq<Byte>): nat
    requires |pubKey| >= 33
  {
    Unsigned(CopyOfRange(pubKey, 33, 65).value)
  }

  /** One iteration of `verify`'s loop for input i: false when the signature does not
      check against the digest `sign` computes for that input, an exception when the
      spent output does not exist, the public key is null or too short to hold a point,
      a coordinate lies outside the field, the signature is null, or the signature
      library throws. */
  function InputCheck(c: TxCrypto, tx: Transaction, prevTxs: PrevTxs, i: nat): Result<bool>
    requires i < |tx.inputs| && AllPrevFound(tx, prevTxs)
  {
    match PrevOutput(tx, prevTxs, i)
    case None => Failure(IndexOutOfBounds)
    case Some(prevOutput) =>
      var input := tx.inputs[i];
      var digest := InputDigest(c, tx, i, prevOutput.pubKeyHash);
      if input.pubKey.None? then Failure(NullPointer)
      else if |input.pubKey.value| < 33 then Failure(IndexOutOfBounds)
      else if PointX(input.pubKey.value) >= SECP256K1_P || PointY(input.pubKey.value) >= SECP256K1_P then
        Failure(InvalidPoint)
      else if input.signature.None? then Failure(NullPointer)
      else c.ecVerify(PointX(input.pubKey.value), PointY(input.pubKey.value), digest, input.signature.value)
  }

  /** A public key whose x or y lies outside the field makes the check of its input
      throw, whatever the signature library would answer, before the signature is
      read. */
  lemma OffFieldKeyThrows(c: TxCrypto, tx: Transaction, prevTxs: PrevTxs, i: nat)
    requires i < |tx.inputs| && AllPrevFound(tx, prevTxs) && PrevOutput(tx, prevTxs, i).Some?
    requires tx.inputs[i].pubKey.Some? && |tx.inputs[i].pubKey.value| >= 33
    requires PointX(tx.inputs[i].pubKey.value) >= SECP256K1_P || PointY(tx.inputs[i].pubKey.value) >= SECP256K1_P
    ensures InputCheck(c, tx, prevTxs, i) == Failure(InvalidPoint)
  {
  }

  /** The outcome of a run of checks taken in order: the first that does not pass
      (false or an exception) decides, and true when all of them pass. */
  function FirstDecisive(checks: seq<Result<bool>>): Result<bool>
  {
    if checks == [] then Success(true)
    else if checks[0] == Success(true) then FirstDecisive(checks[1..])
    else checks[0]
  }

  /** The check of every input, in input order. */
  function Checks(c: TxCrypto, tx: Transaction, prevTxs: PrevTxs): seq<Result<bool>>
    requires AllPrevFound(tx, prevTxs)
  {
    seq(|tx.inputs|, j requires 0 <= j < |tx.inputs| => InputCheck(c, tx, prevTxs, j))
  }

  /** The outcome of `verify`'s loop from input i on. */
  function VerifyFrom(c: TxCrypto, tx: Transaction, prevTxs: PrevTxs, i: nat): Result<bool>
    requires i <= |tx.inputs| && AllPrevFound(tx, prevTxs)
  {
    FirstDecisive(Checks(c, tx, prevTxs)[i..])
  }

  /** What `verify` returns or throws. `PrevTxNotFound` cannot arise when `verify` is
      called from `verifyTransactions`, which looks up every input's transaction first. */
  function VerifySpec(c: TxCrypto, tx: Transaction, prevTxs: PrevTxs): Result<bool>
  {
    if IsCoinbase(tx) then Success(true)
    else if !AllPrevFound(tx, prevTxs) then Failure(PrevTxNotFound)
    else VerifyFrom(c, tx, prevTxs, 0)
  }

  /** A run of checks comes out true exactly when every check in it passes. */
  lemma {:induction false} FirstDecisiveTrue(checks: seq<Result<bool>>)
    ensures FirstDecisive(checks) == Success(true) <==>
      forall j | 0 <= j < |checks| :: checks[j] == Success(true)
  {
    if checks != [] {
      FirstDecisiveTrue(checks[1..]);
      assert forall j | 1 <= j < |checks| :: checks[j] == checks[1..][j - 1];
    }
  }

  /** One step of `verify`'s loop: an input that checks passes control to the next one,
      and any other outcome of its check is the outcome of the whole loop. */
  lemma VerifyFromStep(c: TxCrypto, tx: Transaction, prevTxs: PrevTxs, i: nat)
    requires i < |tx.inputs| && AllPrevFound(tx, prevTxs)
    ensures InputCheck(c, tx, prevTxs, i) == Success(true) ==>
      VerifyFrom(c, tx, prevTxs, i) == VerifyFrom(c, tx, prevTxs, i + 1)
    ensures InputCheck(c, tx, prevTxs, i) != Success(true) ==>
      VerifyFrom(c, tx, prevTxs, i) == InputCheck(c, tx, prevTxs, i)
  {
    var checks := Checks(c, tx, prevTxs);
    assert checks[i..][0] == InputCheck(c, tx, prevTxs, i);
    assert checks[i..][1..] == checks[i + 1..];
  }

  /** `verify`'s loop returns true from input i on exactly when every input from i on
      passes its check. */
  lemma VerifyFromTrue(c: TxCrypto, tx: Transaction, prevTxs: PrevTxs, i: nat)
    requires i <= |tx.inputs| && AllPrevFound(tx, prevTxs)
    ensures VerifyFrom(c, tx, prevTxs, i) == Success(true) <==>
      forall j | i <= j < |tx.inputs| :: InputCheck(c, tx, prevTxs, j) == Success(true)
  {
    var rest := Checks(c, tx, prevTxs)[i..];
    FirstDecisiveTrue(rest);
    assert forall j | i <= j < |tx.inputs| :: rest[j - i] == InputCheck(c, tx, prevTxs, j);
  }

  /** `verify`: recompute, for each input, the digest `sign` signed and check the input's
      signature against it with the input's own public key. */
  method Verify(c: TxCrypto, tx: Transaction, prevTxs: PrevTxs) returns (r: Result<bool>)
    ensures r == VerifySpec(c, tx, prevTxs)
    ensures IsCoinbase(tx) ==> r == Success(true)
    ensures !IsCoinbase(tx) && !AllPrevFound(tx, prevTxs) ==> r == Failure(PrevTxNotFound)
  {
    if IsCoinbase(tx) {
      return Success(true);
    }
    for i := 0 to |tx.inputs|
      invariant forall j | 0 <= j < i :: tx.inputs[j].txId in prevTxs
    {
      if tx.inputs[i].txId !in prevTxs {
        return Failure(PrevTxNotFound);
      }
    }
    var copy := TrimmedCopy(tx);
    var i := 0;
    while i < |tx.inputs|
      invariant i <= |tx.inputs| == |copy.inputs|
      invariant copy == Trimmed(tx).(txId := copy.txId)
      invariant VerifyFrom(c, tx, prevTxs, 0) == VerifyFrom(c, tx, prevTxs, i)
    {
      VerifyFromStep(c, tx, prevTxs, i);
      var input := tx.inputs[i];
      var prevTx := prevTxs[input.txId];
      if !(0 <= input.txOutputIndex < |prevTx.outputs|) {
        return Failure(IndexOutOfBounds);
      }
      var prevOutput := prevTx.outputs[input.txOutputIndex];
      copy := HashWithLockingHash(c, copy, tx, i, prevOutput.pubKeyHash);
      if input.pubKey.None? {
        return Failure(NullPointer);
      }
      var x := CopyOfRange(input.pubKey.value, 1, 33);
      if x.Failure? {
        return Failure(x.error);
      }
      var y := CopyOfRange(input.pubKey.value, 33, 65);
      if y.Failure? {
        return Failure(y.error);
      }
      if Unsigned(x.value) >= SECP256K1_P || Unsigned(y.value) >= SECP256K1_P {
        return Failure(InvalidPoint);
      }
      if input.signature.None? {
        return Failure(NullPointer);
      }
      var valid := c.ecVerify(Unsigned(x.value), Unsigned(y.value), copy.txId, input.signature.value);
      if valid.Failure? {
        return Failure(valid.error);
      }
      if !valid.value {
        return Success(false);
      }
      i := i + 1;
    }
    r := Success(true);
  }

  /** The point encoded in `pubKey` lies in the field, and the signature scheme accepts,
      without throwing, what `key` signs, checked against that point. */
  ghost predicate KeyMatches(c: TxCrypto, key: PrivateKey, pubKey: seq<Byte>)
  {
    && |pubKey| >= 33
    && PointX(pubKey) < SECP256K1_P && PointY(pubKey) < SECP256K1_P
    && forall m :: c.ecVerify(PointX(pubKey), PointY(pubKey), m, c.ecSign(key, m)) == Success(true)
  }

  /** Sign then verify: when every input references an existing output and carries the
      public key matching the signing key, `sign` throws nothing and `verify` of the
      signed transaction returns true, because both compute the same digest for every
      input and signing changes nothing that digest reads. */
  lemma SignThenVerify(c: TxCrypto, tx: Transaction, key: PrivateKey, prevTxs: PrevTxs)
    requires !IsCoinbase(tx) && AllPrevFound(tx, prevTxs)
    requires forall i | 0 <= i < |tx.inputs| :: PrevOutput(tx, prevTxs, i).Some?
    requires forall i | 0 <= i < |tx.inputs| ::
      tx.inputs[i].pubKey.Some? && KeyMatches(c, key, tx.inputs[i].pubKey.value)
    ensures SignSpec(c, tx, key, prevTxs).1 == None
    ensures VerifySpec(c, SignSpec(c, tx, key, prevTxs).0, prevTxs) == Success(true)
  {
    var k := FirstBadIndex(tx, prevTxs, 0);
    assert k == |tx.inputs|;
    var signed := SignedUpTo(c, tx, key, prevTxs, k);
    assert Trimmed(signed) == Trimmed(tx);
    assert !IsCoinbase(signed);
    assert AllPrevFound(signed, prevTxs);
    forall j | 0 <= j < |signed.inputs|
      ensures InputCheck(c, signed, prevTxs, j) == Success(true)
    {
      assert PrevOutput(signed, prevTxs, j) == PrevOutput(tx, prevTxs, j);
      InputDigestSameTrim(c, tx, signed, j, PrevOutput(tx, prevTxs, j).value.pubKeyHash);
    }
    VerifyFromTrue(c, signed, prevTxs, 0);
  }

  /** `verify` never checks that an input's public key hashes to the locking hash of the
      output it spends: its result is the same under any RIPEMD-160, the function that
      links public keys to locking hashes. */
  lemma VerifyIgnoresOwnership(c: TxCrypto, ripemd160: seq<Byte> -> Digest20, tx: Transaction, prevTxs: PrevTxs, i: nat)
    requires i <= |tx.inputs| && AllPrevFound(tx, prevTxs)
    ensures VerifyFrom(c.(hashes := c.hashes.(ripemd160 := ripemd160)), tx, prevTxs, i)
      == VerifyFrom(c, tx, prevTxs, i)
  {
    var c' := c.(hashes := c.hashes.(ripemd160 := ripemd160));
    forall j | 0 <= j < |tx.inputs|
      ensures InputCheck(c', tx, prevTxs, j) == InputCheck(c, tx, prevTxs, j)
    {
      InputCheckIgnoresOwnership(c, ripemd160, tx, prevTxs, j);
    }
    assert Checks(c', tx, prevTxs) == Checks(c, tx, prevTxs);
  }

  lemma InputCheckIgnoresOwnership(c: TxCrypto, ripemd160: seq<Byte> -> Digest20, tx: Transaction, prevTxs: PrevTxs, i: nat)
    requires i < |tx.inputs| && AllPrevFound(tx, prevTxs)
    ensures InputCheck(c.(hashes := c.hashes.(ripemd160 := ripemd160)), tx, prevTxs, i)
      == InputCheck(c, tx, prevTxs, i)
  {
  }
}
