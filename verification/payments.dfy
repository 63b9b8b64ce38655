/** `Transaction.newUTXOTransaction` and the wallet lookup it starts with: pay amount from
    one address to another out of the sender's unspent outputs, with change back to the
    sender, then sign against the chain. */
module Payments {
  import opened Bytes
  import opened Outcomes
  import opened Crypto
  import opened Base58Check
  import opened Wallets
  import opened Outputs
  import opened Transactions
  import opened Blocks
  import opened Grouping
  import opened Chain
  import opened UtxoIndex

  /** `WalletUtils.getWallet`: an address that does not decode as checked Base58, or that
      has no wallet, throws "Fail to get wallet". */
  function GetWallet(h: Hashes, wallets: map<string, Wallet>, address: string): (r: Result<Wallet>)
    ensures r.Success? <==> Base58ToBytes(h, address).Success? && address in wallets
    ensures r.Success? ==> r.value == wallets[address]
    ensures r.Failure? ==> r.error == WalletNotFound
  {
    if Base58ToBytes(h, address).Failure? then Failure(WalletNotFound)
    else if address !in wallets then Failure(WalletNotFound)
    else Success(wallets[address])
  }

  /** A wallet kept under its own address is found: every address `getAddress` makes
      passes the checked decoding. */
  lemma GetOwnWallet(h: Hashes, wallets: map<string, Wallet>, w: Wallet)
    requires GetAddress(h, w) in wallets && wallets[GetAddress(h, w)] == w
    ensures GetWallet(h, wallets, GetAddress(h, w)) == Success(w)
  {
    assert Base58ToBytes(h, GetAddress(h, w)).Success?;
  }

  /** Every entry of the index holds fewer than 2^31 outputs, as every Java array does,
      so each position is an `int`. */
  predicate ArrayBounded(cs: Chainstate)
  {
    forall k | k in cs :: |cs[k]| <= 0x7FFF_FFFF
  }

  /** Every recorded position is an `int`. */
  predicate Fits(outs: map<seq<Byte>, seq<nat>>)
  {
    forall k | k in outs :: forall i | 0 <= i < |outs[k]| :: outs[k][i] <= 0x7FFF_FFFF
  }

  /** The inputs for one txId of `unspentOuts`: unsigned, carrying the sender's public
      key. `Wrap32` is the identity on the positions, which are `int`s. */
  function EntryInputs(txId: seq<Byte>, outIds: seq<nat>, pubKey: seq<Byte>): (r: seq<TXInput>)
    ensures |r| == |outIds|
    ensures forall i | 0 <= i < |outIds| :: r[i] == TXInput(txId, Wrap32(outIds[i]), None, Some(pubKey))
  {
    seq(|outIds|, i requires 0 <= i < |outIds| => TXInput(txId, Wrap32(outIds[i]), None, Some(pubKey)))
  }

  /** The inputs built from `unspentOuts` when the HashMap yields its keys in the order
      keys. */
  function InputsFor(keys: seq<seq<Byte>>, outs: map<seq<Byte>, seq<nat>>, pubKey: seq<Byte>): seq<TXInput>
  {
    if keys == [] then []
    else
      var n := |keys| - 1;
      InputsFor(keys[..n], outs, pubKey) + EntryInputs(keys[n], if keys[n] in outs then outs[keys[n]] else [], pubKey)
  }

  /** Each input names a recorded position of a key met so far. */
  lemma {:induction false} InputsForNames(keys: seq<seq<Byte>>, outs: map<seq<Byte>, seq<nat>>, pubKey: seq<Byte>, i: nat)
    requires Fits(outs)
    requires i < |InputsFor(keys, outs, pubKey)|
    ensures var input := InputsFor(keys, outs, pubKey)[i];
      input.txId in keys && input.txId in outs && input.txOutputIndex as int in outs[input.txId]
    decreases |keys|
  {
    var n := |keys| - 1;
    var a := InputsFor(keys[..n], outs, pubKey);
    assert keys == keys[..n] + [keys[n]];
    if i < |a| {
      InputsForNames(keys[..n], outs, pubKey, i);
    } else {
      var entry := if keys[n] in outs then outs[keys[n]] else [];
      assert InputsFor(keys, outs, pubKey)[i] == EntryInputs(keys[n], entry, pubKey)[i - |a|];
      assert entry[i - |a|] in entry;
    }
  }

  /** Every recorded position of a key met is named by an input. */
  lemma {:induction false} InputsForCovers(keys: seq<seq<Byte>>, outs: map<seq<Byte>, seq<nat>>, pubKey: seq<Byte>, k: seq<Byte>, v: nat)
    requires Fits(outs)
    requires k in keys && k in outs && v in outs[k]
    ensures exists i | 0 <= i < |InputsFor(keys, outs, pubKey)| ::
      InputsFor(keys, outs, pubKey)[i].txId == k && InputsFor(keys, outs, pubKey)[i].txOutputIndex as int == v
    decreases |keys|
  {
    var n := |keys| - 1;
    var a := InputsFor(keys[..n], outs, pubKey);
    var r := InputsFor(keys, outs, pubKey);
    if k == keys[n] {
      var b := EntryInputs(k, outs[k], pubKey);
      assert r == a + b;
      var j :| 0 <= j < |outs[k]| && outs[k][j] == v;
      assert v <= 0x7FFF_FFFF;
      assert b[j] == TXInput(k, Wrap32(v), None, Some(pubKey));
      assert Wrap32(v) == v;
      var i := |a| + j;
      assert r[i] == b[j];
      assert r[i].txId == k && r[i].txOutputIndex as int == v;
    } else {
      assert k in keys[..n] by {
        var m :| 0 <= m < |keys| && keys[m] == k;
        assert keys[..n][m] == k;
      }
      InputsForCovers(keys[..n], outs, pubKey, k, v);
      var i :| 0 <= i < |a| && a[i].txId == k && a[i].txOutputIndex as int == v;
      assert r[i] == a[i];
    }
  }

  /** The number of inputs built under keys. */
  function CountUnder(keys: seq<seq<Byte>>, pairs: seq<(seq<Byte>, nat)>): nat
  {
    if keys == [] then 0
    else
      var n := |keys| - 1;
      CountUnder(keys[..n], pairs) + |ValuesOf(pairs, keys[n])|
  }

  lemma {:induction false} CountUnderSnoc(keys: seq<seq<Byte>>, pairs: seq<(seq<Byte>, nat)>, p: (seq<Byte>, nat))
    requires forall i, j | 0 <= i < j < |keys| :: keys[i] != keys[j]
    ensures CountUnder(keys, pairs + [p]) == CountUnder(keys, pairs) + (if p.0 in keys then 1 else 0)
    decreases |keys|
  {
    assert (pairs + [p])[..|pairs|] == pairs;
    if keys != [] {
      var n := |keys| - 1;
      CountUnderSnoc(keys[..n], pairs, p);
      assert keys == keys[..n] + [keys[n]];
      if p.0 == keys[n] {
        assert p.0 !in keys[..n];
      }
    }
  }

  /** Distinct keys covering every pair count each pair once. */
  lemma {:induction false} CountUnderAll(keys: seq<seq<Byte>>, pairs: seq<(seq<Byte>, nat)>)
    requires forall i, j | 0 <= i < j < |keys| :: keys[i] != keys[j]
    requires forall i | 0 <= i < |pairs| :: pairs[i].0 in keys
    ensures CountUnder(keys, pairs) == |pairs|
    decreases |pairs|
  {
    if pairs == [] {
      CountUnderEmpty(keys);
    } else {
      var n := |pairs| - 1;
      CountUnderAll(keys, pairs[..n]);
      assert pairs[..n] + [pairs[n]] == pairs;
      CountUnderSnoc(keys, pairs[..n], pairs[n]);
    }
  }

  lemma {:induction false} CountUnderEmpty(keys: seq<seq<Byte>>)
    ensures CountUnder(keys, []) == 0
    decreases |keys|
  {
    if keys != [] {
      CountUnderEmpty(keys[..|keys| - 1]);
    }
  }

  lemma {:induction false} InputsForCount(keys: seq<seq<Byte>>, pairs: seq<(seq<Byte>, nat)>, pubKey: seq<Byte>)
    ensures |InputsFor(keys, Group(pairs), pubKey)| == CountUnder(keys, pairs)
    decreases |keys|
  {
    if keys != [] {
      var n := |keys| - 1;
      InputsForCount(keys[..n], pairs, pubKey);
      GroupMeaning(pairs, keys[n]);
    }
  }

  /** The inputs are exactly the selected outputs: one input per selected output, naming
      its txId and position, unsigned and carrying the sender's public key. */
  lemma SelectedInputs(keys: seq<seq<Byte>>, picked: seq<Candidate>, pubKey: seq<Byte>, k: seq<Byte>, v: nat)
    requires Enumerates(keys, Group(PickedRefs(picked)))
    requires Fits(Group(PickedRefs(picked)))
    ensures var r := InputsFor(keys, Group(PickedRefs(picked)), pubKey);
      && |r| == |picked|
      && (forall i | 0 <= i < |r| :: r[i].signature == None && r[i].pubKey == Some(pubKey))
      && ((exists i | 0 <= i < |r| :: r[i].txId == k && r[i].txOutputIndex as int == v)
          <==> exists j | 0 <= j < |picked| :: picked[j].txId == k && picked[j].outId == v)
  {
    var refs: seq<(seq<Byte>, nat)> := PickedRefs(picked);
    var outs := Group(refs);
    InputsForCount(keys, refs, pubKey);
    forall i | 0 <= i < |refs|
      ensures refs[i].0 in keys
    {
      GroupMeaning(refs, refs[i].0);
      ValuesOfMembership<seq<Byte>, nat>(refs, refs[i].0, refs[i].1);
    }
    CountUnderAll(keys, refs);
    GroupMeaning(refs, k);
    ValuesOfMembership<seq<Byte>, nat>(refs, k, v);
    var r := InputsFor(keys, outs, pubKey);
    forall i | 0 <= i < |r|
      ensures r[i].signature == None && r[i].pubKey == Some(pubKey)
    {
      InputsForMembershipAt(keys, outs, pubKey, i);
    }
    if exists i | 0 <= i < |r| :: r[i].txId == k && r[i].txOutputIndex as int == v {
      var i :| 0 <= i < |r| && r[i].txId == k && r[i].txOutputIndex as int == v;
      InputsForNames(keys, outs, pubKey, i);
      var j :| 0 <= j < |refs| && refs[j] == (k, v);
      assert picked[j].txId == k && picked[j].outId == v;
    }
    if exists j | 0 <= j < |picked| :: picked[j].txId == k && picked[j].outId == v {
      var j :| 0 <= j < |picked| && picked[j].txId == k && picked[j].outId == v;
      assert refs[j] == (k, v);
      InputsForCovers(keys, outs, pubKey, k, v);
    }
  }

  /** The outputs `newUTXOTransaction` creates: amount to the recipient, then the change
      `accumulated - amount` (an `int` subtraction, so it wraps) back to the sender when
      there is any. An address `newTXOutput` rejects throws. */
  function PaymentOutputs(h: Hashes, from: string, to: string, amount: Int32, accumulated: Int32): Result<seq<TXOutput>>
  {
    match NewTXOutput(h, amount, to)
    case Failure(e) => Failure(e)
    case Success(pay) =>
      if accumulated > amount then
        match NewTXOutput(h, Wrap32(accumulated - amount), from)
        case Failure(e) => Failure(e)
        case Success(change) => Success([pay, change])
      else Success([pay])
  }

  /** The wrapping sum of the output values. */
  function ValueTotal(outputs: seq<TXOutput>): Int32
  {
    if outputs == [] then 0
    else
      var n := |outputs| - 1;
      Wrap32(ValueTotal(outputs[..n]) + outputs[n].value)
  }

  /** Nothing is created or lost: the recipient gets amount, and the outputs add up to
      what was collected; there is a change output exactly when more was collected than
      paid. */
  lemma PaymentConserves(h: Hashes, from: string, to: string, amount: Int32, accumulated: Int32)
    requires accumulated >= amount
    ensures var r := PaymentOutputs(h, from, to, amount, accumulated);
      r.Success? ==>
        && r.value[0].value == amount
        && |r.value| == (if accumulated > amount then 2 else 1)
        && ValueTotal(r.value) == accumulated
  {
    var r := PaymentOutputs(h, from, to, amount, accumulated);
    if r.Success? {
      var outs := r.value;
      assert outs[..0] == [];
      assert ValueTotal(outs[..1]) == amount;
      if accumulated > amount {
        assert ValueTotal(outs) == Wrap32(ValueTotal(outs[..1]) + outs[1].value);
        ChangeAddsUp(amount, accumulated);
      }
    }
  }

  /** The payment and the wrapped change add up, with wrapping, to what was collected. */
  lemma ChangeAddsUp(amount: Int32, accumulated: Int32)
    ensures Wrap32(amount + Wrap32(accumulated - amount)) == accumulated
  {
    var change := Wrap32(accumulated - amount);
    var sum := amount + change;
    assert (change - (accumulated - amount)) % 0x1_0000_0000 == 0;
    assert sum - accumulated == change - (accumulated - amount);
    WrapUnique(sum, accumulated);
  }

  /** Two values of `int` that agree modulo 2^32 are the `int` that value wraps to. */
  lemma WrapUnique(x: int, y: Int32)
    requires (x - y) % 0x1_0000_0000 == 0
    ensures Wrap32(x) == y
  {
    var w := Wrap32(x);
    assert (w - x) % 0x1_0000_0000 == 0;
    var d := w - y;
    assert d % 0x1_0000_0000 == 0 by {
      assert w - y == (w - x) + (x - y);
    }
    assert -0x1_0000_0000 < d < 0x1_0000_0000;
  }

  /** Paying between wallets: the recipient's output is locked to the recipient's key
      hash and the change to the sender's. */
  lemma PaymentLocks(h: Hashes, sender: Wallet, recipient: Wallet, amount: Int32, accumulated: Int32)
    requires accumulated >= amount
    ensures var r := PaymentOutputs(h, GetAddress(h, sender), GetAddress(h, recipient), amount, accumulated);
      && r.Success?
      && r.value[0] == TXOutput(amount, RipeMD160Hash(h, recipient.publicKey))
      && (accumulated > amount ==>
            r.value[1] == TXOutput(Wrap32(accumulated - amount), RipeMD160Hash(h, sender.publicKey)))
  {
    OutputToWallet(h, amount, recipient);
    OutputToWallet(h, Wrap32(accumulated - amount), sender);
  }

  /** The transaction before signing: no funds, a rejected address, or the inputs and
      outputs above with createTime now and txId its own hash. */
  function UnsignedPayment(c: TxCrypto, w: Wallet, from: string, to: string, amount: Int32,
                           s: SpendableOutputResult, keys: seq<seq<Byte>>, now: Long): Result<Transaction>
  {
    if s.accumulated < amount then Failure(NotEnoughFunds)
    else
      match PaymentOutputs(c.hashes, from, to, amount, s.accumulated)
      case Failure(e) => Failure(e)
      case Success(outputs) =>
        var tx := Transaction([], InputsFor(keys, s.unspentOuts, w.publicKey), outputs, now);
        Success(tx.(txId := TxHash(c, tx)))
  }

  /** What `newUTXOTransaction` returns: the unsigned transaction signed against the
      chain, or the first exception thrown. */
  function Payment(c: TxCrypto, w: Wallet, from: string, to: string, amount: Int32,
                   s: SpendableOutputResult, keys: seq<seq<Byte>>, now: Long,
                   find: seq<Byte> -> Result<Transaction>): Result<Transaction>
  {
    match UnsignedPayment(c, w, from, to, amount, s, keys, now)
    case Failure(e) => Failure(e)
    case Success(tx) =>
      match LookupPrevTxs(find, tx.inputs)
      case Failure(e) => Failure(e)
      case Success(prevTxs) =>
        var (signed, err) := SignSpec(c, tx, w.privateKey, prevTxs);
        if err.Some? then Failure(err.value) else Success(signed)
  }

  /** Looking up previous transactions reads only the inputs' txIds. */
  lemma {:induction false} LookupSameIds(find: seq<Byte> -> Result<Transaction>, a: seq<TXInput>, b: seq<TXInput>)
    requires |a| == |b| && forall i | 0 <= i < |a| :: a[i].txId == b[i].txId
    ensures LookupPrevTxs(find, a) == LookupPrevTxs(find, b)
    decreases |a|
  {
    if a != [] {
      var n := |a| - 1;
      LookupSameIds(find, a[..n], b[..n]);
    }
  }

  /** A payment `newUTXOTransaction` returns passes `verifyTransactions` on the same chain
      when the wallet's key pair matches: signing wrote a valid signature into every
      input and changed nothing the check reads. */
  lemma PaymentVerifies(c: TxCrypto, w: Wallet, from: string, to: string, amount: Int32,
                        s: SpendableOutputResult, keys: seq<seq<Byte>>, now: Long, chain: seq<Block>, ok: bool)
    requires Fits(s.unspentOuts)
    requires KeyMatches(c, w.privateKey, w.publicKey)
    requires Payment(c, w, from, to, amount, s, keys, now, Finder(chain, ok)).Success?
    ensures VerifyTxSpec(c, chain, ok, Payment(c, w, from, to, amount, s, keys, now, Finder(chain, ok)).value) == Success(true)
  {
    var tx := UnsignedPayment(c, w, from, to, amount, s, keys, now).value;
    UnsignedInputs(c, w, from, to, amount, s, keys, now);
    SignedVerifies(c, tx, w.privateKey, chain, ok);
  }

  /** Signing against the chain, then verifying against the same chain, succeeds when
      every input carries the public key of the signing key and signing threw nothing. */
  lemma SignedVerifies(c: TxCrypto, tx: Transaction, key: PrivateKey, chain: seq<Block>, ok: bool)
    requires !IsCoinbase(tx)
    requires forall i | 0 <= i < |tx.inputs| :: tx.inputs[i].pubKey.Some? && KeyMatches(c, key, tx.inputs[i].pubKey.value)
    requires LookupPrevTxs(Finder(chain, ok), tx.inputs).Success?
    requires SignSpec(c, tx, key, LookupPrevTxs(Finder(chain, ok), tx.inputs).value).1 == None
    ensures VerifyTxSpec(c, chain, ok, SignSpec(c, tx, key, LookupPrevTxs(Finder(chain, ok), tx.inputs).value).0) == Success(true)
  {
    var find := Finder(chain, ok);
    var prevTxs := LookupPrevTxs(find, tx.inputs).value;
    var signed := SignSpec(c, tx, key, prevTxs).0;
    SignThenVerify(c, tx, key, prevTxs);
    assert |signed.inputs| == |tx.inputs|;
    LookupSameIds(find, signed.inputs, tx.inputs);
    assert !IsCoinbase(signed);
  }

  /** The unsigned payment is not a coinbase, and each of its inputs carries the
      sender's public key. */
  lemma UnsignedInputs(c: TxCrypto, w: Wallet, from: string, to: string, amount: Int32,
                       s: SpendableOutputResult, keys: seq<seq<Byte>>, now: Long)
    requires Fits(s.unspentOuts)
    requires UnsignedPayment(c, w, from, to, amount, s, keys, now).Success?
    ensures var tx := UnsignedPayment(c, w, from, to, amount, s, keys, now).value;
      && !IsCoinbase(tx)
      && forall i | 0 <= i < |tx.inputs| :: tx.inputs[i].pubKey == Some(w.publicKey)
  {
    var tx := UnsignedPayment(c, w, from, to, amount, s, keys, now).value;
    assert tx.inputs == InputsFor(keys, s.unspentOuts, w.publicKey);
    forall i | 0 <= i < |tx.inputs|
      ensures tx.inputs[i].pubKey == Some(w.publicKey) && tx.inputs[i].txOutputIndex >= 0
    {
      InputsForMembershipAt(keys, s.unspentOuts, w.publicKey, i);
    }
    assert |tx.inputs| == 1 ==> tx.inputs[0].txOutputIndex >= 0;
  }

  /** Input i of the built inputs carries the public key and a position that is not
      negative. */
  lemma {:induction false} InputsForMembershipAt(keys: seq<seq<Byte>>, outs: map<seq<Byte>, seq<nat>>, pubKey: seq<Byte>, i: nat)
    requires Fits(outs)
    requires i < |InputsFor(keys, outs, pubKey)|
    ensures InputsFor(keys, outs, pubKey)[i].pubKey == Some(pubKey)
    ensures InputsFor(keys, outs, pubKey)[i].signature == None
    ensures InputsFor(keys, outs, pubKey)[i].txOutputIndex >= 0
    decreases |keys|
  {
    var n := |keys| - 1;
    var a := InputsFor(keys[..n], outs, pubKey);
    if i < |a| {
      InputsForMembershipAt(keys[..n], outs, pubKey, i);
    } else {
      var entry := if keys[n] in outs then outs[keys[n]] else [];
      assert InputsFor(keys, outs, pubKey)[i] == EntryInputs(keys[n], entry, pubKey)[i - |a|];
    }
  }

  /** `newUTXOTransaction`. The wallets `WalletUtils` holds are the map wallets, the
      chainstate bucket is scanned in the iteration order `order`, and `now` is the clock
      reading; keys records the order in which the HashMap of selected positions yields
      its keys. */
  method NewUTXOTransaction(c: TxCrypto, wallets: map<string, Wallet>, from: string, to: string, amount: Int32,
                            blockchain: Blockchain, order: seq<seq<Byte>>, now: Long)
    returns (r: Result<Transaction>, ghost keys: seq<seq<Byte>>)
    requires WalkEnds(blockchain.db.blocks, blockchain.lastBlockHash)
    requires Enumerates(order, blockchain.db.chainstate)
    requires ArrayBounded(blockchain.db.chainstate)
    ensures GetWallet(c.hashes, wallets, from).Failure? ==> r == Failure(WalletNotFound)
    ensures GetWallet(c.hashes, wallets, from).Success? ==>
      var w := GetWallet(c.hashes, wallets, from).value;
      var s := Spendable(Candidates(order, blockchain.db.chainstate), RipeMD160Hash(c.hashes, w.publicKey), amount);
      && (s.accumulated >= amount ==> Enumerates(keys, s.unspentOuts))
      && Fits(s.unspentOuts)
      && r == Payment(c, w, from, to, amount, s, keys, now, Finder(blockchain.Walked().0, blockchain.Walked().1))
  {
    keys := [];
    var senderWallet := GetWallet(c.hashes, wallets, from);
    if senderWallet.Failure? {
      return Failure(senderWallet.error), keys;
    }
    var w := senderWallet.value;
    var pubKey := w.publicKey;
    var pubKeyHash := RipeMD160Hash(c.hashes, pubKey);

    var utxoSet := new UTXOSet(blockchain);
    var result := utxoSet.FindSpendableOutputs(pubKeyHash, amount, order);
    var accumulated := result.accumulated;
    var unspentOuts := result.unspentOuts;
    PositionsBounded(order, blockchain.db.chainstate, pubKeyHash, amount);

    if accumulated < amount {
      return Failure(NotEnoughFunds), keys;
    }

    var txInputs;
    txInputs, keys := CollectInputs(unspentOuts, pubKey);

    var txOutputs := NewOutputs(c.hashes, from, to, amount, accumulated);
    if txOutputs.Failure? {
      return Failure(txOutputs.error), keys;
    }

    var newTx := Transaction([], txInputs, txOutputs.value, now);
    newTx := newTx.(txId := TxHash(c, newTx));
    assert UnsignedPayment(c, w, from, to, amount, result, keys, now) == Success(newTx);

    var signed, err := blockchain.SignTransaction(c, newTx, w.privateKey);
    if err.Some? {
      return Failure(err.value), keys;
    }
    r := Success(signed);
  }

  /** The outputs of `newUTXOTransaction`: amount to `to`, then the change to `from`
      when more was collected than paid. */
  method NewOutputs(h: Hashes, from: string, to: string, amount: Int32, accumulated: Int32)
    returns (r: Result<seq<TXOutput>>)
    ensures r == PaymentOutputs(h, from, to, amount, accumulated)
  {
    var txOutput := NewTXOutput(h, amount, to);
    if txOutput.Failure? {
      return Failure(txOutput.error);
    }
    var txOutputs := [txOutput.value];
    if accumulated > amount {
      var change := NewTXOutput(h, Wrap32(accumulated - amount), from);
      if change.Failure? {
        return Failure(change.error);
      }
      txOutputs := txOutputs + [change.value];
      assert txOutputs == [txOutput.value, change.value];
    }
    r := Success(txOutputs);
  }

  lemma EntryInputsSnoc(txId: seq<Byte>, outIds: seq<nat>, j: nat, pubKey: seq<Byte>)
    requires j < |outIds| && outIds[j] <= 0x7FFF_FFFF
    ensures EntryInputs(txId, outIds[..j + 1], pubKey)
      == EntryInputs(txId, outIds[..j], pubKey) + [TXInput(txId, outIds[j] as Int32, None, Some(pubKey))]
  {
  }

  lemma InputsForSnoc(keys: seq<seq<Byte>>, k: seq<Byte>, outs: map<seq<Byte>, seq<nat>>, pubKey: seq<Byte>)
    requires k in outs
    ensures InputsFor(keys + [k], outs, pubKey) == InputsFor(keys, outs, pubKey) + EntryInputs(k, outs[k], pubKey)
  {
    assert (keys + [k])[..|keys|] == keys;
  }

  /** The inner loop of `newUTXOTransaction` over one entry: an unsigned input carrying
      the sender's public key for every recorded position, in order. */
  method EntryToInputs(txId: seq<Byte>, outIds: seq<nat>, pubKey: seq<Byte>) returns (txInputs: seq<TXInput>)
    requires forall j | 0 <= j < |outIds| :: outIds[j] <= 0x7FFF_FFFF
    ensures txInputs == EntryInputs(txId, outIds, pubKey)
  {
    txInputs := [];
    for j := 0 to |outIds|
      invariant txInputs == EntryInputs(txId, outIds[..j], pubKey)
    {
      var outIndex := outIds[j];
      EntryInputsSnoc(txId, outIds, j, pubKey);
      txInputs := txInputs + [TXInput(txId, outIndex as Int32, None, Some(pubKey))];
    }
    assert outIds[..|outIds|] == outIds;
  }

  /** `newUTXOTransaction`'s loop over the entries of `unspentOuts`, met in whatever order
      the HashMap yields them; keys records that order. */
  method CollectInputs(unspentOuts: map<seq<Byte>, seq<nat>>, pubKey: seq<Byte>)
    returns (txInputs: seq<TXInput>, ghost keys: seq<seq<Byte>>)
    requires Fits(unspentOuts)
    ensures Enumerates(keys, unspentOuts)
    ensures txInputs == InputsFor(keys, unspentOuts, pubKey)
  {
    keys := [];
    txInputs := [];
    var remaining := unspentOuts.Keys;
    while remaining != {}
      invariant remaining <= unspentOuts.Keys
      invariant forall i | 0 <= i < |keys| :: keys[i] in unspentOuts && keys[i] !in remaining
      invariant forall i, j | 0 <= i < j < |keys| :: keys[i] != keys[j]
      invariant forall k | k in unspentOuts :: k in remaining || k in keys
      invariant txInputs == InputsFor(keys, unspentOuts, pubKey)
      decreases remaining
    {
      var txId :| txId in remaining;
      var outIds := unspentOuts[txId];
      var entryInputs := EntryToInputs(txId, outIds, pubKey);
      txInputs := txInputs + entryInputs;
      InputsForSnoc(keys, txId, unspentOuts, pubKey);
      keys := keys + [txId];
      remaining := remaining - {txId};
    }
  }

  /** The positions `findSpendableOutputs` records are positions in entries of the index,
      so they are `int`s. */
  lemma PositionsBounded(order: seq<seq<Byte>>, cs: Chainstate, pubKeyHash: seq<Byte>, amount: Int32)
    requires Enumerates(order, cs) && ArrayBounded(cs)
    ensures Fits(Spendable(Candidates(order, cs), pubKeyHash, amount).unspentOuts)
  {
    var outs := Spendable(Candidates(order, cs), pubKeyHash, amount).unspentOuts;
    forall k | k in outs
      ensures forall i | 0 <= i < |outs[k]| :: outs[k][i] <= 0x7FFF_FFFF
    {
      SpendableLocked(order, cs, pubKeyHash, amount, k);
      forall i | 0 <= i < |outs[k]|
        ensures outs[k][i] <= 0x7FFF_FFFF
      {
        assert outs[k][i] in outs[k];
      }
    }
  }
}
