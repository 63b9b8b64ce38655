/** What the chain walks of `Blockchain` compute, as functions of the blocks visited
    (tip first): the spent-output index of `getAllSpentTXOs`, the UTXO index of
    `findAllUTXOs` and the lookup of `findTransaction`. */
module Ledger {
  import opened Bytes
  import opened Outcomes
  import opened Outputs
  import opened Transactions
  import opened Blocks
  import opened Grouping

  /** A reference to an output: the id of the transaction and an output index. */
  type OutRef = (seq<Byte>, Int32)

  // ----- getAllSpentTXOs -----

  /** The (txId, index) pair of every input, in order. */
  function InputRefs(inputs: seq<TXInput>): (r: seq<OutRef>)
    ensures |r| == |inputs|
    ensures forall l | 0 <= l < |inputs| :: r[l] == (inputs[l].txId, inputs[l].txOutputIndex)
  {
    seq(|inputs|, l requires 0 <= l < |inputs| => (inputs[l].txId, inputs[l].txOutputIndex))
  }

  /** The reference a coinbase input carries: an empty txId and index -1, naming no
      previous output. */
  const NULL_REF: OutRef := ([], -1)

  /** `isCoinbase` holds exactly when the transaction's references are the null
      reference alone. */
  lemma CoinbaseRefs(tx: Transaction)
    ensures IsCoinbase(tx) <==> InputRefs(tx.inputs) == [NULL_REF]
  {
    if InputRefs(tx.inputs) == [NULL_REF] {
      assert InputRefs(tx.inputs)[0] == NULL_REF;
    }
  }

  /** The references a transaction spends; a coinbase spends nothing. */
  function TxSpentRefs(tx: Transaction): seq<OutRef>
  {
    if IsCoinbase(tx) then [] else InputRefs(tx.inputs)
  }

  function BlockSpentRefs(txs: seq<Transaction>): seq<OutRef>
  {
    if txs == [] then []
    else BlockSpentRefs(txs[..|txs| - 1]) + TxSpentRefs(txs[|txs| - 1])
  }

  /** Every reference spent on the chain, in the order the walk meets them. */
  function SpentRefs(chain: seq<Block>): seq<OutRef>
  {
    if chain == [] then []
    else SpentRefs(chain[..|chain| - 1]) + BlockSpentRefs(chain[|chain| - 1].transactions)
  }

  /** The map `getAllSpentTXOs` builds: spent output indices by transaction id. */
  function Spent(chain: seq<Block>): map<seq<Byte>, seq<Int32>>
  {
    Group(SpentRefs(chain))
  }

  /** tx is not a coinbase and one of its inputs references ref. */
  predicate TxSpends(tx: Transaction, ref: OutRef)
  {
    !IsCoinbase(tx) && exists l | 0 <= l < |tx.inputs| :: (tx.inputs[l].txId, tx.inputs[l].txOutputIndex) == ref
  }

  lemma TxSpentRefsMembership(tx: Transaction, ref: OutRef)
    ensures ref in TxSpentRefs(tx) <==> TxSpends(tx, ref)
  {
    if ref in TxSpentRefs(tx) {
      var l :| 0 <= l < |tx.inputs| && InputRefs(tx.inputs)[l] == ref;
    }
  }

  /** Some transaction of the block spends ref. */
  predicate BlockSpends(b: Block, ref: OutRef)
  {
    exists j | 0 <= j < |b.transactions| :: TxSpends(b.transactions[j], ref)
  }

  lemma {:induction false} BlockSpentRefsMembership(txs: seq<Transaction>, ref: OutRef)
    ensures ref in BlockSpentRefs(txs) <==> exists j | 0 <= j < |txs| :: TxSpends(txs[j], ref)
    decreases |txs|
  {
    if txs != [] {
      var n := |txs| - 1;
      assert BlockSpentRefs(txs) == BlockSpentRefs(txs[..n]) + TxSpentRefs(txs[n]);
      BlockSpentRefsMembership(txs[..n], ref);
      TxSpentRefsMembership(txs[n], ref);
      if ref in BlockSpentRefs(txs[..n]) {
        var j :| 0 <= j < n && TxSpends(txs[..n][j], ref);
        assert TxSpends(txs[j], ref);
      }
      if exists j | 0 <= j < |txs| :: TxSpends(txs[j], ref) {
        var j :| 0 <= j < |txs| && TxSpends(txs[j], ref);
        if j < n {
          assert TxSpends(txs[..n][j], ref);
        }
      }
    }
  }

  /** Every reference in the list is spent by some block of the walk ... */
  lemma {:induction false} SpentRefsSound(chain: seq<Block>, ref: OutRef)
    requires ref in SpentRefs(chain)
    ensures exists i | 0 <= i < |chain| :: BlockSpends(chain[i], ref)
    decreases |chain|
  {
    var n := |chain| - 1;
    assert SpentRefs(chain) == SpentRefs(chain[..n]) + BlockSpentRefs(chain[n].transactions);
    if ref in SpentRefs(chain[..n]) {
      SpentRefsSound(chain[..n], ref);
      var i :| 0 <= i < n && BlockSpends(chain[..n][i], ref);
      assert chain[..n][i] == chain[i];
    } else {
      BlockSpentRefsMembership(chain[n].transactions, ref);
      assert BlockSpends(chain[n], ref);
    }
  }

  /** ... and every reference some block spends is in the list. */
  lemma {:induction false} SpentRefsComplete(chain: seq<Block>, ref: OutRef, i: nat)
    requires i < |chain| && BlockSpends(chain[i], ref)
    ensures ref in SpentRefs(chain)
    decreases |chain|
  {
    var n := |chain| - 1;
    assert SpentRefs(chain) == SpentRefs(chain[..n]) + BlockSpentRefs(chain[n].transactions);
    if i < n {
      assert chain[..n][i] == chain[i];
      SpentRefsComplete(chain[..n], ref, i);
    } else {
      BlockSpentRefsMembership(chain[n].transactions, ref);
    }
  }

  /** Index x is recorded as spent for id k exactly when some input of a non-coinbase
      transaction in a block of the walk references output x of k; coinbase inputs are
      never recorded. */
  lemma SpentMeaning(chain: seq<Block>, k: seq<Byte>, x: Int32)
    ensures (k in Spent(chain) && x in Spent(chain)[k]) <==> exists i | 0 <= i < |chain| :: BlockSpends(chain[i], (k, x))
  {
    GroupMeaning(SpentRefs(chain), k);
    ValuesOfMembership(SpentRefs(chain), k, x);
    if (k, x) in SpentRefs(chain) {
      SpentRefsSound(chain, (k, x));
    }
    if exists i | 0 <= i < |chain| :: BlockSpends(chain[i], (k, x)) {
      var i :| 0 <= i < |chain| && BlockSpends(chain[i], (k, x));
      SpentRefsComplete(chain, (k, x), i);
    }
  }

  // ----- findAllUTXOs -----

  /** The spent indices recorded for id, none when the id has no entry. */
  function SpentIndices(spent: map<seq<Byte>, seq<Int32>>, id: seq<Byte>): seq<Int32>
  {
    if id in spent then spent[id] else []
  }

  /** The outputs whose position is not among the spent indices, in order and without
      their positions: the array is compacted. */
  function KeptOutputs(outs: seq<TXOutput>, spentIdx: seq<Int32>): (r: seq<TXOutput>)
    ensures |r| <= |outs|
  {
    if outs == [] then []
    else
      var n := |outs| - 1;
      KeptOutputs(outs[..n], spentIdx) + (if n in spentIdx then [] else [outs[n]])
  }

  /** An output is kept exactly when it sits at some position that is not spent. */
  lemma {:induction false} KeptOutputsMembership(outs: seq<TXOutput>, spentIdx: seq<Int32>, o: TXOutput)
    ensures o in KeptOutputs(outs, spentIdx) <==> exists n | 0 <= n < |outs| :: n !in spentIdx && outs[n] == o
    decreases |outs|
  {
    if outs != [] {
      var n := |outs| - 1;
      KeptOutputsMembership(outs[..n], spentIdx, o);
      assert forall m | 0 <= m < n :: outs[..n][m] == outs[m];
    }
  }

  /** With nothing spent every output is kept, in place. */
  lemma {:induction false} KeptNothingSpent(outs: seq<TXOutput>)
    ensures KeptOutputs(outs, []) == outs
    decreases |outs|
  {
    if outs != [] {
      KeptNothingSpent(outs[..|outs| - 1]);
    }
  }

  /** Each value paired with the key k. */
  function Pairs<V>(k: seq<Byte>, vs: seq<V>): (r: seq<(seq<Byte>, V)>)
    ensures |r| == |vs| && forall i | 0 <= i < |vs| :: r[i] == (k, vs[i])
  {
    seq(|vs|, i requires 0 <= i < |vs| => (k, vs[i]))
  }

  function TxUnspentPairs(tx: Transaction, spent: map<seq<Byte>, seq<Int32>>): seq<(seq<Byte>, TXOutput)>
  {
    Pairs(tx.txId, KeptOutputs(tx.outputs, SpentIndices(spent, tx.txId)))
  }

  function BlockUnspentPairs(txs: seq<Transaction>, spent: map<seq<Byte>, seq<Int32>>): seq<(seq<Byte>, TXOutput)>
  {
    if txs == [] then []
    else BlockUnspentPairs(txs[..|txs| - 1], spent) + TxUnspentPairs(txs[|txs| - 1], spent)
  }

  /** Every unspent output on the chain with the id of its transaction, in walk order. */
  function UnspentPairs(chain: seq<Block>, spent: map<seq<Byte>, seq<Int32>>): seq<(seq<Byte>, TXOutput)>
  {
    if chain == [] then []
    else UnspentPairs(chain[..|chain| - 1], spent) + BlockUnspentPairs(chain[|chain| - 1].transactions, spent)
  }

  /** The map `findAllUTXOs` builds. */
  function UTXOs(chain: seq<Block>): map<seq<Byte>, seq<TXOutput>>
  {
    Group(UnspentPairs(chain, Spent(chain)))
  }

  /** The kept outputs of every transaction with id k, block by block from the tip and
      in transaction order within a block: a description of an index entry that does
      not mention the index. */
  function BlockKept(txs: seq<Transaction>, spent: map<seq<Byte>, seq<Int32>>, k: seq<Byte>): seq<TXOutput>
  {
    if txs == [] then []
    else
      var t := txs[|txs| - 1];
      BlockKept(txs[..|txs| - 1], spent, k)
        + (if t.txId == k then KeptOutputs(t.outputs, SpentIndices(spent, k)) else [])
  }

  function ChainKept(chain: seq<Block>, spent: map<seq<Byte>, seq<Int32>>, k: seq<Byte>): seq<TXOutput>
  {
    if chain == [] then []
    else ChainKept(chain[..|chain| - 1], spent, k) + BlockKept(chain[|chain| - 1].transactions, spent, k)
  }

  lemma TxUnspentValues(tx: Transaction, spent: map<seq<Byte>, seq<Int32>>, k: seq<Byte>)
    ensures ValuesOf(TxUnspentPairs(tx, spent), k)
      == if tx.txId == k then KeptOutputs(tx.outputs, SpentIndices(spent, k)) else []
  {
    PairsValues(tx.txId, KeptOutputs(tx.outputs, SpentIndices(spent, tx.txId)), k);
  }

  lemma {:induction false} PairsValues<V>(id: seq<Byte>, vs: seq<V>, k: seq<Byte>)
    ensures ValuesOf(Pairs(id, vs), k) == if id == k then vs else []
    decreases |vs|
  {
    if vs != [] {
      var n := |vs| - 1;
      assert Pairs(id, vs)[..n] == Pairs(id, vs[..n]);
      PairsValues(id, vs[..n], k);
    }
  }

  lemma {:induction false} BlockUnspentValues(txs: seq<Transaction>, spent: map<seq<Byte>, seq<Int32>>, k: seq<Byte>)
    ensures ValuesOf(BlockUnspentPairs(txs, spent), k) == BlockKept(txs, spent, k)
    decreases |txs|
  {
    if txs != [] {
      var n := |txs| - 1;
      BlockUnspentValues(txs[..n], spent, k);
      ValuesOfAppend(BlockUnspentPairs(txs[..n], spent), TxUnspentPairs(txs[n], spent), k);
      TxUnspentValues(txs[n], spent, k);
    }
  }

  lemma {:induction false} UnspentValues(chain: seq<Block>, spent: map<seq<Byte>, seq<Int32>>, k: seq<Byte>)
    ensures ValuesOf(UnspentPairs(chain, spent), k) == ChainKept(chain, spent, k)
    decreases |chain|
  {
    if chain != [] {
      var n := |chain| - 1;
      UnspentValues(chain[..n], spent, k);
      ValuesOfAppend(UnspentPairs(chain[..n], spent), BlockUnspentPairs(chain[n].transactions, spent), k);
      BlockUnspentValues(chain[n].transactions, spent, k);
    }
  }

  /** The UTXO index holds, under each id, exactly the outputs of that id's transactions
      whose positions are not recorded as spent, in order and compacted; an id all of
      whose outputs are spent gets no entry at all. */
  lemma UTXOsMeaning(chain: seq<Block>, k: seq<Byte>)
    ensures k in UTXOs(chain) <==> ChainKept(chain, Spent(chain), k) != []
    ensures k in UTXOs(chain) ==> UTXOs(chain)[k] == ChainKept(chain, Spent(chain), k)
  {
    GroupMeaning(UnspentPairs(chain, Spent(chain)), k);
    UnspentValues(chain, Spent(chain), k);
  }

  // ----- findTransaction -----

  /** Position j of txs holds the id, and no earlier position does. */
  predicate FirstWith(txs: seq<Transaction>, txId: seq<Byte>, j: int)
  {
    0 <= j < |txs| && txs[j].txId == txId && forall k | 0 <= k < j :: txs[k].txId != txId
  }

  /** Transaction j of block i is the first with the id in the walk: no block before i
      holds the id, and within block i it is the first. */
  predicate FirstInChain(chain: seq<Block>, txId: seq<Byte>, i: int, j: int)
  {
    0 <= i < |chain| && FirstWith(chain[i].transactions, txId, j)
    && forall i', k | 0 <= i' < i && 0 <= k < |chain[i'].transactions| :: chain[i'].transactions[k].txId != txId
  }

  /** The first transaction of a block with the given id. */
  function FindInBlock(txs: seq<Transaction>, txId: seq<Byte>): (r: Option<Transaction>)
    ensures r.Some? ==> r.value in txs && r.value.txId == txId
    ensures r.None? <==> forall j | 0 <= j < |txs| :: txs[j].txId != txId
  {
    if txs == [] then None
    else if txs[0].txId == txId then Some(txs[0])
    else FindInBlock(txs[1..], txId)
  }

  /** What `findTransaction` finds in one block is its first transaction with the id. */
  lemma {:induction false} FindInBlockFirst(txs: seq<Transaction>, txId: seq<Byte>)
    ensures FindInBlock(txs, txId).Some? ==>
      exists j :: FirstWith(txs, txId, j) && txs[j] == FindInBlock(txs, txId).value
    decreases |txs|
  {
    if txs != [] {
      if txs[0].txId == txId {
        assert FirstWith(txs, txId, 0);
      } else if FindInBlock(txs, txId).Some? {
        FindInBlockFirst(txs[1..], txId);
        var j :| FirstWith(txs[1..], txId, j) && txs[1..][j] == FindInBlock(txs, txId).value;
        assert FirstWith(txs, txId, j + 1);
      }
    }
  }

  /** The first transaction with the given id, scanning blocks from the tip. */
  function FindTxIn(chain: seq<Block>, txId: seq<Byte>): (r: Option<Transaction>)
    ensures r.Some? ==> r.value.txId == txId && exists i | 0 <= i < |chain| :: r.value in chain[i].transactions
    ensures r.None? <==> forall i, j | 0 <= i < |chain| && 0 <= j < |chain[i].transactions| ::
      chain[i].transactions[j].txId != txId
  {
    if chain == [] then None
    else
      match FindInBlock(chain[0].transactions, txId)
      case Some(t) => Some(t)
      case None =>
        var r := FindTxIn(chain[1..], txId);
        assert forall i | 1 <= i < |chain| :: chain[1..][i - 1] == chain[i];
        r
  }

  /** What `findTransaction` finds is the first transaction with the id in the walk:
      in the newest block holding the id, its first transaction with it. */
  lemma {:induction false} FindTxInFirst(chain: seq<Block>, txId: seq<Byte>)
    ensures FindTxIn(chain, txId).Some? ==>
      exists i, j :: FirstInChain(chain, txId, i, j) && chain[i].transactions[j] == FindTxIn(chain, txId).value
    decreases |chain|
  {
    if chain != [] && FindTxIn(chain, txId).Some? {
      var r := FindTxIn(chain, txId);
      if FindInBlock(chain[0].transactions, txId).Some? {
        FindInBlockFirst(chain[0].transactions, txId);
        var j :| FirstWith(chain[0].transactions, txId, j) && chain[0].transactions[j] == r.value;
        assert FirstInChain(chain, txId, 0, j);
      } else {
        FindTxInFirst(chain[1..], txId);
        var i, j :| FirstInChain(chain[1..], txId, i, j) && chain[1..][i].transactions[j] == r.value;
        assert FirstInChain(chain, txId, i + 1, j);
      }
    }
  }

  /** Newer blocks are searched first: a match in the first part of the walk hides
      every match further down. */
  lemma {:induction false} FindTxInAppend(a: seq<Block>, b: seq<Block>, txId: seq<Byte>)
    ensures FindTxIn(a + b, txId) == if FindTxIn(a, txId).Some? then FindTxIn(a, txId) else FindTxIn(b, txId)
    decreases |a|
  {
    if a != [] {
      assert (a + b)[1..] == a[1..] + b;
      FindTxInAppend(a[1..], b, txId);
    } else {
      assert a + b == b;
    }
  }

  /** `findTransaction`'s outcome after a walk that ends normally (ok) or by a missing
      block: the transaction found, or the exception. */
  function FindOutcome(chain: seq<Block>, ok: bool, txId: seq<Byte>): (r: Result<Transaction>)
    ensures r.Success? ==> r.value.txId == txId
    ensures r.Failure? ==> r.error == (if ok then TxNotFound else BlockNotFound)
  {
    match FindTxIn(chain, txId)
    case Some(t) => Success(t)
    case None => Failure(if ok then TxNotFound else BlockNotFound)
  }
}
