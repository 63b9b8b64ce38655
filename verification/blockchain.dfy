/** `Blockchain` and its `BlockchainIterator`: the chain as seen through the store, walked
    from the tip back to the genesis block, and the operations built on that walk. */
module Chain {
  import opened Bytes
  import opened Outcomes
  import opened Hex
  import opened Crypto
  import opened Wallets
  import opened Outputs
  import opened Transactions
  import opened Blocks
  import opened ProofOfWork
  import opened Store
  import opened Grouping
  import opened Ledger

  type BlockMap = map<HexString, Block>

  /** `hashNext` on current hash cur: false for a blank hash, ZERO_HASH, or a block whose
      own hash is ZERO_HASH; an exception when a block it looks up is missing. */
  function HasNextSpec(blocks: BlockMap, cur: HexString): (r: Result<bool>)
    ensures r == Success(true) ==> cur in blocks && blocks[cur].hash in blocks
    ensures r == Success(true) ==> !IsBlank(cur) && cur != ZERO_HASH
    ensures r.Failure? ==> r.error == BlockNotFound
  {
    if IsBlank(cur) || cur == ZERO_HASH then Success(false)
    else if cur !in blocks then Failure(BlockNotFound)
    else if blocks[cur].hash == ZERO_HASH then Success(false)
    else if blocks[cur].hash !in blocks then Failure(BlockNotFound)
    else Success(true)
  }

  /** Iterating from cur yields exactly the blocks of chain, in order, and then `hashNext`
      returns false (ok) or throws (not ok). */
  predicate Walk(blocks: BlockMap, cur: HexString, chain: seq<Block>, ok: bool)
    decreases |chain|
  {
    if chain == [] then HasNextSpec(blocks, cur) == (if ok then Success(false) else Failure(BlockNotFound))
    else
      && HasNextSpec(blocks, cur) == Success(true)
      && blocks[cur] == chain[0]
      && Walk(blocks, chain[0].prevBlockHash, chain[1..], ok)
  }

  /** The walk from a hash is determined by the store. */
  lemma {:induction false} WalkUnique(blocks: BlockMap, cur: HexString, c1: seq<Block>, ok1: bool, c2: seq<Block>, ok2: bool)
    requires Walk(blocks, cur, c1, ok1) && Walk(blocks, cur, c2, ok2)
    ensures c1 == c2 && ok1 == ok2
    decreases |c1|
  {
    if c1 != [] && c2 != [] {
      WalkUnique(blocks, c1[0].prevBlockHash, c1[1..], ok1, c2[1..], ok2);
    }
  }

  /** The walk from cur ends: the source loops forever on a store whose prevBlockHash
      links form a cycle, and every walk below is over a store where this holds. */
  ghost predicate WalkEnds(blocks: BlockMap, cur: HexString)
  {
    exists chain: seq<Block>, ok: bool :: Walk(blocks, cur, chain, ok)
  }

  /** The blocks a walk from cur visits, and whether it ends normally. */
  ghost function Visit(blocks: BlockMap, cur: HexString): (r: (seq<Block>, bool))
    requires WalkEnds(blocks, cur)
    ensures Walk(blocks, cur, r.0, r.1)
  {
    var chain: seq<Block>, ok: bool :| Walk(blocks, cur, chain, ok);
    (chain, ok)
  }

  /** In a store where every block sits under its own hash, the walk starts at the
      block with hash cur and follows prevBlockHash links; a normal end comes after a
      block whose predecessor is blank or ZERO_HASH, and an exception after a
      predecessor missing from the store. */
  lemma {:induction false} WalkFollowsLinks(blocks: BlockMap, cur: HexString, chain: seq<Block>, ok: bool)
    requires Walk(blocks, cur, chain, ok)
    requires forall k | k in blocks :: blocks[k].hash == k
    ensures chain != [] ==> chain[0].hash == cur
    ensures forall i | 0 <= i < |chain| - 1 :: chain[i + 1].hash == chain[i].prevBlockHash
    ensures ok && chain != [] ==>
      IsBlank(chain[|chain| - 1].prevBlockHash) || chain[|chain| - 1].prevBlockHash == ZERO_HASH
    ensures !ok ==> (if chain == [] then cur else chain[|chain| - 1].prevBlockHash) !in blocks
    decreases |chain|
  {
    if chain != [] {
      WalkFollowsLinks(blocks, chain[0].prevBlockHash, chain[1..], ok);
      assert forall i | 1 <= i < |chain| :: chain[1..][i - 1] == chain[i];
    }
  }

  /** Storing a new block b whose predecessor is where a normal walk starts puts b in
      front of that walk: the block `mineBlock` adds is the first the iterator yields,
      followed by the blocks yielded before. */
  lemma {:induction false} WalkExtends(blocks: BlockMap, cur: HexString, chain: seq<Block>, b: Block)
    requires Walk(blocks, cur, chain, true)
    requires b.prevBlockHash == cur && b.hash !in blocks
    requires !IsBlank(b.hash) && b.hash != ZERO_HASH
    ensures Walk(blocks[b.hash := b], b.hash, [b] + chain, true)
  {
    WalkFresh(blocks, cur, chain, b);
    assert ([b] + chain)[1..] == chain;
  }

  /** A normal walk reads only hashes present in the store, so adding a block under a
      new hash does not change it. */
  lemma {:induction false} WalkFresh(blocks: BlockMap, cur: HexString, chain: seq<Block>, b: Block)
    requires Walk(blocks, cur, chain, true) && b.hash !in blocks
    ensures Walk(blocks[b.hash := b], cur, chain, true)
    decreases |chain|
  {
    if chain != [] {
      WalkFresh(blocks, chain[0].prevBlockHash, chain[1..], b);
    }
  }

  class BlockchainIterator {
    var currentBlockHash: HexString
    const db: RocksDBService

    constructor (db: RocksDBService, currentBlockHash: HexString)
      ensures this.db == db && this.currentBlockHash == currentBlockHash
    {
      this.db := db;
      this.currentBlockHash := currentBlockHash;
    }

    /** `hashNext`. */
    method HashNext() returns (r: Result<bool>)
      ensures r == HasNextSpec(db.blocks, currentBlockHash)
    {
      if IsBlank(currentBlockHash) || currentBlockHash == ZERO_HASH {
        return Success(false);
      }
      var lastBlock := db.GetBlock(currentBlockHash);
      if lastBlock.Failure? {
        return Failure(lastBlock.error);
      }
      if lastBlock.value.hash == ZERO_HASH {
        return Success(false);
      }
      var again := db.GetBlock(lastBlock.value.hash);
      if again.Failure? {
        return Failure(again.error);
      }
      return Success(true);
    }

    /** `next`: the block under the current hash, and a step to its predecessor. A
        missing block throws in `getBlock`, so the null branch is never taken. */
    method Next() returns (r: Result<Block>)
      modifies this
      ensures old(currentBlockHash) in db.blocks ==>
        r == Success(db.blocks[old(currentBlockHash)]) && currentBlockHash == r.value.prevBlockHash
      ensures old(currentBlockHash) !in db.blocks ==>
        r == Failure(BlockNotFound) && currentBlockHash == old(currentBlockHash)
    {
      var currentBlock := db.GetBlock(currentBlockHash);
      if currentBlock.Success? {
        currentBlockHash := currentBlock.value.prevBlockHash;
      }
      r := currentBlock;
    }
  }

  /** `findTransaction` on the walk (chain, ok), as a function of the id. */
  function Finder(chain: seq<Block>, ok: bool): seq<Byte> -> Result<Transaction>
  {
    id => FindOutcome(chain, ok, id)
  }

  /** The previous transactions `signTransaction` and `verifyTransactions` collect: each
      input's txId looked up in turn with find, stopping at the first lookup that
      throws. */
  function LookupPrevTxs(find: seq<Byte> -> Result<Transaction>, inputs: seq<TXInput>): Result<PrevTxs>
  {
    if inputs == [] then Success(map[])
    else
      var n := |inputs| - 1;
      match LookupPrevTxs(find, inputs[..n])
      case Failure(e) => Failure(e)
      case Success(m) =>
        match find(inputs[n].txId)
        case Failure(e) => Failure(e)
        case Success(t) => Success(m[inputs[n].txId := t])
  }

  /** The lookups succeed exactly when every input's transaction is found, and then the
      map sends each input's txId to the transaction found for it, and holds nothing
      else. */
  lemma {:induction false} LookupPrevTxsMeaning(find: seq<Byte> -> Result<Transaction>, inputs: seq<TXInput>)
    ensures LookupPrevTxs(find, inputs).Success? <==> forall l | 0 <= l < |inputs| :: find(inputs[l].txId).Success?
    ensures LookupPrevTxs(find, inputs).Success? ==>
      var m := LookupPrevTxs(find, inputs).value;
      && (forall l | 0 <= l < |inputs| :: inputs[l].txId in m && find(inputs[l].txId) == Success(m[inputs[l].txId]))
      && (forall k | k in m :: exists l | 0 <= l < |inputs| :: inputs[l].txId == k)
    decreases |inputs|
  {
    if inputs != [] {
      var n := |inputs| - 1;
      LookupPrevTxsMeaning(find, inputs[..n]);
      assert forall l | 0 <= l < n :: inputs[..n][l] == inputs[l];
    }
  }

  /** One input more: its lookup extends the map, or its failure ends the lookups. */
  lemma LookupStep(find: seq<Byte> -> Result<Transaction>, inputs: seq<TXInput>, l: nat)
    requires l < |inputs|
    ensures LookupPrevTxs(find, inputs[..l + 1]) ==
      match LookupPrevTxs(find, inputs[..l])
      case Failure(e) => Failure(e)
      case Success(m) =>
        match find(inputs[l].txId)
        case Failure(e) => Failure(e)
        case Success(t) => Success(m[inputs[l].txId := t])
  {
    assert inputs[..l + 1][..l] == inputs[..l];
  }

  /** Once a lookup throws, later inputs are not looked up: the outcome is that of the
      prefix. */
  lemma {:induction false} LookupPrefixFails(find: seq<Byte> -> Result<Transaction>, inputs: seq<TXInput>, l: nat)
    requires l <= |inputs| && LookupPrevTxs(find, inputs[..l]).Failure?
    ensures LookupPrevTxs(find, inputs) == LookupPrevTxs(find, inputs[..l])
    decreases |inputs|
  {
    if l < |inputs| {
      var n := |inputs| - 1;
      assert inputs[..n][..l] == inputs[..l];
      LookupPrefixFails(find, inputs[..n], l);
    } else {
      assert inputs[..l] == inputs;
    }
  }

  /** What `verifyTransactions` returns or throws: true for a coinbase without any
      lookup, otherwise `verify` against the looked-up transactions. A failed lookup
      throws as it is, since the lookups sit outside the try block; anything `verify`
      throws is caught and rethrown as `VerifyFailed`. The lookups have all succeeded
      before `verify` runs, so its own missing-previous-transaction check never fires
      here. */
  function VerifyTxSpec(c: TxCrypto, chain: seq<Block>, ok: bool, tx: Transaction): (r: Result<bool>)
    ensures IsCoinbase(tx) ==> r == Success(true)
    ensures !IsCoinbase(tx) && LookupPrevTxs(Finder(chain, ok), tx.inputs).Failure? ==>
      r == Failure(LookupPrevTxs(Finder(chain, ok), tx.inputs).error)
    ensures r.Failure? && r.error != VerifyFailed ==>
      !IsCoinbase(tx) && LookupPrevTxs(Finder(chain, ok), tx.inputs) == Failure(r.error)
    ensures !IsCoinbase(tx) && LookupPrevTxs(Finder(chain, ok), tx.inputs).Success? ==>
      (r == Failure(VerifyFailed) <==> VerifySpec(c, tx, LookupPrevTxs(Finder(chain, ok), tx.inputs).value).Failure?)
    ensures r.Success? && !IsCoinbase(tx) ==>
      && LookupPrevTxs(Finder(chain, ok), tx.inputs).Success?
      && VerifySpec(c, tx, LookupPrevTxs(Finder(chain, ok), tx.inputs).value) == r
  {
    if IsCoinbase(tx) then Success(true)
    else
      match LookupPrevTxs(Finder(chain, ok), tx.inputs)
      case Failure(e) => Failure(e)
      case Success(prevTxs) =>
        match VerifySpec(c, tx, prevTxs)
        case Failure(_) => Failure(VerifyFailed)
        case Success(valid) => Success(valid)
  }

  /** The exception `mineBlock`'s verification loop ends with, if any: the first
      transaction whose check throws or returns false decides. */
  function FirstRejection(c: TxCrypto, chain: seq<Block>, ok: bool, txs: seq<Transaction>): (r: Option<Error>)
    ensures r.None? <==> forall j | 0 <= j < |txs| :: VerifyTxSpec(c, chain, ok, txs[j]) == Success(true)
  {
    if txs == [] then None
    else
      match VerifyTxSpec(c, chain, ok, txs[0])
      case Failure(e) => Some(e)
      case Success(valid) =>
        if !valid then Some(InvalidTransaction)
        else
          assert forall j | 1 <= j < |txs| :: txs[1..][j - 1] == txs[j];
          FirstRejection(c, chain, ok, txs[1..])
  }

  /** One transaction more in a block: its references follow those before it. */
  lemma BlockSpentSnoc(refs: seq<OutRef>, txs: seq<Transaction>, j: nat)
    requires j < |txs|
    ensures refs + BlockSpentRefs(txs[..j + 1]) == (refs + BlockSpentRefs(txs[..j])) + TxSpentRefs(txs[j])
  {
    assert txs[..j + 1][..j] == txs[..j];
  }

  /** One input more: one more append of its (txId, index). */
  lemma SpentInputStep(before: seq<OutRef>, inputs: seq<TXInput>, l: nat)
    requires l < |inputs|
    ensures Group(before + InputRefs(inputs)[..l + 1])
      == Append(Group(before + InputRefs(inputs)[..l]), inputs[l].txId, inputs[l].txOutputIndex)
  {
    var refs := InputRefs(inputs);
    assert before + refs[..l + 1] == (before + refs[..l]) + [(inputs[l].txId, inputs[l].txOutputIndex)];
    GroupSnoc(before + refs[..l], inputs[l].txId, inputs[l].txOutputIndex);
  }

  /** The inner loops of `getAllSpentTXOs` for one block: the (txId, index) of every
      input of every non-coinbase transaction is appended to the map. */
  method RecordSpent(spentTXOs: map<seq<Byte>, seq<Int32>>, block: Block, ghost chain: seq<Block>, ghost i: nat)
    returns (r: map<seq<Byte>, seq<Int32>>)
    requires i < |chain| && block == chain[i] && spentTXOs == Spent(chain[..i])
    ensures r == Spent(chain[..i + 1])
  {
    ghost var refs := SpentRefs(chain[..i]);
    var txs := block.transactions;
    r := spentTXOs;
    assert refs + BlockSpentRefs(txs[..0]) == refs;
    for j := 0 to |txs|
      invariant r == Group(refs + BlockSpentRefs(txs[..j]))
    {
      var transaction := txs[j];
      ghost var before := refs + BlockSpentRefs(txs[..j]);
      BlockSpentSnoc(refs, txs, j);
      if IsCoinbase(transaction) {
        assert before + TxSpentRefs(transaction) == before;
        continue;
      }
      assert before + InputRefs(transaction.inputs)[..0] == before;
      for l := 0 to |transaction.inputs|
        invariant r == Group(before + InputRefs(transaction.inputs)[..l])
      {
        var txInput := transaction.inputs[l];
        SpentInputStep(before, transaction.inputs, l);
        r := Append(r, txInput.txId, txInput.txOutputIndex);
      }
      assert InputRefs(transaction.inputs)[..|transaction.inputs|] == TxSpentRefs(transaction);
    }
    assert txs[..|txs|] == txs;
    SpentRefsSnoc(chain, i);
  }

  /** One transaction more in a block: its kept outputs follow those before it. */
  lemma BlockUnspentSnoc(pairs: seq<(seq<Byte>, TXOutput)>, txs: seq<Transaction>, spent: map<seq<Byte>, seq<Int32>>, j: nat)
    requires j < |txs|
    ensures pairs + BlockUnspentPairs(txs[..j + 1], spent)
      == (pairs + BlockUnspentPairs(txs[..j], spent)) + TxUnspentPairs(txs[j], spent)
  {
    assert txs[..j + 1][..j] == txs[..j];
  }

  /** One output more: appended under id unless its position is spent. */
  lemma KeptStep(before: seq<(seq<Byte>, TXOutput)>, id: seq<Byte>, outs: seq<TXOutput>, spentIdx: seq<Int32>, i: nat)
    requires i < |outs|
    ensures Group(before + Pairs(id, KeptOutputs(outs[..i + 1], spentIdx)))
      == if i in spentIdx then Group(before + Pairs(id, KeptOutputs(outs[..i], spentIdx)))
         else Append(Group(before + Pairs(id, KeptOutputs(outs[..i], spentIdx))), id, outs[i])
  {
    assert outs[..i + 1][..i] == outs[..i];
    var kept := KeptOutputs(outs[..i], spentIdx);
    if i in spentIdx {
      assert KeptOutputs(outs[..i + 1], spentIdx) == kept;
    } else {
      assert Pairs(id, KeptOutputs(outs[..i + 1], spentIdx)) == Pairs(id, kept) + [(id, outs[i])];
      assert before + Pairs(id, KeptOutputs(outs[..i + 1], spentIdx)) == (before + Pairs(id, kept)) + [(id, outs[i])];
      GroupSnoc(before + Pairs(id, kept), id, outs[i]);
    }
  }

  /** The inner loops of `findAllUTXOs` for one block: every output whose position is
      not recorded as spent is appended under its transaction's id. */
  method CollectUnspent(utxos: map<seq<Byte>, seq<TXOutput>>, block: Block, allSpentTXOs: map<seq<Byte>, seq<Int32>>,
                        ghost chain: seq<Block>, ghost i: nat)
    returns (r: map<seq<Byte>, seq<TXOutput>>)
    requires i < |chain| && block == chain[i] && utxos == Group(UnspentPairs(chain[..i], allSpentTXOs))
    ensures r == Group(UnspentPairs(chain[..i + 1], allSpentTXOs))
  {
    ghost var pairs := UnspentPairs(chain[..i], allSpentTXOs);
    var txs := block.transactions;
    r := utxos;
    assert pairs + BlockUnspentPairs(txs[..0], allSpentTXOs) == pairs;
    for j := 0 to |txs|
      invariant r == Group(pairs + BlockUnspentPairs(txs[..j], allSpentTXOs))
    {
      var transaction := txs[j];
      var txId := transaction.txId;
      var spentOutIndexArray := if txId in allSpentTXOs then Some(allSpentTXOs[txId]) else None;
      var txOutputs := transaction.outputs;
      ghost var before := pairs + BlockUnspentPairs(txs[..j], allSpentTXOs);
      ghost var spentIdx := SpentIndices(allSpentTXOs, txId);
      BlockUnspentSnoc(pairs, txs, allSpentTXOs, j);
      assert txOutputs[..0] == [];
      assert before + Pairs(txId, KeptOutputs(txOutputs[..0], spentIdx)) == before;
      for outIndex := 0 to |txOutputs|
        invariant r == Group(before + Pairs(txId, KeptOutputs(txOutputs[..outIndex], spentIdx)))
      {
        KeptStep(before, txId, txOutputs, spentIdx, outIndex);
        if spentOutIndexArray.Some? && outIndex in spentOutIndexArray.value {
          continue;
        }
        r := Append(r, txId, txOutputs[outIndex]);
      }
      assert txOutputs[..|txOutputs|] == txOutputs;
    }
    assert txs[..|txs|] == txs;
    UnspentPairsSnoc(chain, i, allSpentTXOs);
  }

  /** One block more on the walk: its references follow those before it. */
  lemma SpentRefsSnoc(chain: seq<Block>, i: nat)
    requires i < |chain|
    ensures SpentRefs(chain[..i + 1]) == SpentRefs(chain[..i]) + BlockSpentRefs(chain[i].transactions)
  {
    assert chain[..i + 1][..i] == chain[..i];
  }

  /** One block more on the walk: its kept outputs follow those before it. */
  lemma UnspentPairsSnoc(chain: seq<Block>, i: nat, spent: map<seq<Byte>, seq<Int32>>)
    requires i < |chain|
    ensures UnspentPairs(chain[..i + 1], spent) == UnspentPairs(chain[..i], spent) + BlockUnspentPairs(chain[i].transactions, spent)
  {
    assert chain[..i + 1][..i] == chain[..i];
  }

  class Blockchain {
    var lastBlockHash: HexString
    const db: RocksDBService

    constructor (db: RocksDBService, lastBlockHash: HexString)
      ensures this.db == db && this.lastBlockHash == lastBlockHash
    {
      this.db := db;
      this.lastBlockHash := lastBlockHash;
    }

    /** The walk every chain scan performs, from this object's `lastBlockHash`. */
    ghost function Walked(): (seq<Block>, bool)
      reads this, db
      requires WalkEnds(db.blocks, lastBlockHash)
    {
      Visit(db.blocks, lastBlockHash)
    }

    /** `getBlockchainIterator`. */
    method GetBlockchainIterator() returns (it: BlockchainIterator)
      ensures fresh(it) && it.db == db && it.currentBlockHash == lastBlockHash
    {
      it := new BlockchainIterator(db, lastBlockHash);
    }

    /** `addBlock`: the block goes under its hash, which becomes both the stored tip and
        this object's `lastBlockHash`. */
    method AddBlock(block: Block)
      modifies this, db
      ensures db.tip == Some(block.hash) && db.blocks == old(db.blocks)[block.hash := block]
      ensures db.chainstate == old(db.chainstate)
      ensures lastBlockHash == block.hash
    {
      db.PutLastBlockHash(block.hash);
      db.PutBlock(block);
      lastBlockHash := block.hash;
    }

    /** `findTransaction`: the first transaction with the id, newest block first. */
    method FindTransaction(txId: seq<Byte>) returns (r: Result<Transaction>)
      requires WalkEnds(db.blocks, lastBlockHash)
      ensures r == FindOutcome(Walked().0, Walked().1, txId)
    {
      ghost var chain := Walked().0;
      ghost var ok := Walked().1;
      var it := GetBlockchainIterator();
      ghost var rest := chain;
      while true
        invariant Walk(db.blocks, it.currentBlockHash, rest, ok)
        invariant FindTxIn(chain, txId) == FindTxIn(rest, txId)
        decreases |rest|
      {
        var hasNext := it.HashNext();
        if hasNext.Failure? {
          return Failure(hasNext.error);
        }
        if !hasNext.value {
          break;
        }
        var next := it.Next();
        var block := next.value;
        for j := 0 to |block.transactions|
          invariant FindInBlock(block.transactions, txId) == FindInBlock(block.transactions[j..], txId)
        {
          if block.transactions[j].txId == txId {
            return Success(block.transactions[j]);
          }
          assert block.transactions[j..][1..] == block.transactions[j + 1..];
        }
        assert block.transactions[|block.transactions|..] == [];
        rest := rest[1..];
      }
      return Failure(TxNotFound);
    }

    /** `getAllSpentTXOs`: walk the chain and record every spent output reference. */
    method GetAllSpentTXOs() returns (r: Result<map<seq<Byte>, seq<Int32>>>)
      requires WalkEnds(db.blocks, lastBlockHash)
      ensures Walked().1 ==> r == Success(Spent(Walked().0))
      ensures !Walked().1 ==> r == Failure(BlockNotFound)
    {
      ghost var chain := Walked().0;
      ghost var ok := Walked().1;
      var spentTXOs: map<seq<Byte>, seq<Int32>> := map[];
      var it := GetBlockchainIterator();
      ghost var i := 0;
      while true
        invariant i <= |chain|
        invariant Walk(db.blocks, it.currentBlockHash, chain[i..], ok)
        invariant spentTXOs == Spent(chain[..i])
        decreases |chain| - i
      {
        var hasNext := it.HashNext();
        if hasNext.Failure? {
          return Failure(hasNext.error);
        }
        if !hasNext.value {
          break;
        }
        var next := it.Next();
        var block := next.value;
        spentTXOs := RecordSpent(spentTXOs, block, chain, i);
        assert chain[i..][1..] == chain[i + 1..];
        i := i + 1;
      }
      assert chain[..i] == chain;
      return Success(spentTXOs);
    }

    /** `findAllUTXOs`: collect the spent references in a first walk, then in a second
        walk keep every output not among them. */
    method FindAllUTXOs() returns (r: Result<map<seq<Byte>, seq<TXOutput>>>)
      requires WalkEnds(db.blocks, lastBlockHash)
      ensures Walked().1 ==> r == Success(UTXOs(Walked().0))
      ensures !Walked().1 ==> r == Failure(BlockNotFound)
    {
      ghost var chain := Walked().0;
      ghost var ok := Walked().1;
      var spent := GetAllSpentTXOs();
      if spent.Failure? {
        return Failure(spent.error);
      }
      var allUTXOs := CollectAllUnspent(spent.value);
      return Success(allUTXOs);
    }

    /** The second walk of `findAllUTXOs`: every output of the chain whose reference is
        not among the spent ones, grouped by txId. */
    method CollectAllUnspent(allSpentTXOs: map<seq<Byte>, seq<Int32>>)
      returns (allUTXOs: map<seq<Byte>, seq<TXOutput>>)
      requires WalkEnds(db.blocks, lastBlockHash) && Walked().1
      ensures allUTXOs == Group(UnspentPairs(Walked().0, allSpentTXOs))
    {
      ghost var chain := Walked().0;
      allUTXOs := map[];
      var it := GetBlockchainIterator();
      ghost var i := 0;
      while true
        invariant i <= |chain|
        invariant Walk(db.blocks, it.currentBlockHash, chain[i..], true)
        invariant allUTXOs == Group(UnspentPairs(chain[..i], allSpentTXOs))
        decreases |chain| - i
      {
        var hasNext := it.HashNext();
        if hasNext.Failure? {
          // The walk ends normally.
          assert false;
        }
        if !hasNext.value {
          break;
        }
        var next := it.Next();
        var block := next.value;
        allUTXOs := CollectUnspent(allUTXOs, block, allSpentTXOs, chain, i);
        assert chain[i..][1..] == chain[i + 1..];
        i := i + 1;
      }
      assert chain[..i] == chain;
    }

    /** The lookup loop of `signTransaction` and `verifyTransactions`: `findTransaction`
        for every input, in order, into a map keyed by txId. */
    method CollectPrevTxs(tx: Transaction) returns (r: Result<PrevTxs>)
      requires WalkEnds(db.blocks, lastBlockHash)
      ensures r == LookupPrevTxs(Finder(Walked().0, Walked().1), tx.inputs)
    {
      ghost var find := Finder(Walked().0, Walked().1);
      var prevTxMap: PrevTxs := map[];
      for l := 0 to |tx.inputs|
        invariant LookupPrevTxs(find, tx.inputs[..l]) == Success(prevTxMap)
      {
        LookupStep(find, tx.inputs, l);
        var prevTx := FindTransaction(tx.inputs[l].txId);
        assert find(tx.inputs[l].txId) == prevTx;
        if prevTx.Failure? {
          LookupPrefixFails(find, tx.inputs, l + 1);
          return Failure(prevTx.error);
        }
        prevTxMap := prevTxMap[tx.inputs[l].txId := prevTx.value];
      }
      assert tx.inputs[..|tx.inputs|] == tx.inputs;
      r := Success(prevTxMap);
    }

    /** `signTransaction`: look up every input's previous transaction, then `sign`. */
    method SignTransaction(c: TxCrypto, tx: Transaction, key: PrivateKey)
      returns (signed: Transaction, err: Option<Error>)
      requires WalkEnds(db.blocks, lastBlockHash)
      ensures LookupPrevTxs(Finder(Walked().0, Walked().1), tx.inputs).Failure? ==>
        signed == tx && err == Some(LookupPrevTxs(Finder(Walked().0, Walked().1), tx.inputs).error)
      ensures LookupPrevTxs(Finder(Walked().0, Walked().1), tx.inputs).Success? ==>
        (signed, err) == SignSpec(c, tx, key, LookupPrevTxs(Finder(Walked().0, Walked().1), tx.inputs).value)
    {
      var prevTxMap := CollectPrevTxs(tx);
      if prevTxMap.Failure? {
        return tx, Some(prevTxMap.error);
      }
      signed, err := Sign(c, tx, key, prevTxMap.value);
    }

    /** `verifyTransactions`: true for a coinbase without any lookup; otherwise look up
        every input's previous transaction and `verify`. */
    method VerifyTransactions(c: TxCrypto, tx: Transaction) returns (r: Result<bool>)
      requires WalkEnds(db.blocks, lastBlockHash)
      ensures r == VerifyTxSpec(c, Walked().0, Walked().1, tx)
    {
      if IsCoinbase(tx) {
        return Success(true);
      }
      var prevTx := CollectPrevTxs(tx);
      if prevTx.Failure? {
        return Failure(prevTx.error);
      }
      r := Verify(c, tx, prevTx.value);
      if r.Failure? {
        r := Failure(VerifyFailed);
      }
    }

    /** The loop at the head of `mineBlock`: the first transaction whose check throws
        or returns false stops it with that exception. */
    method CheckTransactions(c: TxCrypto, transactions: seq<Transaction>) returns (rejection: Option<Error>)
      requires WalkEnds(db.blocks, lastBlockHash)
      ensures rejection == FirstRejection(c, Walked().0, Walked().1, transactions)
    {
      ghost var chain := Walked().0;
      ghost var ok := Walked().1;
      for j := 0 to |transactions|
        invariant FirstRejection(c, chain, ok, transactions) == FirstRejection(c, chain, ok, transactions[j..])
      {
        var valid := VerifyTransactions(c, transactions[j]);
        if valid.Failure? {
          return Some(valid.error);
        }
        if !valid.value {
          return Some(InvalidTransaction);
        }
        assert transactions[j..][1..] == transactions[j + 1..];
      }
      return None;
    }

    /** `mineBlock`: every transaction must verify before anything is written; the new
        block goes on the stored tip, is stored, and becomes the tip. */
    method MineBlock(c: TxCrypto, transactions: seq<Transaction>, now: Long) returns (r: Result<Block>)
      requires WalkEnds(db.blocks, lastBlockHash)
      modifies this, db
      ensures old(FirstRejection(c, Walked().0, Walked().1, transactions)).Some? ==>
        && r == Failure(old(FirstRejection(c, Walked().0, Walked().1, transactions)).value)
        && unchanged(this, db)
      ensures old(FirstRejection(c, Walked().0, Walked().1, transactions)).None? ==>
        && r.Success?
        && r.value.prevBlockHash == (if old(db.tip).Some? then old(db.tip).value else "")
        && r.value.transactions == transactions && r.value.timeStamp == now
        && (r.value.nonce < LONG_MAX ==>
              Validate(c.hashes, r.value)
              && r.value.hash == Encode(c.hashes.sha256(PrepareData(c.hashes, r.value, r.value.nonce))))
        && (r.value.nonce == LONG_MAX ==>
              r.value.hash == Encode(c.hashes.sha256(PrepareData(c.hashes, r.value, LONG_MAX - 1))))
        && db.blocks == old(db.blocks)[r.value.hash := r.value] && db.tip == Some(r.value.hash)
        && db.chainstate == old(db.chainstate)
        && lastBlockHash == r.value.hash
    {
      var rejection := CheckTransactions(c, transactions);
      if rejection.Some? {
        return Failure(rejection.value);
      }
      var tip := db.GetLastBlockHash();
      var block := NewBlock(c.hashes, tip, transactions, now);
      AddBlock(block);
      return Success(block);
    }
  }

  /** `initBlockchainFromDB`: a chain object on the stored tip. The store never returns
      null for the tip, so the null check never fires. */
  method InitBlockchainFromDB(db: RocksDBService) returns (bc: Blockchain)
    ensures fresh(bc) && bc.db == db
    ensures bc.lastBlockHash == if db.tip.Some? then db.tip.value else ""
  {
    var lastBlockHash := db.GetLastBlockHash();
    bc := new Blockchain(db, lastBlockHash);
  }

  /** `createBlockchain(address)` with clock readings for the coinbase and the block:
      with a blank stored tip, mine a genesis block paying the subsidy to address and
      make it the tip; otherwise write nothing and continue from the stored tip. */
  method CreateBlockchain(db: RocksDBService, c: TxCrypto, address: string, txTime: Long, blockTime: Long)
    returns (r: Result<Blockchain>)
    modifies db
    ensures r.Success? ==> fresh(r.value) && r.value.db == db
    ensures old(db.tip).Some? && !IsBlank(old(db.tip).value) ==>
      r.Success? && r.value.lastBlockHash == old(db.tip).value && unchanged(db)
    ensures !(old(db.tip).Some? && !IsBlank(old(db.tip).value)) ==>
      match NewCoinbaseTX(c, address, GENESIS_COINBASE_DATA, txTime)
      case Failure(e) => r == Failure(e) && unchanged(db)
      case Success(coinbase) =>
        && r.Success? && r.value.lastBlockHash in db.blocks
        && var genesis := db.blocks[r.value.lastBlockHash];
        && genesis.hash == r.value.lastBlockHash
        && genesis.prevBlockHash == ZERO_HASH && genesis.transactions == [coinbase]
        && genesis.timeStamp == blockTime
        && (genesis.nonce < LONG_MAX ==>
              Validate(c.hashes, genesis)
              && genesis.hash == Encode(c.hashes.sha256(PrepareData(c.hashes, genesis, genesis.nonce))))
        && (genesis.nonce == LONG_MAX ==>
              genesis.hash == Encode(c.hashes.sha256(PrepareData(c.hashes, genesis, LONG_MAX - 1))))
        && db.blocks == old(db.blocks)[genesis.hash := genesis]
        && db.tip == Some(genesis.hash) && db.chainstate == old(db.chainstate)
  {
    var lastBlockHash := db.GetLastBlockHash();
    if IsBlank(lastBlockHash) {
      var coinbaseTX := NewCoinbaseTX(c, address, GENESIS_COINBASE_DATA, txTime);
      if coinbaseTX.Failure? {
        return Failure(coinbaseTX.error);
      }
      var genesisBlock := NewGenesisBlock(c.hashes, coinbaseTX.value, blockTime);
      lastBlockHash := genesisBlock.hash;
      db.PutBlock(genesisBlock);
      db.PutLastBlockHash(lastBlockHash);
    }
    var bc := new Blockchain(db, lastBlockHash);
    r := Success(bc);
  }
}
