/** `Block`: a batch of transactions chained to its predecessor by hash, and the Merkle
    root of its transaction ids. */
module Blocks {
  import opened Bytes
  import opened Crypto
  import opened Hex
  import opened Transactions

  datatype Block = Block(
    hash: HexString,
    prevBlockHash: HexString,
    transactions: seq<Transaction>,
    timeStamp: Long,
    nonce: Long)

  function TxIds(txs: seq<Transaction>): (ids: seq<seq<Byte>>)
    ensures |ids| == |txs| && forall i | 0 <= i < |txs| :: ids[i] == txs[i].txId
  {
    seq(|txs|, i requires 0 <= i < |txs| => txs[i].txId)
  }

  /** The Merkle root of the block's txIds, in transaction order. */
  function MerkleRootOf(h: Hashes, b: Block): seq<Byte>
  {
    h.merkleRoot(TxIds(b.transactions))
  }

  /** `hashTransaction`: collect the txIds into an array and take its Merkle root. */
  method HashTransaction(h: Hashes, b: Block) returns (root: seq<Byte>)
    ensures root == MerkleRootOf(h, b)
  {
    var txIdArrays: seq<seq<Byte>> := [];
    for i := 0 to |b.transactions|
      invariant |txIdArrays| == i
      invariant forall j | 0 <= j < i :: txIdArrays[j] == b.transactions[j].txId
    {
      txIdArrays := txIdArrays + [b.transactions[i].txId];
    }
    assert txIdArrays == TxIds(b.transactions);
    root := h.merkleRoot(txIdArrays);
  }

  /** `hashTransaction` reads nothing but the txIds, in order: blocks whose transactions
      have the same id sequence have the same root, whatever else differs. */
  lemma MerkleRootOnlyTxIds(h: Hashes, b1: Block, b2: Block)
    requires |b1.transactions| == |b2.transactions|
    requires forall i | 0 <= i < |b1.transactions| :: b1.transactions[i].txId == b2.transactions[i].txId
    ensures MerkleRootOf(h, b1) == MerkleRootOf(h, b2)
  {
    assert TxIds(b1.transactions) == TxIds(b2.transactions);
  }
}
