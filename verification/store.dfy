/** `RocksDBService`: the two buckets the chain keeps. The blocks bucket holds every block
    under its hash and, under the last-block key, the tip hash; the chainstate bucket
    holds the unspent outputs of each transaction under its id. Serialisation and the
    on-disk engine are not modelled: a bucket is a map. */
module Store {
  import opened Bytes
  import opened Outcomes
  import opened Hex
  import opened Outputs
  import opened Blocks

  class RocksDBService {
    /** The blocks bucket, without its last-block key. */
    var blocks: map<HexString, Block>
    /** The value under the last-block key, if any. */
    var tip: Option<HexString>
    /** The chainstate bucket, keyed by transaction id. */
    var chainstate: map<seq<Byte>, seq<TXOutput>>

    /** Every block is stored under its own hash, as `putBlock` stores it. */
    predicate Keyed()
      reads this
    {
      forall k | k in blocks :: blocks[k].hash == k
    }

    /** The buckets as found when the database is opened. */
    constructor (blocks: map<HexString, Block>, tip: Option<HexString>, chainstate: map<seq<Byte>, seq<TXOutput>>)
      ensures this.blocks == blocks && this.tip == tip && this.chainstate == chainstate
    {
      this.blocks := blocks;
      this.tip := tip;
      this.chainstate := chainstate;
    }

    /** `putLastBlockHash`: only the tip changes. */
    method PutLastBlockHash(tipBlockHash: HexString)
      modifies this
      ensures tip == Some(tipBlockHash)
      ensures blocks == old(blocks) && chainstate == old(chainstate)
    {
      tip := Some(tipBlockHash);
    }

    /** `getLastBlockHash`: the stored tip, or "" (never null) when there is none. */
    method GetLastBlockHash() returns (h: HexString)
      ensures tip.Some? ==> h == tip.value
      ensures tip.None? ==> h == ""
    {
      h := if tip.Some? then tip.value else "";
    }

    /** `putBlock`: the block goes under its own hash; an older block there is replaced. */
    method PutBlock(block: Block)
      modifies this
      ensures blocks == old(blocks)[block.hash := block]
      ensures tip == old(tip) && chainstate == old(chainstate)
      ensures old(Keyed()) ==> Keyed()
    {
      blocks := blocks[block.hash := block];
    }

    /** `getBlock`: the block under the hash; a missing hash throws. */
    method GetBlock(blockHash: HexString) returns (r: Result<Block>)
      ensures blockHash in blocks ==> r == Success(blocks[blockHash])
      ensures blockHash !in blocks ==> r == Failure(BlockNotFound)
    {
      if blockHash in blocks {
        r := Success(blocks[blockHash]);
      } else {
        r := Failure(BlockNotFound);
      }
    }

    /** `cleanChainStateBucket`: the chainstate bucket becomes empty. */
    method CleanChainStateBucket()
      modifies this
      ensures chainstate == map[]
      ensures blocks == old(blocks) && tip == old(tip)
    {
      chainstate := map[];
    }

    /** `putUTXOs`: store (or replace) the outputs under key. */
    method PutUTXOs(key: seq<Byte>, utxos: seq<TXOutput>)
      modifies this
      ensures chainstate == old(chainstate)[key := utxos]
      ensures blocks == old(blocks) && tip == old(tip)
    {
      chainstate := chainstate[key := utxos];
    }

    /** `getUTXOs`: the outputs under key, or null when there is no entry. */
    method GetUTXOs(key: seq<Byte>) returns (r: Option<seq<TXOutput>>)
      ensures key in chainstate ==> r == Some(chainstate[key])
      ensures key !in chainstate ==> r == None
    {
      r := if key in chainstate then Some(chainstate[key]) else None;
    }

    /** `deleteUTXOs`: the entry under key disappears, if there was one. */
    method DeleteUTXOs(key: seq<Byte>)
      modifies this
      ensures chainstate == old(chainstate) - {key}
      ensures blocks == old(blocks) && tip == old(tip)
    {
      chainstate := chainstate - {key};
    }
  }
}
