/** `ProofOfWork`: the 20-bit difficulty target, the byte layout hashed for a block, the
    validity test, and the nonce search. `newBlock`, which runs the search, is here as
    well because it needs the search and the search needs the block. */
module ProofOfWork {
  import opened Bytes
  import opened Crypto
  import opened Hex
  import opened Transactions
  import opened Blocks

  /** `Constant.DIFFICULTY_TARGET_BITS`. */
  const DIFFICULTY_TARGET_BITS: Long := 20

  /** `Constant.GENESIS_COINBASE_DATA`. */
  const GENESIS_COINBASE_DATA: string := "Genesis Block Data"

  /** `newProofOfWork`: the target, 1 shifted left by 256 - 20 bits. */
  const TARGET: nat := 0x1000_0000_0000_0000_0000_0000_0000_0000_0000_0000_0000_0000_0000_0000_0000

  lemma TargetIsShift()
    ensures TARGET == Pow(2, 256 - DIFFICULTY_TARGET_BITS)
  {
    TwoTo236();
  }

  // 2^236 by repeated halving of the exponent; each step is one use of PowAdd.

  lemma TwoTo236()
    ensures Pow(2, 236) == 110427941548649020598956093796432407239217743554726184882600387580788736
  {
    TwoTo118();
    PowAdd(2, 118, 118);
  }

  lemma TwoTo118()
    ensures Pow(2, 118) == 332306998946228968225951765070086144
  {
    TwoTo59();
    PowAdd(2, 59, 59);
  }

  lemma TwoTo59()
    ensures Pow(2, 59) == 576460752303423488
  {
    TwoTo29();
    TwoTo30();
    PowAdd(2, 29, 30);
  }

  lemma TwoTo30()
    ensures Pow(2, 30) == 1073741824
  {
    TwoTo15();
    PowAdd(2, 15, 15);
  }

  lemma TwoTo29()
    ensures Pow(2, 29) == 536870912
  {
    TwoTo14();
    TwoTo15();
    PowAdd(2, 14, 15);
  }

  lemma TwoTo15()
    ensures Pow(2, 15) == 32768
  {
    TwoTo7();
    TwoTo8();
    PowAdd(2, 7, 8);
  }

  lemma TwoTo14()
    ensures Pow(2, 14) == 16384
  {
    TwoTo7();
    PowAdd(2, 7, 7);
  }

  lemma TwoTo8()
    ensures Pow(2, 8) == 256
  {
    TwoTo4();
    PowAdd(2, 4, 4);
  }

  lemma TwoTo7()
    ensures Pow(2, 7) == 128
  {
    TwoTo3();
    TwoTo4();
    PowAdd(2, 3, 4);
  }

  lemma TwoTo4()
    ensures Pow(2, 4) == 16
  {
  }

  lemma TwoTo3()
    ensures Pow(2, 3) == 8
  {
  }

  lemma {:induction false} PowAdd(b: nat, m: nat, n: nat)
    ensures Pow(b, m + n) == Pow(b, m) * Pow(b, n)
    decreases n
  {
    if n > 0 {
      PowAdd(b, m, n - 1);
    }
  }

  /** The hashed data reads every field of the block except its hash and nonce. */
  lemma PrepareDataIgnoresHash(h: Hashes, b: Block, hash: HexString, nonce: Long, other: Long)
    ensures PrepareData(h, b.(hash := hash, nonce := other), nonce) == PrepareData(h, b, nonce)
  {
  }

  datatype PowResult = PowResult(nonce: Long, hash: HexString)

  /** The previous-hash bytes in the hashed data: the minimal two's-complement bytes of
      the hex number, or nothing for a blank hash. */
  function PrevHashBytes(prevBlockHash: HexString): seq<Byte>
  {
    if prevBlockHash == [] then [] else ToByteArray(Value(prevBlockHash))
  }

  /** `prepareData(nonce)`: merge of previous-hash bytes, Merkle root, timestamp,
      difficulty and nonce. */
  function PrepareData(h: Hashes, b: Block, nonce: Long): seq<Byte>
  {
    Merge([PrevHashBytes(b.prevBlockHash), MerkleRootOf(h, b), ToBytes(b.timeStamp),
           ToBytes(DIFFICULTY_TARGET_BITS), ToBytes(nonce)])
  }

  /** The hashed data is the five parts laid end to end; its length is the previous-hash
      bytes plus the root plus 24, and two nonces change only its last 8 bytes. */
  lemma PrepareDataLayout(h: Hashes, b: Block, nonce: Long, other: Long)
    ensures PrepareData(h, b, nonce) == PrevHashBytes(b.prevBlockHash) + MerkleRootOf(h, b)
      + ToBytes(b.timeStamp) + ToBytes(DIFFICULTY_TARGET_BITS) + ToBytes(nonce)
    ensures |PrepareData(h, b, nonce)| == |PrevHashBytes(b.prevBlockHash)| + |MerkleRootOf(h, b)| + 24
    ensures |PrepareData(h, b, other)| == |PrepareData(h, b, nonce)|
    ensures PrepareData(h, b, nonce)[..|PrepareData(h, b, nonce)| - 8]
      == PrepareData(h, b, other)[..|PrepareData(h, b, other)| - 8]
    ensures PrepareData(h, b, nonce)[|PrepareData(h, b, nonce)| - 8..] == ToBytes(nonce)
  {
    var p := PrevHashBytes(b.prevBlockHash);
    var r := MerkleRootOf(h, b);
    MergeFive(p, r, ToBytes(b.timeStamp), ToBytes(DIFFICULTY_TARGET_BITS), ToBytes(nonce));
    MergeFive(p, r, ToBytes(b.timeStamp), ToBytes(DIFFICULTY_TARGET_BITS), ToBytes(other));
    var prefix := p + r + ToBytes(b.timeStamp) + ToBytes(DIFFICULTY_TARGET_BITS);
    assert (prefix + ToBytes(nonce))[..|prefix|] == prefix;
    assert (prefix + ToBytes(other))[..|prefix|] == prefix;
    assert (prefix + ToBytes(nonce))[|prefix|..] == ToBytes(nonce);
  }

  /** A block on top of the genesis block hashes a single 0x00 for ZERO_HASH. */
  lemma ZeroHashBytes()
    ensures PrevHashBytes(ZERO_HASH) == [0]
  {
    ZeroHash();
  }

  /** `sha256Hex(prepareData(nonce))` read as a number is below the target. */
  predicate Below(h: Hashes, b: Block, nonce: Long)
  {
    Value(Encode(h.sha256(PrepareData(h, b, nonce)))) < TARGET
  }

  /** `validate`: the block's own nonce meets the target. The block's stored hash is
      not read. */
  predicate Validate(h: Hashes, b: Block)
  {
    Below(h, b, b.nonce)
  }

  /** The test compares the SHA-256 digest itself with 2^236, and the stored hash never
      enters it. */
  lemma ValidateMeaning(h: Hashes, b: Block, hash: HexString)
    ensures Validate(h, b) <==> Unsigned(h.sha256(PrepareData(h, b, b.nonce))) < TARGET
    ensures Validate(h, b.(hash := hash)) == Validate(h, b)
  {
    ValueOfEncode(h.sha256(PrepareData(h, b, b.nonce)));
    PrepareDataIgnoresHash(h, b, hash, b.nonce, b.nonce);
  }

  /** `run`: try nonces 0, 1, 2, ... and stop at the first whose digest is below the
      target. If none below Long.MAX_VALUE qualifies, the nonce ends at Long.MAX_VALUE
      with the digest of the last one tried. */
  method Run(h: Hashes, b: Block) returns (r: PowResult)
    ensures 0 <= r.nonce
    ensures forall m: Long | 0 <= m < r.nonce :: !Below(h, b, m)
    ensures r.nonce < LONG_MAX ==> Below(h, b, r.nonce) && r.hash == Encode(h.sha256(PrepareData(h, b, r.nonce)))
    ensures r.nonce == LONG_MAX ==> r.hash == Encode(h.sha256(PrepareData(h, b, LONG_MAX - 1)))
  {
    var nonce: Long := 0;
    var shaHex: HexString := "";
    while nonce < LONG_MAX
      invariant 0 <= nonce
      invariant forall m: Long | 0 <= m < nonce :: !Below(h, b, m)
      invariant nonce == LONG_MAX ==> shaHex == Encode(h.sha256(PrepareData(h, b, LONG_MAX - 1)))
      decreases LONG_MAX - nonce
    {
      var data := PrepareData(h, b, nonce);
      shaHex := Encode(h.sha256(data));
      if Value(shaHex) < TARGET {
        return PowResult(nonce, shaHex);
      } else {
        nonce := nonce + 1;
      }
    }
    r := PowResult(nonce, shaHex);
  }

  /** `newBlock(previousHash, transactions)` at clock reading `now`: a block with empty
      hash and nonce 0 is searched, then takes the search's hash and nonce. Since the
      hashed data never includes the hash field, the finished block validates whenever
      the search succeeded. */
  method NewBlock(h: Hashes, previousHash: HexString, transactions: seq<Transaction>, now: Long)
    returns (block: Block)
    ensures block.prevBlockHash == previousHash && block.transactions == transactions
    ensures block.timeStamp == now
    ensures 0 <= block.nonce
    ensures forall m: Long | 0 <= m < block.nonce :: !Below(h, block, m)
    ensures block.nonce < LONG_MAX ==>
      Validate(h, block) && block.hash == Encode(h.sha256(PrepareData(h, block, block.nonce)))
    ensures block.nonce == LONG_MAX ==> block.hash == Encode(h.sha256(PrepareData(h, block, LONG_MAX - 1)))
  {
    block := Block("", previousHash, transactions, now, 0);
    var powResult := Run(h, block);
    ghost var searched := block;
    block := block.(hash := powResult.hash);
    block := block.(nonce := powResult.nonce);
    forall m: Long ensures Below(h, block, m) == Below(h, searched, m) {
      PrepareDataIgnoresHash(h, searched, powResult.hash, m, powResult.nonce);
    }
    PrepareDataIgnoresHash(h, searched, powResult.hash, LONG_MAX - 1, powResult.nonce);
  }

  /** `newGenesisBlock(coinbase)`: `newBlock(ZERO_HASH, [coinbase])`. */
  method NewGenesisBlock(h: Hashes, coinbase: Transaction, now: Long) returns (block: Block)
    ensures block.prevBlockHash == ZERO_HASH && block.transactions == [coinbase]
    ensures block.timeStamp == now
    ensures 0 <= block.nonce
    ensures forall m: Long | 0 <= m < block.nonce :: !Below(h, block, m)
    ensures block.nonce < LONG_MAX ==>
      Validate(h, block) && block.hash == Encode(h.sha256(PrepareData(h, block, block.nonce)))
    ensures block.nonce == LONG_MAX ==> block.hash == Encode(h.sha256(PrepareData(h, block, LONG_MAX - 1)))
  {
    block := NewBlock(h, ZERO_HASH, [coinbase], now);
  }
}
