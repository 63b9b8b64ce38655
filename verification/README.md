# A verified model of the blockchain-java-springboot ledger core

blockchain-java-springboot is a small Bitcoin-style chain. This project models its ledger
logic in Dafny and proves properties of the model. The modelled parts are:

- blocks mined by proof of work and kept in a RocksDB store;
- a UTXO index (the "chainstate" bucket) kept beside the blocks;
- transactions that spend outputs locked to RIPEMD-160 hashes of public keys, signed with
  ECDSA;
- addresses written in Base58Check.

The model follows the Java code class by class:

| Dafny module (file) | Java source |
|---|---|
| `Bytes` (`bytes.dfy`) | `ByteUtils` (`merge`, `toBytes`), plus the JDK behaviour the core relies on: `int` wrap-around, `BigInteger.toByteArray`, `Arrays.copyOfRange`, `String.getBytes` |
| `Hex` (`hex.dfy`) | hex strings: `ZERO_HASH`, block hashes, `new BigInteger(hex, 16)` |
| `Crypto` (`crypto.dfy`) | `BtcAddressUtils`: SHA-256, RIPEMD-160, `doubleHash`, `checksum` |
| `Base58Check` (`base58.dfy`) | `Base58Check` |
| `Wallets` (`wallet.dfy`) | `Wallet.getAddress` |
| `Outputs` (`txoutput.dfy`) | `TXOutput` |
| `Transactions` (`transaction.dfy`) | `Transaction`: `hash`, `newCoinbaseTX`, `isCoinbase`, `trimmedCopy`, `sign`, `verify` |
| `Blocks` (`block.dfy`) | `Block.hashTransaction` |
| `ProofOfWork` (`pow.dfy`) | `ProofOfWork`, `Block.newBlock`, `Block.newGenesisBlock` |
| `Store` (`store.dfy`) | `RocksDBService`: the blocks bucket with its tip key, and the chainstate bucket |
| `Grouping` (`group.dfy`) | the "get the array, append, put back" pattern that fills every `Map<String, int[]>` and `Map<String, TXOutput[]>` |
| `Ledger` (`ledger.dfy`) | what `getAllSpentTXOs`, `findAllUTXOs` and `findTransaction` compute from a chain |
| `Chain` (`blockchain.dfy`) | `Blockchain` and its `BlockchainIterator` |
| `UtxoIndex` (`utxo.dfy`) | `UTXOSet` |
| `Payments` (`payments.dfy`) | `Transaction.newUTXOTransaction` and `WalletUtils.Wallets.getWallet` |

## Values and objects

Transactions, inputs, outputs and blocks are datatypes. The store hands out fresh
deserialised copies of them, so they behave as values.

The objects whose fields change in place are classes:

- `Store.RocksDBService` has the fields `blocks`, `tip` and `chainstate`.
- `Chain.Blockchain` has `lastBlockHash`.
- `Chain.BlockchainIterator` has `currentBlockHash`.
- `UtxoIndex.UTXOSet` holds its blockchain.

The loops of the source are `while`/`for` loops in methods, and each method is proved
equal to a specification function. Examples:

- `Chain.Blockchain.FindAllUTXOs` returns `UTXOs(chain)`.
- `UtxoIndex.UTXOSet.Update` leaves `ApplyBlock(old chainstate, block)`.
- `Transactions.Sign` returns `SignSpec`.

Lemmas then state what those functions mean.

## Hash functions, signatures, walks and HashMap order

Hashing, Kryo serialisation, the Merkle root and ECDSA are arrow-typed fields of the
records `Crypto.Hashes` and `Transactions.TxCrypto`, passed as parameters. Two things are
assumed of them:
- the digest lengths (SHA-256 gives 32 bytes, RIPEMD-160 gives 20);
- that each is a function. Signing is therefore deterministic, although the JDK's
  SHA256withECDSA draws a fresh random k for every signature (see "## Left out").

Verification is not assumed to succeed. `createPoint`'s rejection of a coordinate
outside the secp256k1 field is modelled explicitly. Every later exception of the
signature library, such as a signature that does not decode, is a `Failure` of
`ecVerify`.

Beyond that, every property proved holds for any hash and signature functions. The
signature scheme's correctness enters only as the hypothesis `Transactions.KeyMatches`.

A walk over the chain (`hashNext`/`next` from the tip) is described by
`Chain.Walk(blocks, hash, chain, ok)`:

- the blocks visited, newest first;
- whether the walk ends normally (`ok`) or with the exception `getBlock` throws for a
  missing hash.

A `HashMap`'s iteration order is not specified. So the order in which the chainstate is
scanned is a parameter `order` that enumerates its keys. Where the source iterates a map
it has just built, the model picks the next key with `:|`. Every result is stated for any
such order.

## Code behaviours modelled as written

These are places where the code does something other than what a reader might expect.

- **Missing blocks throw.** `getBlock` throws on a missing hash, so the
  `lastBlock == null` check in `hashNext` never fires. A walk that reaches a missing
  block throws `BlockNotFound`. The null tip checks in `initBlockchainFromDB` and
  `mineBlock` never fire either, because `getLastBlockHash` returns `""` rather than null.
- **`sign` can stop part-way.** An input whose output index is out of range stops `sign`
  with an `IndexOutOfBounds` error. The inputs before it have already been signed
  (`Transactions.SignSpec`). Signing is therefore not all-or-nothing.
- **`run` can give up.** `run` stops at `Long.MAX_VALUE`. It then returns that nonce with
  the digest of the last nonce tried. The block it produces need not validate.
- **Positions shift after a partial spend.** The chainstate stores the kept outputs of a
  transaction compacted. The following code reads positions in that compacted array:
  - `findSpendableOutputs` records positions in it, and `UtxoIndex.SpendableLocked`
    proves every recorded position indexes the stored entry.
  - `update` removes by position in it (`UtxoIndex.SpendInputRemoves`).

  The following code reads the same number as an index into the original transaction's
  outputs:
  - `getAllSpentTXOs` (`Ledger.SpentMeaning`);
  - `sign` and `verify`.

  The two readings agree only while no entry has been partly spent. So the model does not
  claim that `reIndex` and a run of `update`s build the same index.
- **`verify` checks no ownership.** `verify` never checks that an input's public key
  hashes to the locking hash of the output it spends
  (`Transactions.VerifyIgnoresOwnership`).
- **32-bit arithmetic.** `accumulated` and output values are Java `int`s. Sums wrap
  around (`Bytes.Wrap32`), and so does the change `accumulated - amount`.
- **Short decodings.** If fewer than four bytes decode, `base58ToBytes` fails with
  `NegativeArraySizeException`.
- **Empty payload.** An address whose checked payload is empty makes `newTXOutput` fail
  in `copyOfRange`.

`isCoinbase` is the predicate `Transactions.IsCoinbase`: exactly one input, an empty
txId and output index -1 (`Ledger.CoinbaseRefs`). `isLockedWithKey` is `Outputs.IsLockedWithKey`: byte-for-byte
equality of the locking hash.

## Model

All source paths are below `src/main/java/com/clover/blockchain/`, written out in full.

Some definitions have no row of their own, because a lemma carries their meaning and the
lemma has a row:
- `Transactions.TxHash` is covered by `Transactions.HashIgnoresTxId` and `Transactions.NewCoinbaseTX`.
- `Transactions.IsCoinbase` is covered by `Ledger.CoinbaseRefs`.
- `ProofOfWork.PrepareData` is covered by `ProofOfWork.PrepareDataLayout`.
- `ProofOfWork.Validate` is covered by `ProofOfWork.ValidateMeaning`.
- `ProofOfWork.TARGET` is covered by `ProofOfWork.TargetIsShift`.
- `Outputs.IsLockedWithKey` is covered by `Outputs.OutputToWallet` and `UtxoIndex.LockedMembership`.
- `Base58Check.BytesToBase58` is covered by `Base58Check.CheckedRoundTrip`.
- `Bytes.Merge` is covered by `Bytes.MergeAppend` and `Bytes.MergeFive`.

| member | source | states |
|---|---|---|
| Bytes.Wrap32 | src/main/java/com/clover/blockchain/transaction/UTXOSet.java:58 | the Java `int` result of an addition: congruent to the exact sum modulo 2^32, and equal to it when the sum is in range |
| Bytes.ToBytes | src/main/java/com/clover/blockchain/util/ByteUtils.java:20-22 | `toBytes` yields exactly 8 bytes, which read back big-endian in two's complement give the long |
| Bytes.ToBytesInjective | src/main/java/com/clover/blockchain/util/ByteUtils.java:20-22 | distinct longs have distinct 8-byte encodings |
| Bytes.MergeAppend | src/main/java/com/clover/blockchain/util/ByteUtils.java:12-18 | merging a list of arrays split in two is merging each part and concatenating, so `merge` is concatenation in argument order |
| Bytes.MergeLength | src/main/java/com/clover/blockchain/util/ByteUtils.java:12-18 | the merged length is the sum of the argument lengths |
| Bytes.MergeFive | src/main/java/com/clover/blockchain/pow/ProofOfWork.java:39-45 | merging five arrays is their concatenation in order, and merging none gives the empty array |
| Bytes.ToByteArray | src/main/java/com/clover/blockchain/pow/ProofOfWork.java:36 | `BigInteger.toByteArray` of a non-negative number: big-endian bytes whose unsigned value is the number, with a clear sign bit and no redundant leading zero byte |
| Bytes.MagnitudeBytes | src/main/java/com/clover/blockchain/util/Base58Check.java:101-104 | dropping the sign byte from `toByteArray` of the value of a byte string without leading zero bytes gives that string back |
| Bytes.Utf8 | src/main/java/com/clover/blockchain/transaction/Transaction.java:59 | `getBytes` gives at least one byte per character, and exactly one per character when all are ASCII |
| Bytes.CopyOfRange | src/main/java/com/clover/blockchain/transaction/Transaction.java:211-212 | `Arrays.copyOfRange` fails exactly when from is outside the array or after to; otherwise it has to - from bytes, copied and padded with zeros past the end |
| Hex.Encode | src/main/java/com/clover/blockchain/pow/ProofOfWork.java:63 | the hex encoding has two lower-case digits per byte |
| Hex.ValueOfEncode | src/main/java/com/clover/blockchain/pow/ProofOfWork.java:64 | reading a digest's hex encoding as a base-16 number gives the digest's unsigned value |
| Hex.ZeroHash | src/main/java/com/clover/blockchain/util/Constant.java:11-13 | ZERO_HASH is 64 '0' characters, whose value is 0 |
| Base58Check.AlphabetShape | src/main/java/com/clover/blockchain/util/Base58Check.java:121 | the alphabet has 58 strictly increasing characters, starts with '1', and contains none of '0', 'O', 'I', 'l' |
| Base58Check.IndexOfMisses | src/main/java/com/clover/blockchain/util/Base58Check.java:94-97 | `indexOf` returns -1 exactly for characters outside the alphabet |
| Base58Check.Digits | src/main/java/com/clover/blockchain/util/Base58Check.java:33-37 | the base-58 digits of a number use only the alphabet, are empty exactly for zero, and never start with '1' |
| Base58Check.ValueOfDigits | src/main/java/com/clover/blockchain/util/Base58Check.java:33-37 | reading the digits back gives the number |
| Base58Check.RawBytesToBase58 | src/main/java/com/clover/blockchain/util/Base58Check.java:29-44 | the division loop, the leading-'1' loop and the reversal compute the raw Base58 encoding |
| Base58Check.RawToBase58Alphabet | src/main/java/com/clover/blockchain/util/Base58Check.java:29-44 | the raw encoding contains only alphabet characters, so never '0', 'O', 'I' or 'l' |
| Base58Check.RawToBase58LeadingOnes | src/main/java/com/clover/blockchain/util/Base58Check.java:33-42 | the number of leading '1's equals the number of leading zero bytes |
| Base58Check.Base58ToRaw | src/main/java/com/clover/blockchain/util/Base58Check.java:92-98 | raw decoding fails, with "invalid character", exactly when some character is outside the alphabet |
| Base58Check.Base58ToRawBytes | src/main/java/com/clover/blockchain/util/Base58Check.java:89-116 | the accumulation loop, the sign-byte strip and the leading-zero loop compute the raw decoding, including its failure |
| Base58Check.RawRoundTrip | src/main/java/com/clover/blockchain/util/Base58Check.java:89-116 | raw decoding inverts raw encoding for every byte string, the empty one included |
| Base58Check.AddCheckHash | src/main/java/com/clover/blockchain/util/Base58Check.java:52-62 | the data followed by the first 4 bytes of its double SHA-256 |
| Base58Check.Base58ToBytes | src/main/java/com/clover/blockchain/util/Base58Check.java:72-81 | checked decoding fails with "invalid character" exactly for a non-alphabet character, and with a negative array size exactly when fewer than 4 bytes decode; a result d means the raw bytes are d followed by its checksum; "checksum mismatch" occurs exactly when at least 4 bytes decode and no d fits; no other error arises |
| Base58Check.DecodeChecked | src/main/java/com/clover/blockchain/util/Base58Check.java:72-81 | a string whose raw bytes are d followed by d's checksum decodes to d |
| Base58Check.CheckedRoundTrip | src/main/java/com/clover/blockchain/util/Base58Check.java:19-21 | `base58ToBytes(bytesToBase58(d)) == d` for every d |
| Wallets.VersionedPayload | src/main/java/com/clover/blockchain/wallet/Wallet.java:94-100 | the versioned payload is 21 bytes starting with version 0 |
| Wallets.GetAddress | src/main/java/com/clover/blockchain/wallet/Wallet.java:91-115 | an address decodes under `base58ToBytes` to version 0 followed by the RIPEMD-160 hash of the public key, and starts with '1' |
| Wallets.AddressIgnoresPrivateKey | src/main/java/com/clover/blockchain/wallet/Wallet.java:91-110 | wallets with the same public key have the same address, whatever their private keys |
| Outputs.NewTXOutput | src/main/java/com/clover/blockchain/transaction/TXOutput.java:18-23 | a rejected address makes the call fail with the decoder's error, and an empty payload fails in `copyOfRange`; whenever the checked payload has at least one byte the call succeeds, keeping the value and locking to the payload without its version byte |
| Outputs.OutputToWallet | src/main/java/com/clover/blockchain/transaction/TXOutput.java:18-28 | an output to a wallet's address is locked with, and only with, the RIPEMD-160 hash of that wallet's public key |
| Transactions.HashIgnoresTxId | src/main/java/com/clover/blockchain/transaction/Transaction.java:45-51 | transactions differing only in txId have the same hash |
| Transactions.NewCoinbaseTX | src/main/java/com/clover/blockchain/transaction/Transaction.java:54-68 | it fails exactly when the output cannot be built; otherwise the result is a coinbase whose input has an empty txId, index -1, no signature and the data bytes (or "Reward to '…'" for blank data) as public key, whose single output pays SUBSIDY (10) to the address, and whose txId is its hash |
| Transactions.TrimmedCopy | src/main/java/com/clover/blockchain/transaction/Transaction.java:118-132 | the copy keeps txId, createTime, outputs and every input's reference, and nulls every signature and public key |
| Transactions.HashWithLockingHash | src/main/java/com/clover/blockchain/transaction/Transaction.java:159-163 | the three steps `sign` and `verify` take on the copy for input i give the copy's txId the digest of input i and leave the copy trimmed again |
| Transactions.InputDigestSameTrim | src/main/java/com/clover/blockchain/transaction/Transaction.java:153-163 | an input's digest depends only on the trimmed transaction, so filling in signatures or public keys does not change it |
| Transactions.FirstBadIndex | src/main/java/com/clover/blockchain/transaction/Transaction.java:158 | the first input whose output index is outside its previous transaction's outputs, or the input count when none is |
| Transactions.Sign | src/main/java/com/clover/blockchain/transaction/Transaction.java:134-173 | `sign` does nothing for a coinbase, and writes nothing when a previous transaction is missing; otherwise it signs each input's digest in order, stopping at an out-of-range index; it changes only the inputs' signature fields |
| Transactions.FirstDecisiveTrue | src/main/java/com/clover/blockchain/transaction/Transaction.java:196-223 | a run of per-input checks comes out true exactly when every check passes |
| Transactions.VerifyFromStep | src/main/java/com/clover/blockchain/transaction/Transaction.java:196-222 | an input that checks hands over to the next one, and any other outcome of its check is `verify`'s outcome |
| Transactions.VerifyFromTrue | src/main/java/com/clover/blockchain/transaction/Transaction.java:196-223 | `verify`'s loop returns true exactly when every input's signature checks, with that input's key, against the digest `sign` computes for it |
| Transactions.Verify | src/main/java/com/clover/blockchain/transaction/Transaction.java:175-224 | `verify` returns true for a coinbase and throws "previous transaction not correct" when one is missing; otherwise it has the outcome of the per-input checks, in input order. Each check throws for a missing output, a null or short public key, a coordinate outside the field, a null signature, or an exception of the signature library, and is false when the signature does not check |
| Transactions.OffFieldKeyThrows | src/main/java/com/clover/blockchain/transaction/Transaction.java:211-213 | a public key with a coordinate at or above the secp256k1 prime makes its input's check throw, whatever the signature |
| Transactions.SignThenVerify | src/main/java/com/clover/blockchain/transaction/Transaction.java:134-224 | when every output referenced exists and every input carries the public key matching the signing key, `sign` succeeds and `verify` of the signed transaction returns true |
| Transactions.VerifyIgnoresOwnership | src/main/java/com/clover/blockchain/transaction/Transaction.java:196-223 | `verify`'s result is the same under any RIPEMD-160, so it never checks that an input's key owns the output spent |
| Transactions.InputCheckIgnoresOwnership | src/main/java/com/clover/blockchain/transaction/Transaction.java:197-221 | the check of one input does not depend on RIPEMD-160 |
| Blocks.TxIds | src/main/java/com/clover/blockchain/block/Block.java:47-50 | the array of txIds, in transaction order |
| Blocks.HashTransaction | src/main/java/com/clover/blockchain/block/Block.java:46-52 | the loop computes the Merkle root of the txIds |
| Blocks.MerkleRootOnlyTxIds | src/main/java/com/clover/blockchain/block/Block.java:46-52 | blocks whose transactions have the same txIds in the same order have the same Merkle root |
| ProofOfWork.TargetIsShift | src/main/java/com/clover/blockchain/pow/ProofOfWork.java:27-30 | the target is 1 shifted left by 256 - 20, that is 2^236 |
| ProofOfWork.PrepareDataLayout | src/main/java/com/clover/blockchain/pow/ProofOfWork.java:33-47 | the mined data is the previous hash's bytes, the Merkle root, then the timestamp, 20 and the nonce as 8 bytes each; its length is the first two lengths plus 24, and the nonce changes only the last 8 bytes |
| ProofOfWork.ZeroHashBytes | src/main/java/com/clover/blockchain/pow/ProofOfWork.java:34-37 | ZERO_HASH as the previous hash contributes the single byte 0 |
| ProofOfWork.PrepareDataIgnoresHash | src/main/java/com/clover/blockchain/pow/ProofOfWork.java:33-47 | the mined data does not read the block's hash or stored nonce |
| ProofOfWork.ValidateMeaning | src/main/java/com/clover/blockchain/pow/ProofOfWork.java:50-53 | `validate` holds exactly when the SHA-256 of the data at the stored nonce is below the target, and setting the hash field does not change it |
| ProofOfWork.Run | src/main/java/com/clover/blockchain/pow/ProofOfWork.java:56-73 | `run` returns the least nonce whose digest is below the target, with that digest's hex, and every smaller nonce fails; if it reaches Long.MAX_VALUE it returns the hex of the last digest tried |
| ProofOfWork.NewBlock | src/main/java/com/clover/blockchain/block/Block.java:36-43 | `newBlock` keeps the previous hash, the transactions and the time; its nonce is non-negative and no smaller non-negative nonce meets the target; unless the search gave up the block validates and its hash is its digest's hex, and if it gave up at Long.MAX_VALUE the hash is that of the last nonce tried |
| ProofOfWork.NewGenesisBlock | src/main/java/com/clover/blockchain/block/Block.java:31-33 | the genesis block has ZERO_HASH as previous hash and the coinbase as its only transaction; its nonce is the least non-negative one meeting the target, and it validates unless the search gave up; its hash is the hex digest of the data prepared with its nonce, or with LONG_MAX - 1 when the search gave up |
| Store.RocksDBService.constructor | src/main/java/com/clover/blockchain/service/RocksDBService.java:22-25 | a store holding the given buckets |
| Store.RocksDBService.PutLastBlockHash | src/main/java/com/clover/blockchain/service/RocksDBService.java:28-36 | the tip becomes the hash, and nothing else changes |
| Store.RocksDBService.GetLastBlockHash | src/main/java/com/clover/blockchain/service/RocksDBService.java:39-45 | returns the stored tip, or "" when there is none |
| Store.RocksDBService.PutBlock | src/main/java/com/clover/blockchain/service/RocksDBService.java:48-56 | the block is stored under its hash, and nothing else changes |
| Store.RocksDBService.GetBlock | src/main/java/com/clover/blockchain/service/RocksDBService.java:59-65 | returns the block stored under the hash, and throws when there is none |
| Store.RocksDBService.CleanChainStateBucket | src/main/java/com/clover/blockchain/service/RocksDBService.java:68-75 | the chainstate becomes empty, and the blocks and tip are unchanged |
| Store.RocksDBService.PutUTXOs | src/main/java/com/clover/blockchain/service/RocksDBService.java:77-85 | the entry under the key becomes the outputs, and nothing else changes |
| Store.RocksDBService.GetUTXOs | src/main/java/com/clover/blockchain/service/RocksDBService.java:88-94 | returns the entry under the key, or null when there is none |
| Store.RocksDBService.DeleteUTXOs | src/main/java/com/clover/blockchain/service/RocksDBService.java:97-105 | the entry under the key is removed, and nothing else changes |
| Grouping.GroupSnoc | src/main/java/com/clover/blockchain/transaction/UTXOSet.java:60-66 | recording one more pair appends its value to its key's array, which starts as a one-element array |
| Grouping.GroupMeaning | src/main/java/com/clover/blockchain/block/Blockchain.java:144-150 | a key has an entry exactly when some value was recorded for it, and the entry is those values in recording order |
| Grouping.ValuesOfMembership | src/main/java/com/clover/blockchain/block/Blockchain.java:171-177 | a value is in a key's entry exactly when that pair was recorded |
| Ledger.InputRefs | src/main/java/com/clover/blockchain/block/Blockchain.java:169-177 | the (txId, index) references of the inputs, in order |
| Ledger.CoinbaseRefs | src/main/java/com/clover/blockchain/transaction/Transaction.java:70-74 | `isCoinbase` holds exactly when the transaction's only reference is the null reference (empty txId, index -1), which names no previous output |
| Ledger.TxSpentRefsMembership | src/main/java/com/clover/blockchain/block/Blockchain.java:164-178 | a transaction contributes a reference exactly when it is not a coinbase and one of its inputs has it |
| Ledger.BlockSpentRefsMembership | src/main/java/com/clover/blockchain/block/Blockchain.java:164-179 | a block contributes a reference exactly when one of its transactions does |
| Ledger.SpentRefsSound | src/main/java/com/clover/blockchain/block/Blockchain.java:158-182 | every reference recorded comes from some block of the chain |
| Ledger.SpentRefsComplete | src/main/java/com/clover/blockchain/block/Blockchain.java:158-182 | every reference a block of the chain spends is recorded |
| Ledger.SpentMeaning | src/main/java/com/clover/blockchain/block/Blockchain.java:158-182 | index x is in the spent array of txId k exactly when some non-coinbase transaction on the chain has an input (k, x), and coinbases contribute nothing |
| Ledger.KeptOutputsMembership | src/main/java/com/clover/blockchain/block/Blockchain.java:140-151 | an output is kept exactly when it sits at some index not recorded as spent |
| Ledger.KeptNothingSpent | src/main/java/com/clover/blockchain/block/Blockchain.java:138-143 | with no spent indices, every output is kept, in order |
| Ledger.UnspentValues | src/main/java/com/clover/blockchain/block/Blockchain.java:132-153 | the outputs collected under a txId are the kept outputs of every transaction with that id, newest block first |
| Ledger.UTXOsMeaning | src/main/java/com/clover/blockchain/block/Blockchain.java:128-155 | a txId has an entry in the UTXO map exactly when some of its outputs are unspent, and the entry is exactly those outputs in order; a fully spent transaction gets no entry |
| Ledger.FindInBlock | src/main/java/com/clover/blockchain/block/Blockchain.java:189-193 | a transaction found in a block has the id and is in the block, and none is found exactly when no transaction of the block has the id |
| Ledger.FindInBlockFirst | src/main/java/com/clover/blockchain/block/Blockchain.java:189-193 | the transaction found sits at a position holding the id with no earlier position holding it: the first match in the block |
| Ledger.FindTxIn | src/main/java/com/clover/blockchain/block/Blockchain.java:186-194 | a transaction found has the id and is on the chain, and none is found exactly when no transaction on the chain has the id |
| Ledger.FindTxInFirst | src/main/java/com/clover/blockchain/block/Blockchain.java:186-194 | the transaction found is the first match of the walk: no block nearer the tip holds the id, and within its block no earlier transaction does |
| Ledger.FindTxInAppend | src/main/java/com/clover/blockchain/block/Blockchain.java:186-194 | a match in newer blocks wins over one in older blocks |
| Ledger.FindOutcome | src/main/java/com/clover/blockchain/block/Blockchain.java:186-196 | `findTransaction` returns a transaction with the id, or throws "not found" after a complete walk, or the walk's own exception |
| Chain.HasNextSpec | src/main/java/com/clover/blockchain/block/Blockchain.java:96-109 | `hashNext` is true only for a non-blank, non-zero hash whose block and whose block's own hash are both stored; a missing block makes it throw |
| Chain.WalkUnique | src/main/java/com/clover/blockchain/block/Blockchain.java:88-120 | the blocks an iterator visits, and how the walk ends, are determined by the store and the starting hash |
| Chain.WalkFollowsLinks | src/main/java/com/clover/blockchain/block/Blockchain.java:112-119 | in a store keyed by block hash, a walk starts at the tip and follows prevBlockHash links; a normal end follows a block whose predecessor is blank or ZERO_HASH, and an exception follows a missing predecessor |
| Chain.WalkExtends | src/main/java/com/clover/blockchain/block/Blockchain.java:82-86 | adding a new block on top of a tip whose walk ends normally gives a walk that visits the new block and then the old chain |
| Chain.WalkFresh | src/main/java/com/clover/blockchain/block/Blockchain.java:82-86 | storing a block under a new hash does not change an existing walk |
| Chain.BlockchainIterator.constructor | src/main/java/com/clover/blockchain/block/Blockchain.java:92-94 | an iterator at the given hash |
| Chain.BlockchainIterator.HashNext | src/main/java/com/clover/blockchain/block/Blockchain.java:96-109 | `hashNext` computes `HasNextSpec` on the current hash |
| Chain.BlockchainIterator.Next | src/main/java/com/clover/blockchain/block/Blockchain.java:112-119 | `next` returns the block under the current hash and moves to its predecessor, and throws on a missing block without moving |
| Chain.LookupPrevTxsMeaning | src/main/java/com/clover/blockchain/block/Blockchain.java:201-205 | the lookups succeed exactly when every input's transaction is found; the map then sends each input's txId to that transaction and holds nothing else |
| Chain.LookupPrefixFails | src/main/java/com/clover/blockchain/block/Blockchain.java:202-205 | once a lookup throws, later inputs are not looked up |
| Chain.VerifyTxSpec | src/main/java/com/clover/blockchain/block/Blockchain.java:210-225 | a coinbase gives true; a failed lookup gives exactly that lookup's exception, and an exception other than `VerifyFailed` comes only from a failed lookup; after successful lookups, the result is `VerifyFailed` exactly when `verify` throws, and otherwise `verify`'s own result |
| Chain.FirstRejection | src/main/java/com/clover/blockchain/block/Blockchain.java:66-71 | `mineBlock`'s check loop throws nothing exactly when every transaction verifies |
| Chain.Blockchain.CheckTransactions | src/main/java/com/clover/blockchain/block/Blockchain.java:66-71 | the loop stops at the first transaction whose check throws, with that exception, or returns false, with "Invalid transaction" |
| Chain.RecordSpent | src/main/java/com/clover/blockchain/block/Blockchain.java:164-179 | one block's pass of `getAllSpentTXOs` extends the spent map of the blocks before it to that of one block more |
| Chain.CollectUnspent | src/main/java/com/clover/blockchain/block/Blockchain.java:134-152 | one block's pass of `findAllUTXOs` extends the map of unspent outputs by that block's kept outputs |
| Chain.Blockchain.GetBlockchainIterator | src/main/java/com/clover/blockchain/block/Blockchain.java:122-125 | a new iterator at lastBlockHash |
| Chain.Blockchain.AddBlock | src/main/java/com/clover/blockchain/block/Blockchain.java:82-86 | the block is stored under its hash, and the stored tip and lastBlockHash both become that hash; the chainstate is unchanged |
| Chain.Blockchain.FindTransaction | src/main/java/com/clover/blockchain/block/Blockchain.java:186-196 | the result is `FindOutcome` of the walk: the first transaction with the id, newest block first (Ledger.FindTxInFirst), or "not found" after a complete walk, or the exception the walk ends with |
| Chain.Blockchain.GetAllSpentTXOs | src/main/java/com/clover/blockchain/block/Blockchain.java:158-182 | the spent map of the whole chain, or the walk's exception |
| Chain.Blockchain.FindAllUTXOs | src/main/java/com/clover/blockchain/block/Blockchain.java:128-155 | the UTXO map of the whole chain (see Ledger.UTXOsMeaning), or the walk's exception |
| Chain.Blockchain.CollectAllUnspent | src/main/java/com/clover/blockchain/block/Blockchain.java:132-153 | the second walk of `findAllUTXOs` groups every output not among the spent references by txId |
| Chain.Blockchain.CollectPrevTxs | src/main/java/com/clover/blockchain/block/Blockchain.java:201-205 | the map of previous transactions, looked up input by input with `findTransaction` |
| Chain.Blockchain.SignTransaction | src/main/java/com/clover/blockchain/block/Blockchain.java:199-207 | a failed lookup leaves the transaction unsigned with the lookup's exception; otherwise the result is `sign` against the looked-up transactions |
| Chain.Blockchain.VerifyTransactions | src/main/java/com/clover/blockchain/block/Blockchain.java:210-225 | true for a coinbase without any lookup; otherwise the lookup's exception as it is, or `verify`'s result against the looked-up transactions, with any exception of `verify` rethrown as `VerifyFailed` |
| Chain.Blockchain.MineBlock | src/main/java/com/clover/blockchain/block/Blockchain.java:65-80 | a transaction whose check throws (a lookup failure, or `VerifyFailed`) or returns false makes it throw that exception, or "Invalid transaction", with nothing written; otherwise the new block's previous hash is the stored tip, it holds the transactions, it validates unless the search gave up, its hash is the hex digest of the data prepared with its nonce (with LONG_MAX - 1 when the search gave up), and it is stored and becomes the tip |
| Chain.InitBlockchainFromDB | src/main/java/com/clover/blockchain/block/Blockchain.java:41-47 | a blockchain on the stored tip, or on "" when there is none |
| Chain.CreateBlockchain | src/main/java/com/clover/blockchain/block/Blockchain.java:50-62 | with a non-blank stored tip nothing is written and the tip is used; otherwise a genesis block holding one coinbase to the address is mined, stored and made the tip, unless building the coinbase fails; the genesis block validates unless the search gave up, and its hash is the hex digest of its prepared data |
| UtxoIndex.EntryCandidates | src/main/java/com/clover/blockchain/transaction/UTXOSet.java:55-56 | the outputs of one chainstate entry with their positions in that entry |
| UtxoIndex.CandidatesMembership | src/main/java/com/clover/blockchain/transaction/UTXOSet.java:51-56 | the scan meets an (id, position, output) exactly when the entry under id holds that output at that position |
| UtxoIndex.LockedMembership | src/main/java/com/clover/blockchain/transaction/UTXOSet.java:57 | an output is eligible exactly when it is locked with the given hash |
| UtxoIndex.SelectSaturated | src/main/java/com/clover/blockchain/transaction/UTXOSet.java:57-69 | once the amount is reached nothing more is picked |
| UtxoIndex.SelectTotal | src/main/java/com/clover/blockchain/transaction/UTXOSet.java:57-58 | accumulated is the 32-bit sum of the picked outputs' values |
| UtxoIndex.SelectBelow | src/main/java/com/clover/blockchain/transaction/UTXOSet.java:57 | each output was picked while the sum of those before it was below the amount |
| UtxoIndex.SelectPrefix | src/main/java/com/clover/blockchain/transaction/UTXOSet.java:55-71 | the picked outputs are a prefix of the eligible ones in scan order, and a proper prefix only when the amount was reached |
| UtxoIndex.SelectMeaning | src/main/java/com/clover/blockchain/transaction/UTXOSet.java:47-74 | the selection is first-fit: a prefix of the eligible outputs, each picked below the amount, stopping only at the amount, and accumulated is their sum |
| UtxoIndex.SelectNothing | src/main/java/com/clover/blockchain/transaction/UTXOSet.java:49-57 | an amount of 0 or less selects nothing and accumulated is 0 |
| UtxoIndex.SelectEnoughOrAll | src/main/java/com/clover/blockchain/transaction/UTXOSet.java:51-72 | either the amount is reached or every eligible output was picked |
| UtxoIndex.ShortfallIsBalance | src/main/java/com/clover/blockchain/transaction/UTXOSet.java:51-72 | when the amount is not reached, the whole balance locked to the hash is below it |
| UtxoIndex.ReachedBySome | src/main/java/com/clover/blockchain/transaction/UTXOSet.java:49-58 | for a positive amount, reaching it needs at least one picked output |
| UtxoIndex.PositionsIncrease | src/main/java/com/clover/blockchain/transaction/UTXOSet.java:60-66 | positions recorded under one txId are strictly increasing when picked in scan order |
| UtxoIndex.SpendableLocked | src/main/java/com/clover/blockchain/transaction/UTXOSet.java:55-66 | every recorded txId is an entry of the index, and every recorded position indexes that entry at an output locked with the hash |
| UtxoIndex.SpendableAscending | src/main/java/com/clover/blockchain/transaction/UTXOSet.java:55-66 | the positions in each entry of unspentOuts are strictly increasing |
| UtxoIndex.OwnedOutputsMeaning | src/main/java/com/clover/blockchain/transaction/UTXOSet.java:78-93 | `findUTXOs` returns an output exactly when it is locked with the hash and held by some entry of the index |
| UtxoIndex.ShortfallTakesAll | src/main/java/com/clover/blockchain/transaction/UTXOSet.java:51-72 | when the amount is not reached, the outputs picked are exactly those `findUTXOs` returns, in the same order |
| UtxoIndex.CandidatesOfEmpty | src/main/java/com/clover/blockchain/transaction/UTXOSet.java:81-83 | an empty index offers nothing |
| UtxoIndex.RemoveAtMeaning | src/main/java/com/clover/blockchain/transaction/UTXOSet.java:135-139 | the remainder is the entry without the output at the input's index, or the whole entry when the index is out of range |
| UtxoIndex.SpendInputRemoves | src/main/java/com/clover/blockchain/transaction/UTXOSet.java:127-146 | spending an in-range position deletes an entry of one output, and otherwise removes that position |
| UtxoIndex.SpendInputKeeps | src/main/java/com/clover/blockchain/transaction/UTXOSet.java:131-146 | an out-of-range position deletes an empty entry and leaves any other entry as it is |
| UtxoIndex.SpendInputsFrame | src/main/java/com/clover/blockchain/transaction/UTXOSet.java:125-147 | spending inputs leaves every entry that no input references |
| UtxoIndex.ApplyBlockFrame | src/main/java/com/clover/blockchain/transaction/UTXOSet.java:121-154 | `update` leaves unchanged every entry that no input of the block references and no transaction of the block creates |
| UtxoIndex.ApplyBlockAppend | src/main/java/com/clover/blockchain/transaction/UTXOSet.java:121-154 | updating with a list of transactions is updating with each part in turn, so transactions apply in block order |
| UtxoIndex.ApplyBlockStores | src/main/java/com/clover/blockchain/transaction/UTXOSet.java:151-153 | a transaction whose id no later transaction of the block touches leaves its full output array under its txId |
| UtxoIndex.Remainder | src/main/java/com/clover/blockchain/transaction/UTXOSet.java:135-139 | the loop computes the entry without the spent position |
| UtxoIndex.SpendOutput | src/main/java/com/clover/blockchain/transaction/UTXOSet.java:127-146 | one input's pass of `update`: a missing entry is skipped, an emptied entry is deleted, and otherwise the remainder is written back; the blocks and tip are unchanged |
| UtxoIndex.ScanEntry | src/main/java/com/clover/blockchain/transaction/UTXOSet.java:55-71 | one entry's pass of `findSpendableOutputs`, with its break, extends the first-fit selection over that entry |
| UtxoIndex.UTXOSet.constructor | src/main/java/com/clover/blockchain/transaction/UTXOSet.java:41-44 | a UTXO set over the given blockchain |
| UtxoIndex.UTXOSet.FindSpendableOutputs | src/main/java/com/clover/blockchain/transaction/UTXOSet.java:47-74 | the result is the first-fit selection over the index in scan order, with the positions grouped by txId |
| UtxoIndex.UTXOSet.FindUTXOs | src/main/java/com/clover/blockchain/transaction/UTXOSet.java:78-93 | the outputs in the index locked with the hash, in scan order; none for an empty index |
| UtxoIndex.UTXOSet.ReIndex | src/main/java/com/clover/blockchain/transaction/UTXOSet.java:97-105 | the index becomes exactly the UTXO map of the chain; if the walk throws, the index is left cleared; the blocks and tip are unchanged |
| UtxoIndex.UTXOSet.Update | src/main/java/com/clover/blockchain/transaction/UTXOSet.java:116-157 | a null block makes it throw with nothing changed; otherwise the index becomes the old index with the block's transactions applied in order; the blocks and tip are unchanged |
| Payments.GetWallet | src/main/java/com/clover/blockchain/wallet/WalletUtils.java:197-211 | the wallet is returned exactly when the address passes the checked decoding and is in the wallet map; it is the mapped wallet, and otherwise the lookup throws |
| Payments.GetOwnWallet | src/main/java/com/clover/blockchain/wallet/WalletUtils.java:197-211 | a wallet stored under its own address is found by that address |
| Payments.EntryInputs | src/main/java/com/clover/blockchain/transaction/Transaction.java:98-100 | one unsigned input carrying the sender's public key per recorded position, in order |
| Payments.InputsForNames | src/main/java/com/clover/blockchain/transaction/Transaction.java:93-101 | every input built names a txId of unspentOuts and one of the positions recorded under it |
| Payments.InputsForCovers | src/main/java/com/clover/blockchain/transaction/Transaction.java:93-101 | every recorded (txId, position) gets an input |
| Payments.InputsForCount | src/main/java/com/clover/blockchain/transaction/Transaction.java:93-101 | the number of inputs is the number of recorded positions under the keys iterated |
| Payments.SelectedInputs | src/main/java/com/clover/blockchain/transaction/Transaction.java:82-101 | there is one input per selected output, each unsigned and carrying the sender's public key; an input (k, v) exists exactly when the output at position v of entry k was selected |
| Payments.InputsForMembershipAt | src/main/java/com/clover/blockchain/transaction/Transaction.java:99 | each input built has the public key, no signature and a non-negative index |
| Payments.PaymentConserves | src/main/java/com/clover/blockchain/transaction/Transaction.java:103-107 | output 0 pays the amount, a change output exists exactly when accumulated exceeds the amount, and the outputs add up to accumulated |
| Payments.ChangeAddsUp | src/main/java/com/clover/blockchain/transaction/Transaction.java:106 | in 32-bit arithmetic the amount plus the change is accumulated |
| Payments.PaymentLocks | src/main/java/com/clover/blockchain/transaction/Transaction.java:103-107 | between wallets, output 0 is locked to the recipient's key hash and the change to the sender's |
| Payments.UnsignedInputs | src/main/java/com/clover/blockchain/transaction/Transaction.java:92-101 | the payment built is not a coinbase and every input carries the sender's public key |
| Payments.SignedVerifies | src/main/java/com/clover/blockchain/block/Blockchain.java:199-225 | a transaction that `signTransaction` signs without error passes `verifyTransactions` against the same chain |
| Payments.PaymentVerifies | src/main/java/com/clover/blockchain/transaction/Transaction.java:77-115 | a payment `newUTXOTransaction` returns passes `verifyTransactions`, so `mineBlock` accepts it |
| Payments.NewOutputs | src/main/java/com/clover/blockchain/transaction/Transaction.java:103-107 | the payment output and the optional change output |
| Payments.EntryToInputs | src/main/java/com/clover/blockchain/transaction/Transaction.java:98-100 | the inner loop builds the inputs of one entry |
| Payments.CollectInputs | src/main/java/com/clover/blockchain/transaction/Transaction.java:90-101 | the loop over the entries, in the map's iteration order, builds the inputs of every entry |
| Payments.PositionsBounded | src/main/java/com/clover/blockchain/transaction/UTXOSet.java:55-66 | every recorded position fits in an `int` |
| Payments.NewUTXOTransaction | src/main/java/com/clover/blockchain/transaction/Transaction.java:77-115 | an unknown sender makes it throw; otherwise it selects with the sender's key hash, throws "not enough funds" below the amount, and returns the payment built from the selection, hashed and then signed against the chain |

## Left out

- Hash and signature functions (SHA-256, RIPEMD-160, the Kryo serialisation inside `hash`, `MerkleTree`, ECDSA over secp256k1) are parameters. What is assumed of them is listed under "Hash functions, signatures, walks and HashMap order" above: the digest lengths, and that each is a function, so signing is deterministic. Verification may throw: `createPoint`'s field check is modelled, and the rest of the library's exceptions, such as an undecodable signature, are `Failure`s of `ecVerify`.
- Key generation (`Wallet.initWallet`, `newECKeyPair`) is not modelled; a wallet is a value holding a private key and a public key.
- `WalletUtils` persistence (the encrypted wallet file, the singleton, `createWallet`, `getAddresses`) is not modelled: the wallets are a map parameter of `Payments.GetWallet`.
- The clock (`System.currentTimeMillis`, `Instant.now`) is a parameter of the operations that read it.
- Logging, `@Synchronized` on `reIndex` and `update`, `toString` methods, `BlockchainController`, `Application`, `RocksDBConfig` and `KryoSerializer` are not modelled.
- RocksDB itself is not modelled: the store is three fields (blocks, tip, chainstate), and a storage failure (`RocksDBException`) is not modelled.
- The tip is a separate field rather than an entry of the blocks bucket under a reserved key.
- `TXInput.usesKey` is never called by the core and is not modelled.
- Chainstate and previous-transaction keys are the txId bytes rather than their hex strings; hex encoding is injective, so lookups agree.
- `String.getBytes` is modelled as UTF-8, the platform default it relies on.
- Transactions.Sign: ECDSA signing is a function here, so signing is deterministic. SHA256withECDSA as the source calls it draws a random k, so the exact signature bytes `Sign` promises hold only under that assumption. Likewise `Transactions.SignThenVerify` and `Payments.PaymentVerifies` assume `KeyMatches` of the one signature `ecSign` returns; with a random k it would have to hold for every signature drawn.
- Transactions.Sign: `sign` updates the transaction in place and `verify` reads the same objects; the model works on transaction values, so aliasing between a transaction and the copies in `prevTxMap` is not modelled.
- Chain.Blockchain.FindTransaction, Chain.Blockchain.GetAllSpentTXOs, Chain.Blockchain.FindAllUTXOs, Chain.Blockchain.CollectPrevTxs, Chain.Blockchain.SignTransaction, Chain.Blockchain.VerifyTransactions, Chain.Blockchain.MineBlock, UtxoIndex.UTXOSet.ReIndex and Payments.NewUTXOTransaction require `WalkEnds`, meaning the walk from the tip ends; on a store whose prevBlockHash links form a cycle the source loops forever, and the model does not describe that.
- UtxoIndex.UTXOSet.FindSpendableOutputs and UtxoIndex.UTXOSet.FindUTXOs take the map's iteration order as a parameter `order`; nothing is claimed about which order a `HashMap` actually uses.
- Payments.NewUTXOTransaction requires `ArrayBounded`: no chainstate entry holds more than 2^31 - 1 outputs, the bound every Java array obeys.
