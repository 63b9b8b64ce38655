/** Failure-compatible results shared by every module: Java's `null` returns become
    `Option`, and the exceptions the source throws become `Result.Failure` carrying the
    kind of exception. */
module Outcomes {

  datatype Option<+T> = None | Some(value: T)

  /** The exception kinds the modelled code can raise. */
  datatype Error =
    | InvalidCharacter       // Base58Check: "Invalid character for Base58Check"
    | ChecksumMismatch       // Base58Check: "Checksum mismatch"
    | NegativeArraySize      // Arrays.copyOf with a negative length
    | IllegalRange           // Arrays.copyOfRange with from > to
    | IndexOutOfBounds       // an array index or copy start past the end
    | NullPointer            // a null signature or public key dereferenced
    | PrevTxNotFound         // "Previous transaction is not correct"
    | TxNotFound             // "Can not found tx by txId"
    | BlockNotFound          // "Fail to get block"
    | InvalidTransaction     // "Fail to mine block ! Invalid transaction"
    | VerifyFailed           // "Fail to verify transaction ! transaction invalid !"
    | InvalidPoint           // createPoint: a coordinate outside the field of secp256k1
    | SignatureFailure       // Signature.verify on bytes that do not decode as a signature
    | NotEnoughFunds         // "Not enough funds"
    | NullBlock              // "Fail to update UTXO set"
    | WalletNotFound         // "Fail to get wallet"

  datatype Result<+T> = Success(value: T) | Failure(error: Error)
}
