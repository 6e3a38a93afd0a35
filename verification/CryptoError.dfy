/** Errors of the cryptographic operations (src/crypto.rs). */
module CryptoError {
  datatype Error =
    | InvalidKeyLength(expected: nat, actual: nat)
    | InvalidConfounderLength(expected: nat, actual: nat)
    | CiphertextTooShort(minimum: nat, actual: nat)
    | IntegrityCheckFailed
    | InvalidSeedLength(expected: nat, actual: nat)
    | EmptyNfoldInput
    | EmptyUsage
    | InvalidNfoldOutputBits(bits: nat)
    | EmptyPlaintext
    | InvalidCiphertextBlockSize(blockSize: nat, actual: nat)
}
