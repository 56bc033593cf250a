/** Every rejection the parser, the deriver, the verifier and the signer can report. */
module Errors {
  import opened Machine

  datatype ParseError =
    | MissingChecksum
    | MalformedChecksum
    | InvalidChecksum
    | InvalidCharset
    | WrongTopLevel
    | ExpectedSortedMulti
    | WrongThreshold(token: string)
    | WrongKeyCount(count: nat)
    | MalformedFingerprint
    | MalformedOriginPath(path: string)
    | InvalidOriginPath(path: string)
    | MultipathForbidden
    | MalformedXpub
    | PrivateKeyForbidden
    | MalformedDerivation
    | MalformedKeyExpression
    | TrailingGarbage
    | UnexpectedEof

  datatype DeriveError =
    | HardenedIndex(index: u32)
    | InvalidPublicKey
    | InvalidTweak
    | UndecodableXpub
    | InvalidMultisigParams(k: nat, n: nat)
    | InvalidCompressedPubkey(position: nat)

  datatype VerifyError =
    | Descriptor(parseError: ParseError)
    | Derive(deriveError: DeriveError)
    | ForeignInput(inputIndex: nat)
    | ForeignChangeOutput(outputIndex: nat)
    | MismatchedDerivation(outputIndex: nat)
    | FeeNonPositive
    | FeeTooHigh(feeSats: u64, maxSats: u64)
    | FeerateTooHigh(feerateSatVb: u64, maxSatVb: u64)
    | FeeMismatch(actualSats: u64, expectedSats: u64)
    | AmountMismatch(actualSats: u64, expectedSats: u64)
    | UnknownInput(inputIndex: nat)
    | MismatchedUtxo(inputIndex: nat)
    | InconsistentPsbt
    | TooManyInputsOutputs
    | ProprietaryField
    | MissingWitnessUtxo(inputIndex: nat)
    | NonWitnessUtxoOnly(inputIndex: nat)
    | BadSignature(inputIndex: nat)
    | NonSighashAll(inputIndex: nat)
    | InvalidOutputAddress(outputIndex: nat)
    // Not an error value of the program: an `expect` that does not hold ends it.
    | VerifierPanics

  datatype CoreStateError =
    | Truncated
    | BadMagic
    | UnsupportedVersion(version: u8)
    | UnsupportedReserved
    | CsRng
    | AeadFailure
    | Plaintext

  datatype SignError =
    | Verify(verifyError: VerifyError)
    | SelfVerificationFailed
    | SighashNotAll(inputIndex: nat)
    | Platform
    | UnsignedTxChanged
    | UnexpectedKeyASignature
    | Blob
    | Entropy
    | Bip32
    | InvalidKekLength
    | InvalidSlot
    | FingerprintMismatch
    | NoWitnessUtxo(inputIndex: nat)
    | NoWitnessScript(inputIndex: nat)
    | MissingDerivation(inputIndex: nat)
    | PubkeyMismatch(inputIndex: nat)
    | Sighash(inputIndex: nat)
    | EmptyPsbt
    | TooManyInputs
    | UnbalancedPsbt
    | SpendLimitExceeded
    | WindowLedgerFull
    | FloorAboveCap
    | PolicyOutOfRange
    | InvalidSpendPolicy
    | ConsensusRejected
    | FinalFeerateTooHigh(feerateSatVb: u64, maxSatVb: u64)
    | IncompleteWitness(inputIndex: nat)
    | WitnessScriptMismatch(inputIndex: nat)
    | InvalidDerivationPath(inputIndex: nat)
    | CoreState(coreStateError: CoreStateError)
    | SignerPanics
}
