/**
 * Results and the exceptions of the modelled code.  Each distinct reason for
 * which the Python, Ruby or C code raises (or returns an error code) is one
 * constructor of `Error`; the README maps them to the source lines.
 */
module Outcomes {

  datatype Error =
    // GF(256) and polynomial engine
    | ZeroDivision            // _gf256_div with a zero divisor
    | ZeroEvaluationPoint     // _f asked to evaluate at x == 0
    | ByteRange               // a value outside 0..255 packed into a byte string
    // ShamirSecret
    | InvalidShareIndex       // compute_share with x outside 1..255
    | NotInitialized          // no coefficients are known yet
    | ShareLengthMismatch     // is_valid_share: share length differs from the secret's
    | TooFewShares            // fewer unique shares than the threshold
    | SecretAlreadyKnown      // recover_secretdata on an object that holds a secret
    | DuplicateShareIndex     // two different shares with the same x
    | UnequalShareLengths     // shares of different lengths
    | InconsistentShares      // the interpolant has degree >= threshold
    | NoShares                // recover_secretdata with no share reads shares[0]
    // password stores
    | UsernameExists
    | InvalidShareCount       // shares outside 0..255
    | ShareSpaceExhausted     // not enough share numbers left below 256
    | BootstrapNeedsNoShares  // a locked store may only create 0-share accounts
    | StoreLocked             // Ruby: create_account before unlock
    | PartialBytesDisabled    // login on a locked store without isolated validation
    | UnknownUser
    | AlreadyUnlocked
    | WrongRecombination      // the recovered secret fails the fingerprint check
    | TooFewShareNumbers      // write_password_data before threshold shares exist
    | XorLengthMismatch       // Python _do_bytearray_XOR on unequal lengths
    | XorOperandTooShort      // Ruby _do_bytearray_XOR indexing past the second operand
    | MissingSuffix           // Ruby: the hash suffix slice is nil and cannot be appended
    // XOR datastore
    | NonPositiveSize         // block size or block count not positive
    | BlockSizeNotMultiple    // block size not a multiple of 64
    | UnusedDescriptor        // the descriptor names an empty table slot
    | OutOfRange              // an offset or length outside the store
    | NegativeOffset
    | NonPositiveQuantity
    | BitstringLength         // bitstring length is not ceil(numberofblocks / 8)
    | ArgumentCount           // a C entry point called with the wrong arity

  datatype Result<T> = Ok(value: T) | Err(error: Error)

  datatype Option<T> = None | Some(value: T)
}
