/** Results and errors of the manager and of the helper (pinerror.rs). */
module PinErrors {
  import opened PinCodec

  /** The kinds of TPM response code the sources tell apart. */
  datatype Kind = Handle | NvUninitialized | AuthFail | BadAuth | OtherRc

  /** What the text inside `PinError::TpmError` would say. */
  datatype TpmFault =
    | Rc(kind: Kind)
    | Wrapper                       // refused by the client library, no command sent
    | UnsupportedVersion(tag: u8)
    | TagPayloadSize(size: nat)
    | TagNotWritten                 // version tag failed, PIN setup rolled back
    | TagNotWrittenSlotLeft         // version tag failed and so did the rollback

  datatype DeleteResult = Deleted | DeleteInvalid(locked: bool) | DeleteLockedOut

  datatype PinError =
    | UserNotFound
    | PermissionDenied
    | PinAlreadySet
    | NoPinSet
    | PinsDontMatch
    | PinIsLocked
    | IncorrectPin(locked: bool)
    | PinIsEmpty
    | PinTooShort(length: nat, limit: nat)
    | PinTooLong(length: nat, limit: nat)
    | CannotDeletePin(result: DeleteResult)
    | AlreadyProvisioned(uid: nat)
    | UidOverflow(uid: nat)
    | NotProvisioned(uid: nat)
    | TpmError(fault: TpmFault)
    | IoError

  /** The errors the manager itself reports. */
  predicate IsManagerError(e: PinError) {
    e.TpmError? || e.NotProvisioned? || e.AlreadyProvisioned? || e.UidOverflow?
  }

  datatype VerificationResult =
    | Success(slot: PinData)
    | Invalid(locked: bool)
    | LockedOut
}
