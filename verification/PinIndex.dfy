/** Where a user's two NV indexes live (pinindex.rs, pinconstants.rs). */
module PinIndex {
  import opened Wrappers
  import opened PinErrors

  const PIN_NV_INDEX_BASE := 0x0100_0000
  const PIN_VERSION_UID_MAX := 0x007F_FFFF
  const PIN_VERSION_NV_INDEX_OFFSET := PIN_VERSION_UID_MAX + 1
  const NV_INDEX_FIRST := 0x0100_0000
  const NV_INDEX_LAST := 0x01FF_FFFF
  const U32_MAX := 0xFFFF_FFFF

  function CheckedAdd(a: nat, b: nat): Option<nat> {
    if a + b <= U32_MAX then Some(a + b) else None
  }

  /** `NvIndexTpmHandle::new`: only the 0x01 handle range is accepted. */
  function NewHandle(value: nat): Result<nat, PinError> {
    if NV_INDEX_FIRST <= value <= NV_INDEX_LAST then Ok(value) else Err(TpmError(Wrapper))
  }

  function NvIndexForUid(uid: nat): Result<nat, PinError> {
    if uid > PIN_VERSION_UID_MAX then Err(UidOverflow(uid))
    else match CheckedAdd(PIN_NV_INDEX_BASE, uid)
      case None => Err(UidOverflow(uid))
      case Some(value) => NewHandle(value)
  }

  function VersionNvIndexForUid(uid: nat): Result<nat, PinError> {
    if uid > PIN_VERSION_UID_MAX then Err(UidOverflow(uid))
    else match CheckedAdd(PIN_NV_INDEX_BASE, PIN_VERSION_NV_INDEX_OFFSET)
      case None => Err(UidOverflow(uid))
      case Some(base) =>
        match CheckedAdd(base, uid)
        case None => Err(UidOverflow(uid))
        case Some(value) => NewHandle(value)
  }

  function SlotOf(uid: nat): nat {
    PIN_NV_INDEX_BASE + uid
  }

  function TagOf(uid: nat): nat {
    PIN_NV_INDEX_BASE + PIN_VERSION_NV_INDEX_OFFSET + uid
  }

  /**
   Both functions succeed on exactly the same uids, never overflow 32 bits, stay in the NV handle range, and no
   two of the four indexes of two users coincide.
   */
  lemma UsersHaveTheirOwnIndexes(a: nat, b: nat)
    ensures NvIndexForUid(a) == if a <= 0x7F_FFFF then Ok(0x0100_0000 + a) else Err(UidOverflow(a))
    ensures VersionNvIndexForUid(a) == if a <= 0x7F_FFFF then Ok(0x0180_0000 + a) else Err(UidOverflow(a))
    ensures a <= PIN_VERSION_UID_MAX && b <= PIN_VERSION_UID_MAX ==>
              var slotA, tagA := NvIndexForUid(a).value, VersionNvIndexForUid(a).value;
              var slotB, tagB := NvIndexForUid(b).value, VersionNvIndexForUid(b).value;
              && slotA == SlotOf(a) && tagA == TagOf(a)
              && NV_INDEX_FIRST <= slotA < tagA <= NV_INDEX_LAST <= U32_MAX
              && slotA != tagB
              && (slotA == slotB ==> a == b)
              && (tagA == tagB ==> a == b)
  {
  }
}
