/**
 What the account machine means to a user: legacy accounts, interrupted setups, and PINs that are lost.
 */
module PinOutcomes {
  import opened Wrappers
  import opened PinCodec
  import opened PinErrors
  import opened PinIndex
  import opened Text
  import opened Tpm
  import opened PinContracts
  import opened Accounts
  import opened PinManagement
  import opened PinRuns

  predicate Sensible(a: Account) {
    a.Holder? && Fits(a.secret) && a.failures <= a.limit && 1 <= a.limit < TWO_TO_THE_31
  }

  predicate Verifies(a: Account, uid: nat, pin: string, maxAttempts: u32, refusal: Kind) {
    var r := Verify(a, uid, pin, maxAttempts, refusal).0;
    r.Ok? && r.value.Success?
  }

  /**
   An unlocked account accepts exactly the PINs whose key is its secret; on a locked one nothing verifies and nothing
   changes.
   */
  lemma VerifyDecides(a: Account, uid: nat, pin: string, maxAttempts: u32, refusal: Kind)
    requires Sensible(a)
    ensures Verifies(a, uid, pin, maxAttempts, refusal) <==> !Locked(a) && Key(a.format, pin) == a.secret
    ensures Locked(a) ==> Verify(a, uid, pin, maxAttempts, refusal).1 == a
    ensures !Locked(a) && Key(a.format, pin) != a.secret && ByteLen(Key(a.format, pin)) <= MAX_AUTH_BUFFER ==>
              Verify(a, uid, pin, maxAttempts, refusal) ==
              (Ok(Invalid(a.failures + 1 == a.limit)), a.(failures := a.failures + 1))
  {
  }

  /** What a verification answers and leaves, for every account and every PIN. */
  lemma VerifyAnswers(a: Account, uid: nat, pin: string, maxAttempts: u32, refusal: Kind)
    ensures a == Empty ==> Verify(a, uid, pin, maxAttempts, refusal) == (Err(TpmError(Rc(Handle))), a)
    ensures a != Empty && ByteLen(Key(a.format, pin)) > 64 ==>
              Verify(a, uid, pin, maxAttempts, refusal) == (Err(TpmError(Wrapper)), a)
    ensures a.Broken? && ByteLen(Key(a.format, pin)) <= 64 ==>
              Verify(a, uid, pin, maxAttempts, refusal) == (Err(NotProvisioned(uid)), a)
    ensures a.Holder? && a.failures >= a.limit && ByteLen(Key(a.format, pin)) <= 64 ==>
              Verify(a, uid, pin, maxAttempts, refusal) ==
              (match refusal
               case AuthFail => Ok(Invalid(Seen(a.failures, a.limit).CounterSpent()))
               case BadAuth => Ok(Invalid(Seen(a.failures, a.limit).CounterSpent()))
               case OtherRc => Err(TpmError(Rc(OtherRc)))
               case _ => Err(NotProvisioned(uid)),
               a)
    ensures a.Holder? && a.failures < a.limit && ByteLen(Key(a.format, pin)) <= 64 && Key(a.format, pin) != a.secret ==>
              Verify(a, uid, pin, maxAttempts, refusal) ==
              (Ok(Invalid(Seen(a.failures + 1, a.limit).CounterSpent())), a.(failures := a.failures + 1))
    ensures a.Holder? && a.failures < a.limit && ByteLen(Key(a.format, pin)) <= 64 && Key(a.format, pin) == a.secret ==>
              Verify(a, uid, pin, maxAttempts, refusal) ==
              if a.limit >= 0x8000_0000 then (Ok(LockedOut), a.(failures := 0))
              else (Ok(Success(PinData(0, a.limit))),
                    if a.format.Exact? then a.(failures := 0)
                    else if NormalizeLegacyPin(pin) == pin then Holder(a.secret, Exact, 0, a.limit)
                    else if ByteLen(pin) <= 32 then Holder(pin, Exact, 0, maxAttempts)
                    else Empty)
  {
  }

  /** What a setup answers and leaves: only a free slot takes a PIN, and only one that the TPM can hold. */
  lemma SetupDecides(a: Account, uid: nat, pin: string, maxAttempts: u32)
    ensures a.Holder? ==> Setup(a, uid, pin, maxAttempts) == (Err(AlreadyProvisioned(uid)), a)
    ensures !a.Holder? && ByteLen(pin) > 64 ==> Setup(a, uid, pin, maxAttempts) == (Err(TpmError(Wrapper)), a)
    ensures (a.Broken? && ByteLen(pin) <= 64) || (a == Empty && 32 < ByteLen(pin) <= 64) ==>
              Setup(a, uid, pin, maxAttempts) == (Err(TpmError(Rc(OtherRc))), a)
    ensures a == Empty && ByteLen(pin) <= 32 ==>
              Setup(a, uid, pin, maxAttempts) == (Ok(()), Holder(pin, Exact, 0, maxAttempts))
  {
  }

  /** A PIN outlives its own verification: only a legacy PIN too long to be stored as typed does not. */
  predicate SurvivesVerification(a: Account, pin: string)
    requires a.Holder?
  {
    a.format.Exact? || NormalizeLegacyPin(pin) == pin || Fits(pin)
  }

  /**
   What a deletion with authorization answers and leaves, for every account and every PIN the TPM can be asked about:
   the right PIN deletes, a wrong one costs an attempt and is reported as such, a locked account is untouched.
   */
  lemma DeleteDecides(a: Account, uid: nat, pin: string, maxAttempts: u32, refusal: Kind)
    requires a.Holder? && ByteLen(Key(a.format, pin)) <= 64
    ensures a.failures < a.limit && Key(a.format, pin) != a.secret ==>
              DeleteWithAuth(a, uid, pin, maxAttempts, refusal) ==
              (Ok(DeleteInvalid(Seen(a.failures + 1, a.limit).CounterSpent())), a.(failures := a.failures + 1))
    ensures a.failures < a.limit < 0x8000_0000 && Key(a.format, pin) == a.secret ==>
              DeleteWithAuth(a, uid, pin, maxAttempts, refusal) ==
              (if SurvivesVerification(a, pin) then Ok(Deleted) else Err(NotProvisioned(uid)), Empty)
    ensures a.failures < a.limit && a.limit >= 0x8000_0000 && Key(a.format, pin) == a.secret ==>
              DeleteWithAuth(a, uid, pin, maxAttempts, refusal) == (Ok(DeleteLockedOut), a.(failures := 0))
    ensures a.failures >= a.limit ==>
              DeleteWithAuth(a, uid, pin, maxAttempts, refusal) ==
              (match refusal
               case AuthFail => Ok(DeleteInvalid(Seen(a.failures, a.limit).CounterSpent()))
               case BadAuth => Ok(DeleteInvalid(Seen(a.failures, a.limit).CounterSpent()))
               case OtherRc => Err(TpmError(Rc(OtherRc)))
               case _ => Err(NotProvisioned(uid)),
               a)
  {
  }

  /** Without a slot that can be compared with, a deletion reports what its verification ran into. */
  lemma NothingToDelete(a: Account, uid: nat, pin: string, maxAttempts: u32, refusal: Kind)
    ensures a == Empty ==> DeleteWithAuth(a, uid, pin, maxAttempts, refusal) == (Err(TpmError(Rc(Handle))), a)
    ensures a != Empty && ByteLen(Key(a.format, pin)) > 64 ==>
              DeleteWithAuth(a, uid, pin, maxAttempts, refusal) == (Err(TpmError(Wrapper)), a)
    ensures a.Broken? && ByteLen(Key(a.format, pin)) <= 64 ==>
              DeleteWithAuth(a, uid, pin, maxAttempts, refusal) == (Err(NotProvisioned(uid)), a)
  {
    VerifyAnswers(a, uid, pin, maxAttempts, refusal);
  }

  /** On a sensible account: `locked` is told exactly when the last attempt is gone, and never `DeleteLockedOut`. */
  lemma SensibleDeletion(a: Account, uid: nat, pin: string, maxAttempts: u32, refusal: Kind)
    requires Sensible(a) && ByteLen(Key(a.format, pin)) <= 64
    ensures var (r, a') := DeleteWithAuth(a, uid, pin, maxAttempts, refusal);
            && (r == Ok(Deleted) <==> !Locked(a) && Key(a.format, pin) == a.secret && SurvivesVerification(a, pin))
            && (r == Ok(Deleted) ==> a' == Empty)
            && (!Locked(a) && Key(a.format, pin) != a.secret ==>
                  r == Ok(DeleteInvalid(a.failures + 1 == a.limit)) && a' == a.(failures := a.failures + 1))
            && (Locked(a) ==> a' == a && ((refusal.AuthFail? || refusal.BadAuth?) ==> r == Ok(DeleteInvalid(true))))
            && r != Ok(DeleteLockedOut)
  {
    DeleteDecides(a, uid, pin, maxAttempts, refusal);
    LockTestsAgree(a.failures, a.limit);
    if !Locked(a) {
      LockTestsAgree(a.failures + 1, a.limit);
    }
  }

  /** `DeleteLockedOut` means what `LockedOut` means: a matching PIN on a slot whose limit reads as negative. */
  lemma DeleteLockedOutMeansHugeLimit(a: Account, uid: nat, pin: string, maxAttempts: u32, refusal: Kind)
    requires a.Holder? && Fits(a.secret) && a.failures <= a.limit
    ensures DeleteWithAuth(a, uid, pin, maxAttempts, refusal).0 == Ok(DeleteLockedOut) <==>
              a.limit >= 0x8000_0000 && !Locked(a) && Key(a.format, pin) == a.secret
  {
    if ByteLen(Key(a.format, pin)) <= 64 {
      DeleteDecides(a, uid, pin, maxAttempts, refusal);
    } else {
      VerifyAnswers(a, uid, pin, maxAttempts, refusal);
    }
  }

  /**
   Migration keeps its meaning: a PIN that verifies on an unlocked legacy account is afterwards the one PIN that
   verifies, exactly as typed, with no failures recorded; the limit changes only if the PIN was not in normal form. The
   exception is a PIN too long for the TPM, spelled with leading zeros: it verifies, and the account is gone.
   */
  lemma MigrationKeepsMeaning(a: Account, uid: nat, pin: string, maxAttempts: u32, refusal: Kind, other: string)
    requires Sensible(a) && a.format.Legacy? && !Locked(a)
    requires Verifies(a, uid, pin, maxAttempts, refusal)
    requires 1 <= maxAttempts < TWO_TO_THE_31
    ensures var a' := Verify(a, uid, pin, maxAttempts, refusal).1;
            if NormalizeLegacyPin(pin) == pin || Fits(pin) then
              && Sensible(a') && a'.format.Exact? && a'.secret == pin && a'.failures == 0
              && a'.limit == (if NormalizeLegacyPin(pin) == pin then a.limit else maxAttempts)
              && (Verifies(a', uid, other, maxAttempts, refusal) <==> other == pin)
            else a' == Empty
  {
    VerifyDecides(a, uid, pin, maxAttempts, refusal);
    if NormalizeLegacyPin(pin) == pin || Fits(pin) {
      VerifyDecides(Verify(a, uid, pin, maxAttempts, refusal).1, uid, other, maxAttempts, refusal);
    }
  }

  // ---- Verifications under faults ----

  /** The account takes this PIN for the right one. */
  predicate Opens(a: Account, pin: string) {
    a.Holder? && Key(a.format, pin) == a.secret
  }

  /** A tagged account that passes for a legacy one, guessed with its secret behind leading zeros. */
  predicate CanWiden(a: Account, pin: string, hidden: bool) {
    && hidden && a.Holder? && a.format.Exact? && !Locked(a)
    && a.limit < TWO_TO_THE_31
    && a.secret == NormalizeLegacyPin(pin) && NormalizeLegacyPin(pin) != pin && Fits(pin)
  }

  /**
   Where a verification that fails or stops anywhere leaves an account. A PIN that does not match costs at most
   one more failure, a locked account is untouched, and a PIN that matches leaves an account it opens, one with the
   secret it had, one that nothing opens, or none.
   */
  lemma InterruptedVerifyLeaves(a: Account, a': Account, pin: string, maxAttempts: u32, hidden: bool)
    requires a.Holder? && Fits(a.secret) && VerifyStage(a, a', pin, maxAttempts, hidden)
    ensures !Matches(a, FormatSeen(a, hidden), pin) ==> a' == a || a' == a.(failures := a.failures + 1)
    ensures Locked(a) ==> a' == a
    ensures Matches(a, FormatSeen(a, hidden), pin) ==>
              || Opens(a', pin) || (a'.Holder? && a'.secret == a.secret && a'.format == a.format)
              || Stranded(a') || a'.Broken? || a' == Empty
  {
    NormalFormIsCanonical(pin);
  }

  /** What a fault can widen access to: the PIN that was typed, and only where `CanWiden` says so. */
  lemma InterruptedVerifyOpens(a: Account, a': Account, pin: string, maxAttempts: u32, hidden: bool, other: string)
    requires VerifyStage(a, a', pin, maxAttempts, hidden)
    ensures Opens(a', other) ==> Opens(a, other) || (CanWiden(a, pin, hidden) && other == pin)
  {
    NormalFormIsCanonical(other);
    NormalFormIsCanonical(pin);
  }

  /**
   Faults widen access exactly where an unlocked, tagged account whose tag read is hidden and whose limit is below
   2^31 is given its secret with superfluous leading zeros, as far as the TPM can hold it. Everywhere else no PIN is
   right after a verification that was not right before, whatever fails.
   */
  lemma FaultsWidenAccessExactly(a: Account, pin: string, maxAttempts: u32, hidden: bool)
    ensures (exists a', other :: VerifyStage(a, a', pin, maxAttempts, hidden) && Opens(a', other) && !Opens(a, other))
            <==> CanWiden(a, pin, hidden)
  {
    forall a', other | VerifyStage(a, a', pin, maxAttempts, hidden) && Opens(a', other) && !Opens(a, other)
      ensures CanWiden(a, pin, hidden)
    {
      InterruptedVerifyOpens(a, a', pin, maxAttempts, hidden, other);
    }
    if CanWiden(a, pin, hidden) {
      var a' := Holder(pin, Exact, 0, maxAttempts);
      assert VerifyStage(a, a', pin, maxAttempts, hidden) && Opens(a', pin) && !Opens(a, pin);
    }
  }

  /** It does happen: then the wrong PIN is accepted, and becomes the only right one. */
  lemma MisreadVerifyWidens(a: Account, uid: nat, pin: string, maxAttempts: u32, refusal: Kind)
    requires CanWiden(a, pin, true)
    ensures !Opens(a, pin)
    ensures VerifyAsLegacy(a, uid, pin, maxAttempts, refusal) ==
            (Ok(Success(Seen(0, a.limit))), Holder(pin, Exact, 0, maxAttempts))
  {
    NormalFormIsNotLonger(pin);
  }

  const SOMEBODY := 1000
  const TAGGED_STORE: Store := map[SlotOf(SOMEBODY) := FreshSlot("123", 3), TagOf(SOMEBODY) := TAGGED]

  lemma TaggedStoreHolds()
    ensures Shaped(TAGGED_STORE, SOMEBODY) && View(TAGGED_STORE, SOMEBODY) == Holder("123", Exact, 0, 3)
    ensures NormalizeLegacyPin("0123") == "123" && ByteLen("0123") == 4 && ByteLen("123") == 3
  {
    assert "0123"[1..] == "123" && "123"[1..] == "23" && "23"[1..] == "3" && "3"[1..] == "";
  }

  /** One such run: the slot holds 123, the first answer of the TPM is lost to a fault, and 0123 is accepted. */
  method MisreadTagAcceptsAnotherPin() returns (r: Result<VerificationResult, PinError>, device: Device)
    ensures View(TAGGED_STORE, SOMEBODY) == Holder("123", Exact, 0, 3)
    ensures r == Ok(Success(Seen(0, 3)))
    ensures Shaped(device.nv, SOMEBODY) && View(device.nv, SOMEBODY) == Holder("0123", Exact, 0, 3)
  {
    TaggedStoreHolds();
    var turns := (n: nat) => Turn([], BadAuth, if n == 0 then Dropped(Handle) else Works);
    device := new Device(turns, TAGGED_STORE, []);
    assert Misread(turns, 0);
    var m := new PinManager(device, 3);
    MisreadVerifyWidens(Holder("123", Exact, 0, 3), SOMEBODY, "0123", 3, BadAuth);
    r := m.VerifyPin(SOMEBODY, "0123");
    assert EndsAs(TAGGED_STORE, device.nv, SOMEBODY, "0123", 3, Legacy, BadAuth, r);
  }

  function Zeros(n: nat): string {
    if n == 0 then "" else ['0'] + Zeros(n - 1)
  }

  lemma {:induction false} ZerosThenOne(n: nat)
    ensures ByteLen(Zeros(n) + "1") == n + 1 && NormalizeLegacyPin(Zeros(n) + "1") == "1"
  {
    if n == 0 {
      assert Zeros(0) + "1" == "1" && "1"[1..] == "";
    } else {
      ZerosThenOne(n - 1);
      assert (Zeros(n) + "1")[1..] == Zeros(n - 1) + "1";
    }
  }

  /** A successful verification can lose the PIN: 33 bytes of zeros and a one, on a legacy account that holds "1". */
  lemma MigrationCanLoseThePin(uid: nat, refusal: Kind)
    ensures exists a: Account, pin: string, maxAttempts: u32 ::
              Sensible(a) && Verifies(a, uid, pin, maxAttempts, refusal)
                  && Verify(a, uid, pin, maxAttempts, refusal).1 == Empty
  {
    ZerosThenOne(0);
    ZerosThenOne(32);
    assert Zeros(0) + "1" == "1";
    var a, pin := Holder("1", Legacy, 0, 3), Zeros(32) + "1";
    assert Sensible(a) && Verifies(a, uid, pin, 3, refusal) && Verify(a, uid, pin, 3, refusal).1 == Empty;
  }

  // ---- Interrupted setups ----

  /** The accounts a setup can leave where there was none, wherever it is stopped and whatever fails. */
  lemma InterruptedSetup(nv: Store, nv': Store, uid: nat, pin: string, maxAttempts: u32, r: Result<(), PinError>)
    requires Shaped(nv, uid) && SlotOf(uid) !in nv && SetUp(nv, nv', uid, pin, maxAttempts, r)
    ensures Shaped(nv', uid)
    ensures var a := View(nv', uid);
            || a == Empty
            || (a == Broken(pin, Legacy) && !Tagged(nv, uid))
            || (a == Broken(pin, Exact) && Tagged(nv, uid))
            || a == Holder(pin, Legacy, 0, maxAttempts)
            || a == Holder(pin, Exact, 0, maxAttempts)
    ensures r.Ok? ==> View(nv', uid) == Holder(pin, Exact, 0, maxAttempts)
    ensures r == Err(TpmError(TagNotWritten)) ==> View(nv', uid) == Empty
  {
    assert SetupOutcome(nv, nv', uid, pin, maxAttempts, r);
  }

  /** A legacy account whose secret is not in normal form: no key equals it. */
  predicate Stranded(a: Account) {
    a.Holder? && a.format.Legacy? && Fits(a.secret) && NormalizeLegacyPin(a.secret) != a.secret
  }

  /**
   A setup stopped between the slot and the tag is healed by the next verification of the same PIN exactly when
   that PIN is its own normal form; healing tags the slot and changes nothing else.
   */
  lemma InterruptedSetupHeals(uid: nat, pin: string, maxAttempts: u32, refusal: Kind)
    requires Fits(pin) && 1 <= maxAttempts < TWO_TO_THE_31
    ensures var a := Holder(pin, Legacy, 0, maxAttempts);
            && (Verifies(a, uid, pin, maxAttempts, refusal) <==> NormalizeLegacyPin(pin) == pin)
            && (NormalizeLegacyPin(pin) == pin ==>
                  Verify(a, uid, pin, maxAttempts, refusal).1 == Holder(pin, Exact, 0, maxAttempts))
            && (NormalizeLegacyPin(pin) != pin ==> Stranded(a))
  {
    VerifyDecides(Holder(pin, Legacy, 0, maxAttempts), uid, pin, maxAttempts, refusal);
  }

  /** A setup's commands: three up to the definition, six up to the write, and the tag's, two more if it is missing. */
  function SetupLength(tag: TagState): nat {
    if tag.NoTag? then 11 else 9
  }

  /** The account a setup leaves when it is stopped after this many commands. */
  function StoppedAccount(a: Account, tag: TagState, pin: string, maxAttempts: u32, left: nat): Account {
    var leftover := if tag.FullTag? then Exact else Legacy;
    if a != Empty || !Fits(pin) || left < 3 then a
    else if left < 6 then Broken(pin, leftover)
    else Holder(pin, if left < SetupLength(tag) then leftover else Exact, 0, maxAttempts)
  }

  /** The stores that stopped setups leave, read as accounts. */
  lemma StoppedSetupLeaves(nv: Store, uid: nat, pin: string, maxAttempts: u32, left: nat)
    requires Shaped(nv, uid)
    ensures var nv' := StoppedSetup(nv, uid, pin, maxAttempts, left);
            && Shaped(nv', uid) && SameElsewhere(uid, nv, nv')
            && View(nv', uid) == StoppedAccount(View(nv, uid), TagIn(nv, uid), pin, maxAttempts, left)
  {
    if SlotOf(uid) !in nv {
      SetupStores(nv, uid, pin, maxAttempts);
    }
  }

  /**
   What a stop costs the user, by when it comes: the slot is half defined exactly between the definition and the write,
   and no PIN opens it exactly between the write and the end, if no tag was left over and the PIN has superfluous zeros.
   */
  lemma StoppedSetupStrands(tag: TagState, pin: string, maxAttempts: u32, left: nat)
    requires Fits(pin)
    ensures var a := StoppedAccount(Empty, tag, pin, maxAttempts, left);
            && (a == Empty <==> left < 3)
            && (a.Broken? <==> 3 <= left < 6)
            && (Stranded(a) <==>
                  6 <= left < SetupLength(tag) && !tag.FullTag? && NormalizeLegacyPin(pin) != pin)
            && (a == Holder(pin, Exact, 0, maxAttempts) <==>
                  left >= SetupLength(tag) || (left >= 6 && tag.FullTag?))
  {
  }

  /** Such a run: stopped between the slot and the tag, a setup of 0123 leaves a slot that nothing opens. */
  method StoppedBetweenSlotAndTag() returns (device: Device)
    ensures Shaped(device.nv, SOMEBODY) && View(device.nv, SOMEBODY) == Holder("0123", Legacy, 0, 3)
    ensures Stranded(View(device.nv, SOMEBODY))
  {
    TaggedStoreHolds();
    var turns := (n: nat) => Turn([], OtherRc, if n < 7 then Works else Dropped(OtherRc));
    device := new Device(turns, map[], []);
    assert StopsAfter(turns, 0, 7);
    StoppedSetupLeaves(map[], SOMEBODY, "0123", 3, 7);
    var m := new PinManager(device, 3);
    var _ := m.SetupPin(SOMEBODY, "0123");
  }

  /** Nothing that is typed opens a stranded account; it costs at most one attempt. */
  lemma StrandedGuess(a: Account, uid: nat, pin: string, maxAttempts: u32, refusal: Kind)
    requires Stranded(a)
    ensures var (r, a') := Verify(a, uid, pin, maxAttempts, refusal);
            (a' == a || a' == a.(failures := a.failures + 1)) && !(r.Ok? && r.value.Success?)
  {
    NormalFormIsCanonical(pin);
    assert NormalizeLegacyPin(pin) != a.secret;
  }

  lemma StrandedStep(a: Account, op: Operation, maxAttempts: u32, refusal: Kind)
    requires Stranded(a) && !op.DeleteOp?
    ensures Stranded(Simple(a, op, maxAttempts, refusal).1)
    ensures !Authenticates(Simple(a, op, maxAttempts, refusal).0)
  {
    if op.VerifyOp? || op.DeleteWithAuthOp? {
      StrandedGuess(a, op.uid, op.pin, maxAttempts, refusal);
    }
  }

  /** A stranded account accepts no string and takes no new PIN until an administrator deletes it. */
  lemma {:induction false} StrandedUntilDeleted(a: Account, uid: nat, ops: seq<Operation>, n: nat, maxAttempts: u32,
                                                refusal: Kind)
    requires Stranded(a) && n <= |ops|
    requires forall k | 0 <= k < n && ops[k].uid == uid :: !ops[k].DeleteOp?
    ensures Stranded(AccountAfter(a, uid, ops, n, maxAttempts, refusal))
    ensures forall k | 0 <= k < n && ops[k].uid == uid ::
              !Authenticates(Simple(AccountAfter(a, uid, ops, k, maxAttempts, refusal), ops[k], maxAttempts, refusal).0)
  {
    if n > 0 {
      StrandedUntilDeleted(a, uid, ops, n - 1, maxAttempts, refusal);
      if ops[n - 1].uid == uid {
        StrandedStep(AccountAfter(a, uid, ops, n - 1, maxAttempts, refusal), ops[n - 1], maxAttempts, refusal);
      }
    }
  }

  /**
   `LockedOut` is never the answer to a spent counter: it means a matching PIN on a slot whose limit reads as negative.
   */
  lemma LockedOutMeansHugeLimit(a: Account, uid: nat, pin: string, maxAttempts: u32, refusal: Kind)
    requires a.Holder? && Fits(a.secret) && a.failures <= a.limit
    ensures Verify(a, uid, pin, maxAttempts, refusal).0 == Ok(LockedOut) <==>
              a.limit >= TWO_TO_THE_31 && !Locked(a) && Key(a.format, pin) == a.secret
  {
  }
}
