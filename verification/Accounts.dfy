/**
 The simple machine behind the two NV indexes: one account per user, one atomic step per operation.
 `View` reads the account off a TPM store; the manager's methods are proved to simulate this machine whenever the
 schedule leaves them undisturbed.
 */
module Accounts {
  import opened Wrappers
  import opened PinCodec
  import opened PinErrors
  import opened PinIndex
  import opened Text
  import opened Tpm
  import opened PinContracts

  /** Before v0.0.4 the secret was stored without leading zeros. */
  datatype Format = Legacy | Exact

  datatype Account =
    | Empty
    | Broken(secret: string, format: Format)    // defined, but the counters were never written
    | Holder(secret: string, format: Format, failures: u32, limit: u32)

  // ---- The representation ----

  function HalfDefined(pin: string): Entry {
    PinFail(pin, false, false, 0, 0)
  }

  function FreshSlot(pin: string, limit: u32): Entry {
    PinFail(pin, false, true, 0, limit)
  }

  const TAGGED := Ordinary(true, [PIN_VERSION_CURRENT])
  const UNTAGGED := Ordinary(false, Blank(PIN_VERSION_TAG_SIZE))

  predicate SlotShaped(nv: Store, uid: nat) {
    SlotOf(uid) in nv ==>
      var e := nv[SlotOf(uid)];
      e.PinFail? && !e.ownerWrite && ByteLen(e.auth) <= MAX_AUTH_LEN &&
      if e.written then e.count <= e.limit else e == HalfDefined(e.auth)
  }

  predicate TagShaped(nv: Store, uid: nat) {
    TagOf(uid) in nv ==> nv[TagOf(uid)] == TAGGED || nv[TagOf(uid)] == UNTAGGED
  }

  /** The stores pinpam itself can produce, whatever fails and whoever runs at the same time. */
  predicate Shaped(nv: Store, uid: nat) {
    SlotShaped(nv, uid) && TagShaped(nv, uid)
  }

  /** What the two commands that write a tag do to a shaped store. */
  lemma TagWrites(nv: Store, uid: nat)
    requires TagShaped(nv, uid)
    ensures After(nv, WriteOwner(TagOf(uid), Raw([PIN_VERSION_CURRENT]))) ==
            if TagOf(uid) in nv then nv[TagOf(uid) := TAGGED] else nv
    ensures TagOf(uid) in nv ==> WritesData(nv, WriteOwner(TagOf(uid), Raw([PIN_VERSION_CURRENT])))
    ensures TagOf(uid) !in nv ==> nv[TagOf(uid) := UNTAGGED][TagOf(uid) := TAGGED] == nv[TagOf(uid) := TAGGED]
  {
    if TagOf(uid) in nv {
      assert [PIN_VERSION_CURRENT] + nv[TagOf(uid)].data[1..] == [PIN_VERSION_CURRENT];
    }
  }

  predicate Tagged(nv: Store, uid: nat) {
    TagOf(uid) in nv && nv[TagOf(uid)].written
  }

  function View(nv: Store, uid: nat): Account
    requires SlotShaped(nv, uid)
  {
    if SlotOf(uid) !in nv then Empty else
    var e, format := nv[SlotOf(uid)], if Tagged(nv, uid) then Exact else Legacy;
    if e.written then Holder(e.auth, format, e.count, e.limit) else Broken(e.auth, format)
  }

  // ---- The machine ----

  /** A PIN the TPM can hold as an authorization value. */
  predicate Fits(pin: string) {
    ByteLen(pin) <= MAX_AUTH_LEN
  }

  /** What is compared with the secret when a user types this PIN. */
  function Key(format: Format, pin: string): string {
    if format.Exact? then pin else NormalizeLegacyPin(pin)
  }

  predicate Locked(a: Account) {
    a.Holder? && a.failures >= a.limit
  }

  function Setup(a: Account, uid: nat, pin: string, maxAttempts: u32): (Result<(), PinError>, Account) {
    if a.Holder? then (Err(AlreadyProvisioned(uid)), a)
    else if ByteLen(pin) > MAX_AUTH_BUFFER then (Err(TpmError(Wrapper)), a)
    else if a.Broken? || !Fits(pin) then (Err(TpmError(Rc(OtherRc))), a)
    else (Ok(()), Holder(pin, Exact, 0, maxAttempts))
  }

  function DeleteAdmin(a: Account, uid: nat): (Result<(), PinError>, Account) {
    if a.Empty? then (Err(NotProvisioned(uid)), a) else (Ok(()), Empty)
  }

  /** A refused guess on a locked account is reported as the TPM's refusal code dictates. */
  function Refused(a: Account, uid: nat, refusal: Kind): Result<VerificationResult, PinError>
    requires a.Holder?
  {
    if refusal.AuthFail? || refusal.BadAuth? then Ok(Invalid(Seen(a.failures, a.limit).CounterSpent()))
    else if IsMissing(refusal) then Err(NotProvisioned(uid))
    else Err(TpmError(Rc(refusal)))
  }

  /** The current format: the account a PIN typed correctly on a legacy account ends up in. */
  function Migrated(a: Account, pin: string, maxAttempts: u32): Account
    requires a.Holder?
  {
    if NormalizeLegacyPin(pin) == pin then Holder(a.secret, Exact, 0, a.limit)
    else if Fits(pin) then Holder(pin, Exact, 0, maxAttempts)
    else Empty
  }

  /** The account after a guess. */
  function AfterGuess(a: Account, auth: string): Account {
    if !a.Holder? || Locked(a) || ByteLen(auth) > MAX_AUTH_BUFFER then a
    else if auth == a.secret then a.(failures := 0)
    else a.(failures := a.failures + 1)
  }

  /** Compare one guess. */
  function Guess(a: Account, uid: nat, auth: string, refusal: Kind): (Result<VerificationResult, PinError>, Account) {
    var result :=
      if a.Empty? then Err(TpmError(Rc(Handle)))
      else if ByteLen(auth) > MAX_AUTH_BUFFER then Err(TpmError(Wrapper))
      else if a.Broken? then Err(NotProvisioned(uid))
      else if Locked(a) then Refused(a, uid, refusal)
      else if auth != a.secret then Ok(Invalid(Seen(a.failures + 1, a.limit).CounterSpent()))
      else Ok(if Seen(0, a.limit).CounterSpent() then LockedOut else Success(Seen(0, a.limit)));
    (result, AfterGuess(a, auth))
  }

  /** A verification that takes the account for a legacy one. */
  function VerifyAsLegacy(a: Account, uid: nat, pin: string, maxAttempts: u32, refusal: Kind)
    : (Result<VerificationResult, PinError>, Account)
  {
    var (result, a') := Guess(a, uid, NormalizeLegacyPin(pin), refusal);
    if a'.Holder? && result.Ok? && result.value.Success? then (result, Migrated(a', pin, maxAttempts)) else (result, a')
  }

  function Verify(a: Account, uid: nat, pin: string, maxAttempts: u32, refusal: Kind)
    : (Result<VerificationResult, PinError>, Account)
  {
    if a.Empty? || a.format.Exact? then Guess(a, uid, pin, refusal)
    else VerifyAsLegacy(a, uid, pin, maxAttempts, refusal)
  }

  /** How a deletion with authorization answers, by its verification and the deletion behind it. */
  function DeletionResult(verified: Result<VerificationResult, PinError>, deleted: Result<(), PinError>)
    : Result<DeleteResult, PinError>
  {
    match verified
    case Err(error) => Err(error)
    case Ok(Success(_)) => if deleted.Err? then Err(deleted.error) else Ok(Deleted)
    case Ok(Invalid(locked)) => Ok(DeleteInvalid(locked))
    case Ok(LockedOut) => Ok(DeleteLockedOut)
  }

  function DeleteWithAuth(a: Account, uid: nat, pin: string, maxAttempts: u32, refusal: Kind)
    : (Result<DeleteResult, PinError>, Account)
  {
    var (verified, a') := Verify(a, uid, pin, maxAttempts, refusal);
    var (deleted, a'') := if verified.Ok? && verified.value.Success? then DeleteAdmin(a', uid) else (Ok(()), a');
    (DeletionResult(verified, deleted), a'')
  }

  // ---- The tag beside the account ----

  /** `View` does not tell an absent tag from a blank one, nor see the tag that outlives its slot. */
  datatype TagState = NoTag | BlankTag | FullTag

  function TagIn(nv: Store, uid: nat): TagState {
    if TagOf(uid) !in nv then NoTag else if nv[TagOf(uid)].written then FullTag else BlankTag
  }

  function TagAfterSetup(a: Account, tag: TagState, uid: nat, pin: string, maxAttempts: u32): TagState {
    if Setup(a, uid, pin, maxAttempts).0.Ok? then FullTag else tag
  }

  function TagAfterDelete(a: Account, tag: TagState): TagState {
    if a.Empty? then tag else NoTag
  }

  /** A migration tags the account, unless it loses it. */
  function TagAfterMigration(pin: string): TagState {
    if NormalizeLegacyPin(pin) == pin || Fits(pin) then FullTag else NoTag
  }

  function TagAfterVerify(a: Account, tag: TagState, uid: nat, pin: string, maxAttempts: u32, refusal: Kind): TagState {
    var verified := Verify(a, uid, pin, maxAttempts, refusal).0;
    if a != Empty && a.format.Legacy? && verified.Ok? && verified.value.Success? then TagAfterMigration(pin) else tag
  }

  function TagAfterDeleteWithAuth(a: Account, tag: TagState, uid: nat, pin: string, maxAttempts: u32, refusal: Kind)
    : TagState
  {
    var (verified, a') := Verify(a, uid, pin, maxAttempts, refusal);
    var tag' := TagAfterVerify(a, tag, uid, pin, maxAttempts, refusal);
    if verified.Ok? && verified.value.Success? then TagAfterDelete(a', tag') else tag'
  }

  // The same over stores, stated so that proofs open it only where they mention `TagIn`.

  ghost predicate SetupTags(nv: Store, nv': Store, uid: nat, pin: string, maxAttempts: u32)
    requires SlotShaped(nv, uid)
  {
    forall v :: v == nv' ==> TagIn(v, uid) == TagAfterSetup(View(nv, uid), TagIn(nv, uid), uid, pin, maxAttempts)
  }

  ghost predicate DeleteTags(nv: Store, nv': Store, uid: nat)
    requires SlotShaped(nv, uid)
  {
    forall v :: v == nv' ==> TagIn(v, uid) == TagAfterDelete(View(nv, uid), TagIn(nv, uid))
  }

  // ---- Stages of operations that fail ----

  /** Where a guess that may fail or lose its answer leaves an account. */
  predicate GuessStage(a: Account, a': Account, auth: string) {
    a' == a || a' == AfterGuess(a, auth)
  }

  /**
   Where a refused guess leaves an account, by the fate of its command; a refusal the TPM gave itself was deserved.
   */
  predicate RefusalStage(fate: Fate, a: Account, a': Account, auth: string) {
    && a != Empty && ByteLen(auth) <= MAX_AUTH_BUFFER
    && a' == (if fate.Dropped? then a else AfterGuess(a, auth))
    && (if fate.Works? then a.Holder? && (Locked(a) || auth != a.secret) else IsRefusal(fate.kind))
  }

  predicate IsMatched(a: Account) {
    a.Holder? && a.failures == 0
  }

  /** Where a migration that may fail at any command leaves an account whose secret has been matched. */
  predicate MigrationStage(a: Account, a': Account, pin: string, maxAttempts: u32)
    requires a.Holder?
  {
    || a' == a
    || (if NormalizeLegacyPin(pin) == pin then a' == a.(format := Exact)
        else a' == Empty || (Fits(pin) && (a' == Broken(pin, a.format) || InSetup(a', pin, maxAttempts))))
  }

  /** Where a setup that has got past its free slot may stop. */
  predicate InSetup(a': Account, pin: string, maxAttempts: u32) {
    || a' == Broken(pin, Legacy)
    || a' == Holder(pin, Legacy, 0, maxAttempts)
    || a' == Holder(pin, Exact, 0, maxAttempts)
  }

  /** The format a verification takes an account for: one whose tag cannot be seen passes for a legacy one. */
  function FormatSeen(a: Account, hidden: bool): Format {
    if a.Empty? || hidden then Legacy else a.format
  }

  /** The PIN is the right one, to a verification that sees this format. */
  predicate Matches(a: Account, format: Format, pin: string) {
    a.Holder? && !Locked(a) && Key(format, pin) == a.secret
  }

  /** Where a verification that may fail at any command leaves an account. */
  predicate VerifyStage(a: Account, a': Account, pin: string, maxAttempts: u32, hidden: bool) {
    var format := FormatSeen(a, hidden);
    || GuessStage(a, a', Key(format, pin))
    || (format.Legacy? && Matches(a, format, pin) && !Seen(0, a.limit).CounterSpent()
        && MigrationStage(a.(failures := 0), a', pin, maxAttempts))
  }

  /** Where a deletion with authorization that may fail at any command leaves an account. */
  predicate DeleteStage(a: Account, a': Account, pin: string, maxAttempts: u32, hidden: bool) {
    VerifyStage(a, a', pin, maxAttempts, hidden) || (Matches(a, FormatSeen(a, hidden), pin) && a' == Empty)
  }

  /** Where a setup that may fail at any command leaves an account. */
  predicate SetupStage(a: Account, a': Account, pin: string, maxAttempts: u32) {
    a' == a || (a.Empty? && Fits(pin) && (a' == Broken(pin, Exact) || InSetup(a', pin, maxAttempts)))
  }

  // ---- Setups that are stopped ----

  /** The tag after as many commands of its writing: look it up, define it if it is missing, look it up, write it. */
  function StoppedTag(nv: Store, uid: nat, left: nat): Store {
    if left < 2 then nv
    else if TagOf(uid) !in nv && left < 4 then nv[TagOf(uid) := UNTAGGED]
    else nv[TagOf(uid) := TAGGED]
  }

  /**
   The store after as many commands of a setup: one to look for the slot, two to define it, three to write it, one to
   reconnect, and the tag.
   */
  function StoppedSetup(nv: Store, uid: nat, pin: string, maxAttempts: u32, left: nat): Store {
    if SlotOf(uid) in nv || !Fits(pin) || left < 3 then nv
    else if left < 6 then nv[SlotOf(uid) := HalfDefined(pin)]
    else StoppedTag(nv[SlotOf(uid) := FreshSlot(pin, maxAttempts)], uid, Left(left, 7))
  }

  /** The slot's only write, stopped after any number of its commands from turn n on; it takes three. */
  ghost predicate WriteStops(turns: Schedule, n: nat, n': nat, nv: Store, nv': Store, uid: nat, pin: string,
                             maxAttempts: u32, success: bool)
  {
    SlotOf(uid) in nv && nv[SlotOf(uid)] == HalfDefined(pin) ==>
      forall left: nat | StopsAfter(turns, n, left) ::
        && (success <==> left >= 3)
        && nv' == (if left < 3 then nv else nv[SlotOf(uid) := FreshSlot(pin, maxAttempts)])
        && StopsAfter(turns, n', Left(left, 3))
  }

  /** The slot's definition, stopped after any number of its commands from turn n on; it takes five. */
  ghost predicate DefinitionStops(turns: Schedule, n: nat, n': nat, nv: Store, nv': Store, uid: nat, pin: string,
                                  maxAttempts: u32, success: bool)
  {
    SlotOf(uid) !in nv && Fits(pin) ==>
      forall left: nat | StopsAfter(turns, n, left) ::
        && (success <==> left >= 5)
        && nv' == (if left < 2 then nv
                   else if left < 5 then nv[SlotOf(uid) := HalfDefined(pin)]
                   else nv[SlotOf(uid) := FreshSlot(pin, maxAttempts)])
        && StopsAfter(turns, n', Left(left, 5))
  }

  /** Looking up and writing a tag that is there, stopped after any number of commands from turn n on. */
  ghost predicate LookupStops(turns: Schedule, n: nat, n': nat, nv: Store, nv': Store, uid: nat, success: bool) {
    TagShaped(nv, uid) ==>
      forall left: nat | StopsAfter(turns, n, left) ::
        var there := TagOf(uid) in nv;
        && (success <==> there && left >= 2)
        && nv' == (if there && left >= 2 then nv[TagOf(uid) := TAGGED] else nv)
        && StopsAfter(turns, n', Left(left, if there then 2 else 1))
  }

  /** Writing the tag, stopped after any number of its commands from turn n on. */
  ghost predicate TagWriteStops(turns: Schedule, n: nat, n': nat, nv: Store, nv': Store, uid: nat, success: bool) {
    TagShaped(nv, uid) ==>
      forall left: nat | StopsAfter(turns, n, left) ::
        nv' == StoppedTag(nv, uid, left) && (!success ==> StopsAfter(turns, n', 0))
  }

  /** Reconnecting and writing the tag, stopped after any number of commands from turn n on. */
  ghost predicate TagStops(turns: Schedule, n: nat, nv: Store, nv': Store, uid: nat) {
    TagShaped(nv, uid) ==>
      forall left: nat | StopsAfter(turns, n, left) :: nv' == StoppedTag(nv, uid, Left(left, 1))
  }

  /** A setup that is stopped after any number of its commands leaves exactly that store. */
  ghost predicate SetupStops(turns: Schedule, n: nat, nv: Store, nv': Store, uid: nat, pin: string, maxAttempts: u32) {
    TagShaped(nv, uid) ==>
      forall left: nat | StopsAfter(turns, n, left) :: nv' == StoppedSetup(nv, uid, pin, maxAttempts, left)
  }

  /** A session and the index behind it, stopped after any number of commands from turn n on; they take two. */
  ghost predicate HalfStops(turns: Schedule, n: nat, n': nat, nv: Store, nv': Store, uid: nat, pin: string,
                            success: bool)
  {
    SlotOf(uid) !in nv && Fits(pin) ==>
      forall left: nat | StopsAfter(turns, n, left) ::
        && (success <==> left >= 2)
        && nv' == (if left < 2 then nv else nv[SlotOf(uid) := HalfDefined(pin)])
        && StopsAfter(turns, n', Left(left, 2))
  }

  /** A definition is a half-defined slot, and its write if that worked. */
  lemma DefinitionIsStopped(turns: Schedule, n: nat, m: nat, n': nat, nv: Store, half: Store, nv': Store, uid: nat,
                            pin: string, maxAttempts: u32, started: bool, success: bool)
    requires HalfStops(turns, n, m, nv, half, uid, pin, started)
    requires if started then WriteStops(turns, m, n', half, nv', uid, pin, maxAttempts, success)
             else nv' == half && n' == m && !success
    ensures DefinitionStops(turns, n, n', nv, nv', uid, pin, maxAttempts, success)
  {
    if SlotOf(uid) !in nv {
      var full := FreshSlot(pin, maxAttempts);
      assert nv[SlotOf(uid) := HalfDefined(pin)][SlotOf(uid) := full] == nv[SlotOf(uid) := full];
      forall left: nat | StopsAfter(turns, n, left) && Fits(pin)
        ensures (success <==> left >= 5) && StopsAfter(turns, n', Left(left, 5))
      {
        assert StopsAfter(turns, m, Left(left, 2));
      }
    }
  }

  /** A lookup that failed, a definition at turn m, and another attempt if that worked. */
  lemma TagWriteIsStopped(turns: Schedule, n: nat, m: nat, n': nat, nv: Store, looked: Store, defined: Store,
                          nv': Store, uid: nat, answered: bool, success: bool)
    requires LookupStops(turns, n, m, nv, looked, uid, false) && m < n'
    requires defined == if turns(m).fate.Dropped? || TagOf(uid) in looked then looked
                        else looked[TagOf(uid) := UNTAGGED]
    requires turns(m).fate.Works? ==> (answered <==> TagOf(uid) !in looked)
    requires !turns(m).fate.Works? ==> !answered
    requires if answered then LookupStops(turns, m + 1, n', defined, nv', uid, success)
             else nv' == defined && !success && n' == m + 1
    ensures TagWriteStops(turns, n, n', nv, nv', uid, success)
  {
    NextTurn(turns, m);
    if TagShaped(nv, uid) {
      forall left: nat | StopsAfter(turns, n, left)
        ensures nv' == StoppedTag(nv, uid, left) && (!success ==> StopsAfter(turns, n', 0))
      {
        var left' := Left(left, if TagOf(uid) in nv then 2 else 1);
        assert looked == nv && StopsAfter(turns, m, left');
        assert StopsAfter(turns, m + 1, Left(left', 1));
        if answered {
          assert defined[TagOf(uid) := TAGGED] == nv[TagOf(uid) := TAGGED];
        }
      }
    }
  }

  /** Reconnecting, and the writing of the tag behind it. */
  lemma TaggingIsStopped(turns: Schedule, n: nat, n': nat, nv: Store, tagged: Store, nv': Store, uid: nat,
                         success: bool)
    requires turns(n).fate.Works? && TagWriteStops(turns, n + 1, n', nv, tagged, uid, success)
    requires if success then nv' == tagged else StopsAfter(turns, n', 0) ==> nv' == tagged
    ensures TagStops(turns, n, nv, nv', uid)
  {
    NextTurn(turns, n);
  }

  /**
   One fault from turn `first` on, and none before: the setup works all the same, or the user is told that it has been
   taken back, and it has.
   */
  ghost predicate Recovers(turns: Schedule, n: nat, first: nat, nv': Store, uid: nat, r: Result<(), PinError>) {
    forall at: nat | at >= first && OneFault(turns, n, at) ::
      r.Ok? || (r == Err(TpmError(TagNotWritten)) && SlotOf(uid) !in nv')
  }

  /** One fault, of the reconnection at that turn: it is reported, and the slot stays behind without its tag. */
  ghost predicate Strands(turns: Schedule, n: nat, at: nat, nv: Store, nv': Store, uid: nat, pin: string,
                          maxAttempts: u32, r: Result<(), PinError>)
  {
    OneFault(turns, n, at) && !turns(at).fate.Works? ==>
      r == Err(TpmError(Rc(turns(at).fate.kind))) && nv' == nv[SlotOf(uid) := FreshSlot(pin, maxAttempts)]
  }

  /** What makes up for a fault from turn m on does so for one seen from an earlier turn. */
  lemma RecoversLater(turns: Schedule, n: nat, m: nat, more: nat, nv': Store, uid: nat, r: Result<(), PinError>)
    requires n <= m
    ensures Recovers(turns, m, m + more, nv', uid, r) ==> Recovers(turns, n, m + more, nv', uid, r)
  {
    forall at: nat | at >= m + more && OneFault(turns, n, at) ensures OneFault(turns, m, at) {
    }
  }

  /** The writing of the tag from turn n + 1 to m, and if it fails the rollback from there to turn n'. */
  lemma TaggingRecovers(turns: Schedule, n: nat, m: nat, n': nat, nv': Store, uid: nat, r: Result<(), PinError>)
    requires r.Err? && Solo(turns, n) ==> !WorkUntil(turns, n + 1, m)
    requires r.Err? && Solo(turns, n) && WorkUntil(turns, m, n') ==>
               r == Err(TpmError(TagNotWritten)) && SlotOf(uid) !in nv'
    ensures Recovers(turns, n, n + 1, nv', uid, r)
  {
    if r.Err? {
      forall at: nat | OneFault(turns, n, at) ensures WorkUntil(turns, m, n') {
        FaultIsOver(turns, n, at, n + 1, m, n');
      }
    }
  }

  /** What the owner can read of an account. */
  function Slot(a: Account): Option<PinData> {
    if a.Holder? then Some(Seen(a.failures, a.limit)) else None
  }

  /**
   Everything a setup that runs alone can do, whichever of its commands fail, lose their answers
   or are never sent because it was stopped.
   */
  predicate SetupOutcome(nv: Store, nv': Store, uid: nat, pin: string, maxAttempts: u32, r: Result<(), PinError>) {
    if SlotOf(uid) in nv || !Fits(pin) then r.Err? && nv' == nv
    else
      && SameElsewhere(uid, nv, nv') && TagShaped(nv', uid)
      && (SlotOf(uid) in nv' ==>
           nv'[SlotOf(uid)] == HalfDefined(pin) || nv'[SlotOf(uid)] == FreshSlot(pin, maxAttempts))
      && (SlotOf(uid) in nv' && nv'[SlotOf(uid)] == HalfDefined(pin) ==> nv' == nv[SlotOf(uid) := HalfDefined(pin)])
      && (r.Ok? ==> nv' == nv[SlotOf(uid) := FreshSlot(pin, maxAttempts)][TagOf(uid) := TAGGED])
      && (r == Err(TpmError(TagNotWritten)) ==> SlotOf(uid) !in nv')
  }

  /** The same, stated so that proofs open it only where they mention `SetupOutcome`. */
  ghost predicate SetUp(nv: Store, nv': Store, uid: nat, pin: string, maxAttempts: u32, r: Result<(), PinError>) {
    forall v :: v == nv' ==> SetupOutcome(nv, v, uid, pin, maxAttempts, r)
  }

  /** What the definition of a slot can leave, alone. */
  predicate DefinitionLeaves(nv: Store, nv': Store, uid: nat, pin: string, maxAttempts: u32, r: Result<(), PinError>) {
    && (r.Err? ==> r.error.TpmError? && (r.error.fault.Rc? || r.error.fault.Wrapper?))
    && (|| nv' == nv
        || nv' == nv[SlotOf(uid) := HalfDefined(pin)]
        || nv' == nv[SlotOf(uid) := FreshSlot(pin, maxAttempts)])
    && (SlotOf(uid) in nv || !Fits(pin) ==> r.Err? && nv' == nv)
    && (r.Ok? ==> nv' == nv[SlotOf(uid) := FreshSlot(pin, maxAttempts)])
  }

  /** The same, stated so that proofs open it only where they mention `DefinitionLeaves`. */
  ghost predicate Defined(nv: Store, nv': Store, uid: nat, pin: string, maxAttempts: u32, r: Result<(), PinError>) {
    forall v :: v == nv' ==> DefinitionLeaves(nv, v, uid, pin, maxAttempts, r)
  }

  /** What tagging a slot that has just been written, or taking it back, can leave, alone. */
  predicate TaggingLeaves(nv: Store, nv': Store, uid: nat, pin: string, maxAttempts: u32, r: Result<(), PinError>) {
    TagShaped(nv, uid) && SlotOf(uid) in nv && nv[SlotOf(uid)] == FreshSlot(pin, maxAttempts) ==>
      && SameElsewhere(uid, nv, nv') && TagShaped(nv', uid)
      && (SlotOf(uid) in nv' ==> nv'[SlotOf(uid)] == FreshSlot(pin, maxAttempts))
      && (r.Ok? ==> nv' == nv[TagOf(uid) := TAGGED])
      && (r == Err(TpmError(TagNotWritten)) ==> SlotOf(uid) !in nv')
  }

  /** The same, stated so that proofs open it only where they mention `TaggingLeaves`. */
  ghost predicate Finished(nv: Store, nv': Store, uid: nat, pin: string, maxAttempts: u32, r: Result<(), PinError>) {
    forall v :: v == nv' ==> TaggingLeaves(nv, v, uid, pin, maxAttempts, r)
  }

  /** A migration between the deletion and the end of its setup. */
  lemma SetupIsAMigrationStage(nv: Store, deleted: Store, nv': Store, uid: nat, pin: string, maxAttempts: u32,
                               r: Result<(), PinError>)
    requires Shaped(nv, uid) && IsMatched(View(nv, uid)) && NormalizeLegacyPin(pin) != pin
    requires deleted == nv - {SlotOf(uid)} || deleted == nv - {SlotOf(uid), TagOf(uid)}
    requires nv' == deleted || SetUp(deleted, nv', uid, pin, maxAttempts, r)
    ensures Shaped(nv', uid) && SameElsewhere(uid, nv, nv')
    ensures MigrationStage(View(nv, uid), View(nv', uid), pin, maxAttempts)
    ensures SetUp(deleted, nv', uid, pin, maxAttempts, r) && r.Ok? ==>
              View(nv', uid) == Migrated(View(nv, uid), pin, maxAttempts)
  {
    if SetUp(deleted, nv', uid, pin, maxAttempts, r) {
      assert SetupOutcome(deleted, nv', uid, pin, maxAttempts, r);
    }
    assert SameElsewhere(uid, nv, deleted) && TagShaped(deleted, uid) && SlotOf(uid) !in deleted;
    assert Tagged(deleted, uid) ==> Tagged(nv, uid);
  }

  /** A change of a slot alone touches neither the tag nor any other index. */
  lemma SlotAlone(nv: Store, uid: nat, e: Entry)
    requires SlotOf(uid) in nv
    ensures var nv' := nv[SlotOf(uid) := e];
            && SameElsewhere(uid, nv, nv') && TagIn(nv', uid) == TagIn(nv, uid) && Tagged(nv', uid) == Tagged(nv, uid)
            && (TagShaped(nv, uid) ==> TagShaped(nv', uid))
  {
  }

  /** A guess that reaches the TPM is one step of the simple machine. */
  lemma GuessIsAfter(nv: Store, uid: nat, auth: string)
    requires SlotShaped(nv, uid) && ByteLen(auth) <= MAX_AUTH_BUFFER
    ensures var nv' := After(nv, ReadAuth(SlotOf(uid), auth));
            && SlotShaped(nv', uid) && (TagShaped(nv, uid) ==> Shaped(nv', uid)) && SameElsewhere(uid, nv, nv')
            && View(nv', uid) == AfterGuess(View(nv, uid), auth) && TagIn(nv', uid) == TagIn(nv, uid)
  {
    var nv' := After(nv, ReadAuth(SlotOf(uid), auth));
    if nv' != nv {
      SlotAlone(nv, uid, nv'[SlotOf(uid)]);
      assert nv' == nv[SlotOf(uid) := nv'[SlotOf(uid)]];
    }
  }

  /** The stores a setup can leave in place of an absent slot. */
  lemma SetupStores(nv: Store, uid: nat, pin: string, maxAttempts: u32)
    requires SlotOf(uid) !in nv && TagShaped(nv, uid)
    ensures var half := nv[SlotOf(uid) := HalfDefined(pin)];
            SameElsewhere(uid, nv, half) && TagShaped(half, uid)
    ensures var full := nv[SlotOf(uid) := FreshSlot(pin, maxAttempts)];
            SameElsewhere(uid, nv, full) && TagShaped(full, uid)
    ensures var done := nv[SlotOf(uid) := FreshSlot(pin, maxAttempts)][TagOf(uid) := TAGGED];
            && SameElsewhere(uid, nv, done) && TagShaped(done, uid)
            && (Fits(pin) ==> Shaped(done, uid) && View(done, uid) == Holder(pin, Exact, 0, maxAttempts))
  {
  }

  /** A setup that ends before it defines anything. */
  lemma NothingIsSetUp(nv: Store, uid: nat, pin: string, maxAttempts: u32, e: PinError)
    requires e != TpmError(TagNotWritten) && TagShaped(nv, uid)
    ensures SetUp(nv, nv, uid, pin, maxAttempts, Err(e))
  {
  }

  /** A setup defines the slot, and then finishes. */
  lemma DefinedThenFinished(nv: Store, defined: Store, nv': Store, uid: nat, pin: string, maxAttempts: u32,
                            defining: Result<(), PinError>, r: Result<(), PinError>)
    requires TagShaped(nv, uid) && Defined(nv, defined, uid, pin, maxAttempts, defining)
    requires if defining.Ok? then Finished(defined, nv', uid, pin, maxAttempts, r) else nv' == defined && r == defining
    ensures SetUp(nv, nv', uid, pin, maxAttempts, r)
  {
    assert DefinitionLeaves(nv, defined, uid, pin, maxAttempts, defining);
    if SlotOf(uid) !in nv {
      SetupStores(nv, uid, pin, maxAttempts);
    }
    if defining.Ok? {
      assert TaggingLeaves(defined, nv', uid, pin, maxAttempts, r);
    }
    assert SetupOutcome(nv, nv', uid, pin, maxAttempts, r);
  }

  /** A setup leaves an occupied slot alone, and defines none for a PIN that does not fit. */
  lemma SetUpUnlessTaken(nv: Store, nv': Store, uid: nat, pin: string, maxAttempts: u32, r: Result<(), PinError>)
    requires SetUp(nv, nv', uid, pin, maxAttempts, r)
    ensures SlotOf(uid) in nv || !Fits(pin) ==> nv' == nv
  {
    assert SetupOutcome(nv, nv', uid, pin, maxAttempts, r);
  }

  /** The outcomes of a setup, read as accounts. */
  lemma SetupOutcomeIsAStage(nv: Store, nv': Store, uid: nat, pin: string, maxAttempts: u32, r: Result<(), PinError>)
    requires Shaped(nv, uid) && SetUp(nv, nv', uid, pin, maxAttempts, r)
    ensures Shaped(nv', uid) && SameElsewhere(uid, nv, nv')
    ensures SetupStage(View(nv, uid), View(nv', uid), pin, maxAttempts)
    ensures r.Ok? ==> View(nv', uid) == Holder(pin, Exact, 0, maxAttempts)
  {
    assert SetupOutcome(nv, nv', uid, pin, maxAttempts, r);
  }

  /** An undisturbed setup, read as accounts. */
  lemma SetupIsExact(nv: Store, nv': Store, uid: nat, pin: string, maxAttempts: u32, r: Result<(), PinError>)
    requires Shaped(nv, uid) && SetUp(nv, nv', uid, pin, maxAttempts, r)
    requires if SlotOf(uid) in nv && nv[SlotOf(uid)].written then r == Err(AlreadyProvisioned(uid))
             else if SlotOf(uid) in nv || !Fits(pin) then
               r == Err(TpmError(if ByteLen(pin) > MAX_AUTH_BUFFER then Wrapper else Rc(OtherRc)))
             else r == Ok(())
    ensures Shaped(nv', uid) && SameElsewhere(uid, nv, nv')
    ensures (r, View(nv', uid)) == Setup(View(nv, uid), uid, pin, maxAttempts)
    ensures SetupTags(nv, nv', uid, pin, maxAttempts)
  {
    assert SetupOutcome(nv, nv', uid, pin, maxAttempts, r);
    if SlotOf(uid) !in nv {
      SetupStores(nv, uid, pin, maxAttempts);
    }
  }

  // ---- Defining and tagging a slot ----

  /** How a setup that reached the slot answers when nothing disturbs it. */
  function Provisioning(nv: Store, uid: nat, pin: string): Result<(), PinError> {
    if ByteLen(pin) > MAX_AUTH_BUFFER then Err(TpmError(Wrapper))
    else if SlotOf(uid) in nv || !Fits(pin) then Err(TpmError(Rc(OtherRc)))
    else Ok(())
  }

  /**
   Defining and tagging the slot from turn n on: alone it has one of the outcomes of a setup, undisturbed its answer
   is known, stopped its store is, and a single fault in the tagging is made up for.
   */
  ghost predicate ProvisionEnds(turns: Schedule, n: nat, nv: Store, nv': Store, uid: nat, pin: string,
                                maxAttempts: u32, r: Result<(), PinError>)
  {
    && (Solo(turns, n) && TagShaped(nv, uid) ==> SetUp(nv, nv', uid, pin, maxAttempts, r))
    && (Quiet(turns, n) && TagShaped(nv, uid) ==> r == Provisioning(nv, uid, pin))
    && (TagShaped(nv, uid) && SlotOf(uid) !in nv && Fits(pin) ==>
          && Recovers(turns, n, n + 6, nv', uid, r)
          && Strands(turns, n, n + 5, nv, nv', uid, pin, maxAttempts, r)
          && forall left: nat | StopsAfter(turns, n, left) ::
               nv' == StoppedSetup(nv, uid, pin, maxAttempts, left + 1))
  }

  /** The same, stated so that proofs open it only where they mention `ProvisionEnds`. */
  ghost predicate Provisioned(turns: Schedule, n: nat, nv: Store, nv': Store, uid: nat, pin: string, maxAttempts: u32,
                              r: Result<(), PinError>)
  {
    forall v :: v == nv' ==> ProvisionEnds(turns, n, nv, v, uid, pin, maxAttempts, r)
  }

  /** Defined by turn m, and finished from there. */
  lemma DefinedAndTagged(turns: Schedule, n: nat, m: nat, nv: Store, defined: Store, nv': Store, uid: nat, pin: string,
                         maxAttempts: u32, defining: Result<(), PinError>, r: Result<(), PinError>)
    requires Solo(turns, n) ==> Defined(nv, defined, uid, pin, maxAttempts, defining)
    requires Quiet(turns, n) ==> defining == Provisioning(nv, uid, pin)
    requires DefinitionStops(turns, n, m, nv, defined, uid, pin, maxAttempts, defining.Ok?)
    requires Solo(turns, n) && SlotOf(uid) !in nv && Fits(pin) && WorkUntil(turns, n, n + 5) ==>
               defining.Ok? && m == n + 5
    requires if defining.Ok? then
               && (Solo(turns, n) ==> Finished(defined, nv', uid, pin, maxAttempts, r))
               && (Quiet(turns, n) && TagShaped(defined, uid) ==> r.Ok?)
               && TagStops(turns, m, defined, nv', uid)
               && (Solo(turns, m) && !turns(m).fate.Works? ==>
                     r == Err(TpmError(Rc(turns(m).fate.kind))) && nv' == defined)
               && (TagShaped(defined, uid) && SlotOf(uid) in defined ==> Recovers(turns, m, m + 1, nv', uid, r))
             else nv' == defined && r == defining
    ensures Provisioned(turns, n, nv, nv', uid, pin, maxAttempts, r)
  {
    assert r.Ok? ==> r.value == ();
    if Solo(turns, n) && TagShaped(nv, uid) {
      assert DefinitionLeaves(nv, defined, uid, pin, maxAttempts, defining);
      DefinedThenFinished(nv, defined, nv', uid, pin, maxAttempts, defining, r);
      if SlotOf(uid) !in nv {
        SetupStores(nv, uid, pin, maxAttempts);
        forall at: nat | at >= n + 6 && OneFault(turns, n, at) && Fits(pin)
          ensures defining.Ok? && OneFault(turns, m, at)
        {
        }
        forall left: nat | StopsAfter(turns, n, left) && Fits(pin)
          ensures nv' == StoppedSetup(nv, uid, pin, maxAttempts, left + 1)
        {
        }
      }
      assert ProvisionEnds(turns, n, nv, nv', uid, pin, maxAttempts, r);
    }
  }

  lemma RemovalLeavesNothing(nv: Store, nv': Store, uid: nat)
    requires Shaped(nv, uid)
    requires nv' == nv - {SlotOf(uid)} || nv' == nv - {SlotOf(uid), TagOf(uid)}
    ensures Shaped(nv', uid) && SameElsewhere(uid, nv, nv') && View(nv', uid) == Empty
  {
  }

  // ---- Stages, read off stores ----

  /** A guess is at most one step. Success means it matched; what a refusal means depends on the fate of the command. */
  predicate GuessLeaves(nv: Store, nv': Store, uid: nat, auth: string, r: Result<VerificationResult, PinError>,
                        fate: Fate)
  {
    && SlotShaped(nv, uid) && SlotShaped(nv', uid) && SameElsewhere(uid, nv, nv')
    && (Shaped(nv, uid) ==> Shaped(nv', uid))
    && var a, a' := View(nv, uid), View(nv', uid);
       && GuessStage(a, a', auth)
       && (r.Ok? && r.value.Success? ==>
             && a.Holder? && !Locked(a) && auth == a.secret && a' == a.(failures := 0)
             && !Seen(0, a.limit).CounterSpent())
       && (r.Ok? && r.value.Invalid? ==> RefusalStage(fate, a, a', auth))
  }

  /** The same, stated so that proofs open it only where they mention `GuessLeaves`. */
  ghost predicate Guessed(nv: Store, nv': Store, uid: nat, auth: string, r: Result<VerificationResult, PinError>,
                          fate: Fate)
  {
    forall v :: v == nv' ==> GuessLeaves(nv, v, uid, auth, r, fate)
  }

  /** A verification ends at one of its stages; success means that the PIN matched. */
  predicate VerifyLeaves(nv: Store, nv': Store, uid: nat, pin: string, maxAttempts: u32,
                         r: Result<VerificationResult, PinError>, hidden: bool, fate: Fate)
  {
    && Shaped(nv, uid) && Shaped(nv', uid) && SameElsewhere(uid, nv, nv')
    && var a, a' := View(nv, uid), View(nv', uid);
       && VerifyStage(a, a', pin, maxAttempts, hidden)
       && (r.Ok? && r.value.Success? ==> Matches(a, FormatSeen(a, hidden), pin) && !Seen(0, a.limit).CounterSpent())
       && (r.Ok? && r.value.Invalid? ==> RefusalStage(fate, a, a', Key(FormatSeen(a, hidden), pin)))
  }

  /** The same, stated so that proofs open it only where they mention `VerifyLeaves`. */
  ghost predicate Verified(nv: Store, nv': Store, uid: nat, pin: string, maxAttempts: u32,
                           r: Result<VerificationResult, PinError>, hidden: bool, fate: Fate)
  {
    forall v :: v == nv' ==> VerifyLeaves(nv, v, uid, pin, maxAttempts, r, hidden, fate)
  }

  /**
   A deletion with authorization ends at one of its stages; success means that the PIN matched and the account is gone.
   */
  predicate DeletionLeaves(nv: Store, nv': Store, uid: nat, pin: string, maxAttempts: u32, success: bool,
                           hidden: bool)
  {
    && Shaped(nv, uid) && Shaped(nv', uid) && SameElsewhere(uid, nv, nv')
    && var a, a' := View(nv, uid), View(nv', uid);
       && DeleteStage(a, a', pin, maxAttempts, hidden)
       && (success ==> Matches(a, FormatSeen(a, hidden), pin) && a' == Empty)
  }

  /** The same, stated so that proofs open it only where they mention `DeletionLeaves`. */
  ghost predicate Erased(nv: Store, nv': Store, uid: nat, pin: string, maxAttempts: u32, success: bool, hidden: bool) {
    forall v :: v == nv' ==> DeletionLeaves(nv, v, uid, pin, maxAttempts, success, hidden)
  }

  /** A verification, and if it succeeds a deletion that may fail at any command. */
  lemma VerifiedThenErased(nv: Store, matched: Store, nv': Store, uid: nat, pin: string, maxAttempts: u32,
                           verified: Result<VerificationResult, PinError>, success: bool, hidden: bool, fate: Fate)
    requires Verified(nv, matched, uid, pin, maxAttempts, verified, hidden, fate)
    requires if verified.Ok? && verified.value.Success? then
               Shaped(matched, uid) ==>
                 && Shaped(nv', uid) && SameElsewhere(uid, matched, nv')
                 && (View(nv', uid) == View(matched, uid) || View(nv', uid) == Empty)
                 && (success ==> View(nv', uid) == Empty)
             else nv' == matched && !success
    ensures Erased(nv, nv', uid, pin, maxAttempts, success, hidden)
  {
    assert VerifyLeaves(nv, matched, uid, pin, maxAttempts, verified, hidden, fate);
    assert DeletionLeaves(nv, nv', uid, pin, maxAttempts, success, hidden);
  }

  // ---- Undisturbed verifications, read off stores ----

  /** A guess, exactly as the machine makes it. */
  predicate GuessEnds(nv: Store, nv': Store, uid: nat, auth: string, refusal: Kind,
                      r: Result<VerificationResult, PinError>)
  {
    && SlotShaped(nv, uid) && SlotShaped(nv', uid) && SameElsewhere(uid, nv, nv')
    && (Shaped(nv, uid) ==> Shaped(nv', uid)) && TagIn(nv', uid) == TagIn(nv, uid)
    && (r, View(nv', uid)) == Guess(View(nv, uid), uid, auth, refusal)
  }

  /** The same, stated so that proofs open it only where they mention `GuessEnds`. */
  ghost predicate GuessedExactly(nv: Store, nv': Store, uid: nat, auth: string, refusal: Kind,
                                 r: Result<VerificationResult, PinError>)
  {
    forall v :: v == nv' ==> GuessEnds(nv, v, uid, auth, refusal, r)
  }

  /** A verification by the format it took the account for. */
  predicate EndsAs(nv: Store, nv': Store, uid: nat, pin: string, maxAttempts: u32, format: Format, refusal: Kind,
                   r: Result<VerificationResult, PinError>)
  {
    && Shaped(nv, uid) && Shaped(nv', uid) && SameElsewhere(uid, nv, nv')
    && TagIn(nv', uid) == (if format.Legacy? && r.Ok? && r.value.Success? then TagAfterMigration(pin)
                           else TagIn(nv, uid))
    && (r, View(nv', uid)) ==
       if format.Legacy? then VerifyAsLegacy(View(nv, uid), uid, pin, maxAttempts, refusal)
       else Guess(View(nv, uid), uid, pin, refusal)
  }

  /** The same, stated so that proofs open it only where they mention `EndsAs`. */
  ghost predicate VerifiedAs(nv: Store, nv': Store, uid: nat, pin: string, maxAttempts: u32, format: Format,
                             refusal: Kind, r: Result<VerificationResult, PinError>)
  {
    forall v :: v == nv' ==> EndsAs(nv, v, uid, pin, maxAttempts, format, refusal, r)
  }

  /** A verification that saw the tag as it is. */
  predicate Ends(nv: Store, nv': Store, uid: nat, pin: string, maxAttempts: u32, refusal: Kind,
                 r: Result<VerificationResult, PinError>)
  {
    && Shaped(nv, uid) && Shaped(nv', uid) && SameElsewhere(uid, nv, nv')
    && TagIn(nv', uid) == TagAfterVerify(View(nv, uid), TagIn(nv, uid), uid, pin, maxAttempts, refusal)
    && (r, View(nv', uid)) == Verify(View(nv, uid), uid, pin, maxAttempts, refusal)
  }

  /** The same, stated so that proofs open it only where they mention `Ends`. */
  ghost predicate VerifiedExactly(nv: Store, nv': Store, uid: nat, pin: string, maxAttempts: u32, refusal: Kind,
                                  r: Result<VerificationResult, PinError>)
  {
    forall v :: v == nv' ==> Ends(nv, v, uid, pin, maxAttempts, refusal, r)
  }

  /** A tag was seen: the guess is the verification. */
  lemma ExactGuessEnds(nv: Store, nv': Store, uid: nat, pin: string, maxAttempts: u32, refusal: Kind,
                       r: Result<VerificationResult, PinError>)
    requires Shaped(nv, uid) && GuessedExactly(nv, nv', uid, pin, refusal, r)
    ensures VerifiedAs(nv, nv', uid, pin, maxAttempts, Exact, refusal, r)
  {
    assert GuessEnds(nv, nv', uid, pin, refusal, r);
    assert EndsAs(nv, nv', uid, pin, maxAttempts, Exact, refusal, r);
  }

  /** A migration that may fail at any command, of a slot whose secret has just been matched. */
  predicate UpgradeLeaves(nv: Store, nv': Store, uid: nat, pin: string, maxAttempts: u32) {
    Shaped(nv, uid) && IsMatched(View(nv, uid)) ==>
      && Shaped(nv', uid) && SameElsewhere(uid, nv, nv')
      && MigrationStage(View(nv, uid), View(nv', uid), pin, maxAttempts)
  }

  /** The same, stated so that proofs open it only where they mention `UpgradeLeaves`. */
  ghost predicate Upgraded(nv: Store, nv': Store, uid: nat, pin: string, maxAttempts: u32) {
    forall v :: v == nv' ==> UpgradeLeaves(nv, v, uid, pin, maxAttempts)
  }

  /** An undisturbed migration. */
  predicate UpgradeEnds(nv: Store, nv': Store, uid: nat, pin: string, maxAttempts: u32) {
    Shaped(nv, uid) && IsMatched(View(nv, uid)) ==>
      && Shaped(nv', uid) && SameElsewhere(uid, nv, nv')
      && View(nv', uid) == Migrated(View(nv, uid), pin, maxAttempts)
      && TagIn(nv', uid) == TagAfterMigration(pin)
  }

  /** The same, stated so that proofs open it only where they mention `UpgradeEnds`. */
  ghost predicate UpgradedExactly(nv: Store, nv': Store, uid: nat, pin: string, maxAttempts: u32) {
    forall v :: v == nv' ==> UpgradeEnds(nv, v, uid, pin, maxAttempts)
  }

  /** No tag was seen: a matching guess of the normal form is migrated. */
  lemma LegacyGuessEnds(nv: Store, matched: Store, nv': Store, uid: nat, pin: string, maxAttempts: u32, refusal: Kind,
                        r: Result<VerificationResult, PinError>)
    requires Shaped(nv, uid) && GuessedExactly(nv, matched, uid, NormalizeLegacyPin(pin), refusal, r)
    requires if r.Ok? && r.value.Success? then UpgradedExactly(matched, nv', uid, pin, maxAttempts) else nv' == matched
    ensures VerifiedAs(nv, nv', uid, pin, maxAttempts, Legacy, refusal, r)
  {
    if r.Ok? && r.value.Success? {
      assert UpgradeEnds(matched, nv', uid, pin, maxAttempts);
    }
    assert GuessEnds(nv, matched, uid, NormalizeLegacyPin(pin), refusal, r);
    assert EndsAs(nv, nv', uid, pin, maxAttempts, Legacy, refusal, r);
  }

  lemma SeenIsExact(nv: Store, nv': Store, uid: nat, pin: string, maxAttempts: u32, refusal: Kind,
                    r: Result<VerificationResult, PinError>)
    requires VerifiedAs(nv, nv', uid, pin, maxAttempts, if Tagged(nv, uid) then Exact else Legacy, refusal, r)
    ensures VerifiedExactly(nv, nv', uid, pin, maxAttempts, refusal, r)
  {
    assert EndsAs(nv, nv', uid, pin, maxAttempts, if Tagged(nv, uid) then Exact else Legacy, refusal, r);
    assert Ends(nv, nv', uid, pin, maxAttempts, refusal, r);
  }

  /** A deletion with authorization that saw the tag as it is. */
  predicate DeletionEnds(nv: Store, nv': Store, uid: nat, pin: string, maxAttempts: u32, refusal: Kind,
                         r: Result<DeleteResult, PinError>)
  {
    && Shaped(nv, uid) && Shaped(nv', uid) && SameElsewhere(uid, nv, nv')
    && TagIn(nv', uid) == TagAfterDeleteWithAuth(View(nv, uid), TagIn(nv, uid), uid, pin, maxAttempts, refusal)
    && (r, View(nv', uid)) == DeleteWithAuth(View(nv, uid), uid, pin, maxAttempts, refusal)
  }

  /** The same, stated so that proofs open it only where they mention `DeletionEnds`. */
  ghost predicate DeletedExactly(nv: Store, nv': Store, uid: nat, pin: string, maxAttempts: u32, refusal: Kind,
                                 r: Result<DeleteResult, PinError>)
  {
    forall v :: v == nv' ==> DeletionEnds(nv, v, uid, pin, maxAttempts, refusal, r)
  }

  lemma VerifiedThenDeleted(nv: Store, matched: Store, nv': Store, uid: nat, pin: string, maxAttempts: u32,
                            refusal: Kind, verified: Result<VerificationResult, PinError>,
                            deleted: Result<(), PinError>)
    requires VerifiedExactly(nv, matched, uid, pin, maxAttempts, refusal, verified)
    requires if verified.Ok? && verified.value.Success? then
               Shaped(matched, uid) ==>
                 && Shaped(nv', uid) && SameElsewhere(uid, matched, nv') && DeleteTags(matched, nv', uid)
                 && (deleted, View(nv', uid)) == DeleteAdmin(View(matched, uid), uid)
             else nv' == matched
    ensures DeletedExactly(nv, nv', uid, pin, maxAttempts, refusal, DeletionResult(verified, deleted))
  {
    assert Ends(nv, matched, uid, pin, maxAttempts, refusal, verified);
    assert DeletionEnds(nv, nv', uid, pin, maxAttempts, refusal, DeletionResult(verified, deleted));
  }

  // ---- Facts about stages ----

  lemma VerifiedKeepsShape(nv: Store, nv': Store, uid: nat, pin: string, maxAttempts: u32,
                           r: Result<VerificationResult, PinError>, hidden: bool, fate: Fate)
    requires Verified(nv, nv', uid, pin, maxAttempts, r, hidden, fate)
    ensures Shaped(nv', uid)
  {
    assert VerifyLeaves(nv, nv', uid, pin, maxAttempts, r, hidden, fate);
  }

  lemma NothingIsAStage(nv: Store, uid: nat, pin: string, maxAttempts: u32, r: Result<VerificationResult, PinError>,
                        hidden: bool, fate: Fate)
    requires r.Err?
    ensures SlotShaped(nv, uid) ==> Guessed(nv, nv, uid, pin, r, fate)
    ensures Shaped(nv, uid) ==> Verified(nv, nv, uid, pin, maxAttempts, r, hidden, fate)
  {
  }

  /** A tag was read: the guess is the verification. */
  lemma GuessIsVerification(nv: Store, nv': Store, uid: nat, pin: string, maxAttempts: u32,
                            r: Result<VerificationResult, PinError>, fate: Fate)
    requires Shaped(nv, uid) && Tagged(nv, uid) && Guessed(nv, nv', uid, pin, r, fate)
    ensures Verified(nv, nv', uid, pin, maxAttempts, r, false, fate)
  {
    assert GuessLeaves(nv, nv', uid, pin, r, fate);
    assert VerifyLeaves(nv, nv', uid, pin, maxAttempts, r, false, fate);
  }

  /** No tag was seen: the guess, perhaps with a migration after it. */
  lemma LegacyGuessIsVerification(nv: Store, matched: Store, nv': Store, uid: nat, pin: string, maxAttempts: u32,
                                  guess: Result<VerificationResult, PinError>, r: Result<VerificationResult, PinError>,
                                  fate: Fate)
    requires Shaped(nv, uid) && Guessed(nv, matched, uid, NormalizeLegacyPin(pin), guess, fate)
    requires if guess.Ok? && guess.value.Success? then
               (r == guess || r.Err?) && Upgraded(matched, nv', uid, pin, maxAttempts)
             else r == guess && nv' == matched
    ensures Verified(nv, nv', uid, pin, maxAttempts, r, true, fate)
  {
    assert GuessLeaves(nv, matched, uid, NormalizeLegacyPin(pin), guess, fate);
    if guess.Ok? && guess.value.Success? {
      assert UpgradeLeaves(matched, nv', uid, pin, maxAttempts);
    }
    assert VerifyLeaves(nv, nv', uid, pin, maxAttempts, r, true, fate);
  }

  /** Without a tag there is nothing to hide. */
  lemma UntaggedIsLegacy(nv: Store, nv': Store, uid: nat, pin: string, maxAttempts: u32,
                         r: Result<VerificationResult, PinError>, hidden: bool, fate: Fate)
    requires !Tagged(nv, uid) && Verified(nv, nv', uid, pin, maxAttempts, r, true, fate)
    ensures Verified(nv, nv', uid, pin, maxAttempts, r, hidden, fate)
  {
    assert VerifyLeaves(nv, nv', uid, pin, maxAttempts, r, true, fate);
    assert VerifyLeaves(nv, nv', uid, pin, maxAttempts, r, hidden, fate);
  }
}
