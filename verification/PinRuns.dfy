/**
 Whole runs of `PinManager` operations: what survives any schedule, and what an undisturbed run
 computes.
 */
module PinRuns {
  import opened Wrappers
  import opened PinCodec
  import opened PinErrors
  import opened PinIndex
  import opened Tpm
  import opened PinContracts
  import opened Accounts
  import opened PinManagement
  import opened PinHistories

  datatype Operation =
    | SetupOp(uid: nat, pin: string)
    | VerifyOp(uid: nat, pin: string)
    | DeleteOp(uid: nat)
    | DeleteWithAuthOp(uid: nat, pin: string)
    | LockedOp(uid: nat)
    | CountOp(uid: nat)

  datatype OpResult =
    | Plain(done: Result<(), PinError>)
    | Verified(verified: Result<VerificationResult, PinError>)
    | DeletedWithAuth(deleted: Result<DeleteResult, PinError>)
    | LockedAnswer(locked: Result<bool, PinError>)
    | CountAnswer(count: Result<Option<u32>, PinError>)

  /** A result that lets somebody in on the strength of a PIN. */
  predicate Authenticates(result: OpResult) {
    || (result.Verified? && result.verified.Ok? && result.verified.value.Success?)
    || (result.DeletedWithAuth? && result.deleted == Ok(Deleted))
  }

  // ---- The simple machine, one operation ----

  function Refuse(op: Operation, error: PinError): OpResult {
    match op
    case SetupOp(_, _) => Plain(Err(error))
    case VerifyOp(_, _) => Verified(Err(error))
    case DeleteOp(_) => Plain(Err(error))
    case DeleteWithAuthOp(_, _) => DeletedWithAuth(Err(error))
    case LockedOp(_) => LockedAnswer(Err(error))
    case CountOp(_) => CountAnswer(Err(error))
  }

  function Simple(a: Account, op: Operation, maxAttempts: u32, refusal: Kind): (OpResult, Account) {
    if op.uid > PIN_VERSION_UID_MAX then (Refuse(op, UidOverflow(op.uid)), a) else
    match op
    case SetupOp(uid, pin) => var (r, a') := Setup(a, uid, pin, maxAttempts); (Plain(r), a')
    case VerifyOp(uid, pin) => var (r, a') := Verify(a, uid, pin, maxAttempts, refusal); (Verified(r), a')
    case DeleteOp(uid) => var (r, a') := DeleteAdmin(a, uid); (Plain(r), a')
    case DeleteWithAuthOp(uid, pin) =>
      var (r, a') := DeleteWithAuth(a, uid, pin, maxAttempts, refusal); (DeletedWithAuth(r), a')
    case LockedOp(uid) => (LockedAnswer(Ok(Slot(a).Some? && Slot(a).value.CounterSpent())), a)
    case CountOp(uid) => (CountAnswer(Ok(if a.Holder? then Some(a.failures) else None)), a)
  }

  /** What the operation does to the tag beside the account. */
  function SimpleTag(a: Account, tag: TagState, op: Operation, maxAttempts: u32, refusal: Kind): TagState {
    if op.uid > PIN_VERSION_UID_MAX then tag else
    match op
    case SetupOp(uid, pin) => TagAfterSetup(a, tag, uid, pin, maxAttempts)
    case VerifyOp(uid, pin) => TagAfterVerify(a, tag, uid, pin, maxAttempts, refusal)
    case DeleteOp(_) => TagAfterDelete(a, tag)
    case DeleteWithAuthOp(uid, pin) => TagAfterDeleteWithAuth(a, tag, uid, pin, maxAttempts, refusal)
    case LockedOp(_) => tag
    case CountOp(_) => tag
  }

  /** One user's account after the first n operations of a run; other users' operations do not concern it. */
  function AccountAfter(a: Account, uid: nat, ops: seq<Operation>, n: nat, maxAttempts: u32, refusal: Kind): Account
    requires n <= |ops|
  {
    if n == 0 then a
    else
      var before := AccountAfter(a, uid, ops, n - 1, maxAttempts, refusal);
      if ops[n - 1].uid == uid then Simple(before, ops[n - 1], maxAttempts, refusal).1 else before
  }

  /** And the tag beside it. */
  function TagAfter(a: Account, tag: TagState, uid: nat, ops: seq<Operation>, n: nat, maxAttempts: u32, refusal: Kind)
    : TagState
    requires n <= |ops|
  {
    if n == 0 then tag
    else
      var before := AccountAfter(a, uid, ops, n - 1, maxAttempts, refusal);
      var tagBefore := TagAfter(a, tag, uid, ops, n - 1, maxAttempts, refusal);
      if ops[n - 1].uid == uid then SimpleTag(before, tagBefore, ops[n - 1], maxAttempts, refusal) else tagBefore
  }

  /** The operations of a run that belong to one user. */
  function OwnOperations(ops: seq<Operation>, uid: nat): seq<Operation> {
    if ops == [] then []
    else OwnOperations(ops[..|ops| - 1], uid) + if ops[|ops| - 1].uid == uid then [ops[|ops| - 1]] else []
  }

  lemma {:induction false} AccountOfPrefix(a: Account, tag: TagState, uid: nat, ops: seq<Operation>, n: nat, m: nat,
                                           maxAttempts: u32, refusal: Kind)
    requires n <= m <= |ops|
    ensures AccountAfter(a, uid, ops, n, maxAttempts, refusal)
            == AccountAfter(a, uid, ops[..m], n, maxAttempts, refusal)
    ensures TagAfter(a, tag, uid, ops, n, maxAttempts, refusal)
            == TagAfter(a, tag, uid, ops[..m], n, maxAttempts, refusal)
  {
    if n > 0 {
      AccountOfPrefix(a, tag, uid, ops, n - 1, m, maxAttempts, refusal);
    }
  }

  /** A user's account and tag depend on that user's own operations and their order, and on nothing else of the run. */
  lemma {:induction false} OnlyOwnOperationsMatter(a: Account, tag: TagState, uid: nat, ops: seq<Operation>,
                                                   maxAttempts: u32, refusal: Kind)
    ensures var own := OwnOperations(ops, uid);
            && AccountAfter(a, uid, ops, |ops|, maxAttempts, refusal)
               == AccountAfter(a, uid, own, |own|, maxAttempts, refusal)
            && TagAfter(a, tag, uid, ops, |ops|, maxAttempts, refusal)
               == TagAfter(a, tag, uid, own, |own|, maxAttempts, refusal)
  {
    if ops != [] {
      var rest := ops[..|ops| - 1];
      var ownRest := OwnOperations(rest, uid);
      OnlyOwnOperationsMatter(a, tag, uid, rest, maxAttempts, refusal);
      AccountOfPrefix(a, tag, uid, ops, |rest|, |rest|, maxAttempts, refusal);
      if ops[|ops| - 1].uid == uid {
        var own := ownRest + [ops[|ops| - 1]];
        AccountOfPrefix(a, tag, uid, own, |ownRest|, |ownRest|, maxAttempts, refusal);
        assert own[..|ownRest|] == ownRest;
      } else {
        assert OwnOperations(ops, uid) == ownRest;
      }
    }
  }

  /** Two interleavings of the same per-user sequences end in the same account and tag for each user. */
  lemma InterleavingsAgree(a: Account, tag: TagState, uid: nat, ops: seq<Operation>, ops': seq<Operation>,
                           maxAttempts: u32, refusal: Kind)
    requires OwnOperations(ops, uid) == OwnOperations(ops', uid)
    ensures AccountAfter(a, uid, ops, |ops|, maxAttempts, refusal)
            == AccountAfter(a, uid, ops', |ops'|, maxAttempts, refusal)
    ensures TagAfter(a, tag, uid, ops, |ops|, maxAttempts, refusal)
            == TagAfter(a, tag, uid, ops', |ops'|, maxAttempts, refusal)
  {
    OnlyOwnOperationsMatter(a, tag, uid, ops, maxAttempts, refusal);
    OnlyOwnOperationsMatter(a, tag, uid, ops', maxAttempts, refusal);
  }

  /** Another user's operation cannot be seen from this user's account. */
  lemma ElsewhereKeepsView(nv: Store, nv': Store, owner: nat, uid: nat)
    requires owner != uid && owner <= PIN_VERSION_UID_MAX && uid <= PIN_VERSION_UID_MAX
    requires SameElsewhere(owner, nv, nv') && Shaped(nv, uid)
    ensures Shaped(nv', uid) && View(nv', uid) == View(nv, uid) && TagIn(nv', uid) == TagIn(nv, uid)
  {
    var others := nv - {SlotOf(owner), TagOf(owner)};
    var others' := nv' - {SlotOf(owner), TagOf(owner)};
    assert SlotOf(uid) in nv <==> SlotOf(uid) in others;
    assert SlotOf(uid) in nv' <==> SlotOf(uid) in others';
    assert TagOf(uid) in nv <==> TagOf(uid) in others;
    assert TagOf(uid) in nv' <==> TagOf(uid) in others';
  }

  // ---- Lockout over runs ----

  /**
   The TPM accepted a guess for this slot between two points of a history, after somebody had undefined the spent slot.
   */
  ghost predicate AcceptedAfterUndefine(h: seq<Step>, start: nat, lo: nat, hi: nat, index: nat)
    requires start <= lo <= hi <= |h|
  {
    exists j :: lo <= j < hi && AcceptsAt(h, j, index) && UndefinedIn(h, start, j, index)
  }

  /**
   Lockout safety: if the slot was spent in an earlier world, a PIN accepted since then was
   accepted after somebody undefined the slot.
   */
  lemma LockoutSafety(locked: World, w: World, later: World, uid: nat, pin: string)
    requires Consistent(locked) && SlotLocked(locked.nv, SlotOf(uid))
    requires Continues(locked, w) && Continues(w, later)
    requires PinAccepted(w, later, uid, pin)
    ensures AcceptedAfterUndefine(later.history, |locked.history|, |w.history|, |later.history|, SlotOf(uid))
  {
    var h, slot := later.history, SlotOf(uid);
    assert TakesPin(w, later, uid, pin);
    assert exists j :: |w.history| <= j < |h| && AcceptsAt(h, j, slot);
    var j :| |w.history| <= j < |h| && AcceptsAt(h, j, slot);
    assert h[..|locked.history|] == locked.history;
    assert Before(h, |locked.history|) == locked.nv;
    AcceptanceNeedsUndefine(h, |locked.history|, j, slot);
  }

  /** Of the commands between two worlds, ours (or the others') are pinpam's. */
  ghost predicate KeepsToPinpam(w: World, later: World, mine: bool) {
    forall i | |w.history| <= i < |later.history| && later.history[i].mine == mine ::
      PinpamCommand(later.history[i].command)
  }

  /** A transcript: the worlds before and after each operation. */
  ghost predicate Transcript(worlds: seq<World>, ops: seq<Operation>, results: seq<OpResult>) {
    && |results| == |ops| && |worlds| == |ops| + 1
    && Consistent(worlds[0])
    && (forall k | 0 <= k < |ops| :: KeepsToPinpam(worlds[k], worlds[k + 1], true))
    && (forall i, k | 0 <= i <= k <= |ops| :: Continues(worlds[i], worlds[k]))
    && (forall k | 0 <= k < |ops| && Authenticates(results[k]) ::
          (ops[k].VerifyOp? || ops[k].DeleteWithAuthOp?)
              && PinAccepted(worlds[k], worlds[k + 1], ops[k].uid, ops[k].pin))
  }

  /** Whoever is let in after a slot was seen spent got in after somebody undefined that slot. */
  ghost predicate LockoutHolds(worlds: seq<World>, ops: seq<Operation>, results: seq<OpResult>)
    requires Transcript(worlds, ops, results)
  {
    forall i, k | 0 <= i <= k < |ops| && Authenticates(results[k]) && SlotLocked(worlds[i].nv, SlotOf(ops[k].uid)) ::
      AcceptedAfterUndefine(worlds[k + 1].history, |worlds[i].history|, |worlds[k].history|, |worlds[k + 1].history|,
                            SlotOf(ops[k].uid))
  }

  lemma LockoutOverRuns(worlds: seq<World>, ops: seq<Operation>, results: seq<OpResult>)
    requires Transcript(worlds, ops, results)
    ensures LockoutHolds(worlds, ops, results)
  {
    forall i, k | 0 <= i <= k < |ops| && Authenticates(results[k]) && SlotLocked(worlds[i].nv, SlotOf(ops[k].uid))
      ensures AcceptedAfterUndefine(worlds[k + 1].history, |worlds[i].history|, |worlds[k].history|,
                                    |worlds[k + 1].history|, SlotOf(ops[k].uid))
    {
      assert Continues(worlds[0], worlds[i]) && Continues(worlds[i], worlds[k]) && Continues(worlds[k], worlds[k + 1]);
      LockoutSafety(worlds[i], worlds[k], worlds[k + 1], ops[k].uid, ops[k].pin);
    }
  }

  // ---- Accounting over runs ----

  /** The store explains itself: this user's slot is in shape, and its counter is what its history says. */
  ghost predicate AccountedFor(w: World, uid: nat)
    requires uid <= PIN_VERSION_UID_MAX
  {
    var h, slot := w.history, SlotOf(uid);
    && Shaped(w.nv, uid)
    && (slot in w.nv && w.nv[slot].written ==>
          && Sealed(w.nv, slot) && w.nv[slot].count <= w.nv[slot].limit
          && w.nv[slot].count == Rejections(h, LastReset(h, |h|, slot), |h|, slot))
  }

  lemma PinpamIsAccountedFor(w: World, uid: nat)
    requires Consistent(w) && PinpamHistory(w.history) && uid <= PIN_VERSION_UID_MAX
    ensures AccountedFor(w, uid)
  {
    var h := w.history;
    assert h[..|h|] == h && w.nv == Replay(h);
    ReachableStoresAreShaped(h, uid);
    if Sealed(w.nv, SlotOf(uid)) {
      ExactAccounting(h, uid, |h|);
    }
  }

  /** Our own operations keep to pinpam's commands; if the others do, so does the whole history. */
  lemma {:induction false} RunKeepsToPinpam(worlds: seq<World>, ops: seq<Operation>, results: seq<OpResult>, k: nat)
    requires Transcript(worlds, ops, results) && k <= |ops| && PinpamHistory(worlds[0].history)
    requires KeepsToPinpam(worlds[0], worlds[|ops|], false)
    ensures PinpamHistory(worlds[k].history)
  {
    if k > 0 {
      RunKeepsToPinpam(worlds, ops, results, k - 1);
      var w, later, last := worlds[k - 1], worlds[k], worlds[|ops|];
      assert Continues(worlds[0], w) && Continues(w, later) && Continues(later, last);
      assert KeepsToPinpam(w, later, true);
      forall i | 0 <= i < |later.history|
        ensures PinpamCommand(later.history[i].command)
      {
        if i < |w.history| {
          assert later.history[i] == w.history[i];
        } else {
          assert last.history[i] == later.history[i];
        }
      }
    }
  }

  /** Whoever interferes, as long as it is pinpam: at every point of a run every counter is accounted for. */
  ghost predicate AccountingHolds(worlds: seq<World>) {
    forall k, uid | 0 <= k < |worlds| && 0 <= uid <= PIN_VERSION_UID_MAX ::
      PinpamHistory(worlds[k].history) && AccountedFor(worlds[k], uid)
  }

  lemma AccountingOverRuns(worlds: seq<World>, ops: seq<Operation>, results: seq<OpResult>)
    requires Transcript(worlds, ops, results)
    ensures PinpamHistory(worlds[0].history) && KeepsToPinpam(worlds[0], worlds[|ops|], false) ==>
              AccountingHolds(worlds)
  {
    forall k, uid | 0 <= k < |worlds| && 0 <= uid <= PIN_VERSION_UID_MAX && PinpamHistory(worlds[0].history)
                    && KeepsToPinpam(worlds[0], worlds[|ops|], false)
      ensures PinpamHistory(worlds[k].history) && AccountedFor(worlds[k], uid)
    {
      RunKeepsToPinpam(worlds, ops, results, k);
      assert Continues(worlds[0], worlds[k]);
      PinpamIsAccountedFor(worlds[k], uid);
    }
  }

  // ---- Stages over runs ----

  predicate AllShaped(nv: Store) {
    forall uid | 0 <= uid <= PIN_VERSION_UID_MAX :: SlotShaped(nv, uid) && TagShaped(nv, uid)
  }

  /** Where an operation whose commands may fail leaves its account. */
  predicate OpStage(a: Account, a': Account, op: Operation, maxAttempts: u32) {
    match op
    case SetupOp(_, pin) => SetupStage(a, a', pin, maxAttempts)
    case VerifyOp(_, pin) => VerifyStage(a, a', pin, maxAttempts, false) || VerifyStage(a, a', pin, maxAttempts, true)
    case DeleteOp(_) => a' == a || a' == Empty
    case DeleteWithAuthOp(_, pin) =>
      DeleteStage(a, a', pin, maxAttempts, false) || DeleteStage(a, a', pin, maxAttempts, true)
    case LockedOp(_) => a' == a
    case CountOp(_) => a' == a
  }

  predicate OpLeaves(nv: Store, nv': Store, op: Operation, maxAttempts: u32) {
    if op.uid > PIN_VERSION_UID_MAX then nv' == nv
    else Shaped(nv, op.uid) ==>
      && Shaped(nv', op.uid) && SameElsewhere(op.uid, nv, nv')
      && OpStage(View(nv, op.uid), View(nv', op.uid), op, maxAttempts)
  }

  /** The same, stated so that proofs open it only where they mention `OpLeaves`. */
  ghost predicate Staged(nv: Store, nv': Store, op: Operation, maxAttempts: u32) {
    forall v :: v == nv' ==> OpLeaves(nv, v, op, maxAttempts)
  }

  /** Every operation of a run ends at one of its stages. */
  ghost predicate StagedRun(worlds: seq<World>, ops: seq<Operation>, maxAttempts: u32) {
    && |worlds| == |ops| + 1
    && forall k | 0 <= k < |ops| :: Staged(worlds[k].nv, worlds[k + 1].nv, ops[k], maxAttempts)
  }

  lemma VerifiedIsStaged(nv: Store, nv': Store, op: Operation, maxAttempts: u32,
                         r: Result<VerificationResult, PinError>, hidden: bool, fate: Fate)
    requires op.VerifyOp? && op.uid <= PIN_VERSION_UID_MAX
    requires Accounts.Verified(nv, nv', op.uid, op.pin, maxAttempts, r, hidden, fate)
    ensures Staged(nv, nv', op, maxAttempts)
  {
    assert VerifyLeaves(nv, nv', op.uid, op.pin, maxAttempts, r, hidden, fate);
    assert OpLeaves(nv, nv', op, maxAttempts);
  }

  lemma ErasedIsStaged(nv: Store, nv': Store, op: Operation, maxAttempts: u32, success: bool, hidden: bool)
    requires op.DeleteWithAuthOp? && op.uid <= PIN_VERSION_UID_MAX
    requires Erased(nv, nv', op.uid, op.pin, maxAttempts, success, hidden)
    ensures Staged(nv, nv', op, maxAttempts)
  {
    assert DeletionLeaves(nv, nv', op.uid, op.pin, maxAttempts, success, hidden);
    assert OpLeaves(nv, nv', op, maxAttempts);
  }

  lemma StagedStep(nv: Store, nv': Store, op: Operation, maxAttempts: u32, uid: nat)
    requires Staged(nv, nv', op, maxAttempts) && uid <= PIN_VERSION_UID_MAX && Shaped(nv, uid)
    requires op.uid <= PIN_VERSION_UID_MAX ==> Shaped(nv, op.uid)
    ensures Shaped(nv', uid)
    ensures if op.uid == uid then OpStage(View(nv, uid), View(nv', uid), op, maxAttempts)
            else View(nv', uid) == View(nv, uid)
  {
    assert OpLeaves(nv, nv', op, maxAttempts);
    if op.uid <= PIN_VERSION_UID_MAX && op.uid != uid {
      ElsewhereKeepsView(nv, nv', op.uid, uid);
    }
  }

  lemma {:induction false} StagedRunKeepsShape(worlds: seq<World>, ops: seq<Operation>, maxAttempts: u32, k: nat)
    requires StagedRun(worlds, ops, maxAttempts) && k <= |ops| && AllShaped(worlds[0].nv)
    ensures AllShaped(worlds[k].nv)
  {
    if k > 0 {
      StagedRunKeepsShape(worlds, ops, maxAttempts, k - 1);
      forall uid | 0 <= uid <= PIN_VERSION_UID_MAX
        ensures SlotShaped(worlds[k].nv, uid) && TagShaped(worlds[k].nv, uid)
      {
        assert SlotShaped(worlds[k - 1].nv, uid) && TagShaped(worlds[k - 1].nv, uid);
        if ops[k - 1].uid <= PIN_VERSION_UID_MAX {
          assert SlotShaped(worlds[k - 1].nv, ops[k - 1].uid) && TagShaped(worlds[k - 1].nv, ops[k - 1].uid);
        }
        StagedStep(worlds[k - 1].nv, worlds[k].nv, ops[k - 1], maxAttempts, uid);
      }
    }
  }

  /** A locked account does not move, whatever fails, but for an administrator's deletion. */
  lemma LockedStage(a: Account, a': Account, op: Operation, maxAttempts: u32)
    requires Locked(a) && OpStage(a, a', op, maxAttempts) && !op.DeleteOp?
    ensures a' == a
  {
  }

  /**
   Over a whole run in which nobody else uses the TPM and any command may fail: once locked, an account keeps its
   secret, its counter and its limit until an administrator deletes it.
   */
  lemma {:induction false} LockedUntilDeleted(worlds: seq<World>, ops: seq<Operation>, maxAttempts: u32, uid: nat,
                                              i: nat, k: nat)
    requires StagedRun(worlds, ops, maxAttempts) && AllShaped(worlds[0].nv) && uid <= PIN_VERSION_UID_MAX
    requires i <= k <= |ops|
    requires Shaped(worlds[i].nv, uid) && Locked(View(worlds[i].nv, uid))
    requires forall j | i <= j < k && ops[j].uid == uid :: !ops[j].DeleteOp?
    ensures Shaped(worlds[k].nv, uid) && View(worlds[k].nv, uid) == View(worlds[i].nv, uid)
  {
    if i < k {
      LockedUntilDeleted(worlds, ops, maxAttempts, uid, i, k - 1);
      StagedRunKeepsShape(worlds, ops, maxAttempts, k - 1);
      var nv, nv', op := worlds[k - 1].nv, worlds[k].nv, ops[k - 1];
      if op.uid <= PIN_VERSION_UID_MAX {
        assert SlotShaped(nv, op.uid) && TagShaped(nv, op.uid);
      }
      StagedStep(nv, nv', op, maxAttempts, uid);
      if op.uid == uid {
        LockedStage(View(nv, uid), View(nv', uid), op, maxAttempts);
      }
    }
  }

  // ---- Simulation over runs ----

  /** An index that belongs to no user. */
  predicate IsForeign(index: nat) {
    index < SlotOf(0) || index > TagOf(PIN_VERSION_UID_MAX)
  }

  ghost predicate ForeignKept(nv: Store, nv': Store) {
    forall index | IsForeign(index) :: (index in nv <==> index in nv') && (index in nv ==> nv'[index] == nv[index])
  }

  /** One user's account and tag are where the simple machine says they are after n operations. */
  ghost predicate SimulatesFor(start: Store, nv: Store, ops: seq<Operation>, n: nat, maxAttempts: u32, refusal: Kind,
                               uid: nat)
    requires SlotShaped(start, uid) && n <= |ops|
  {
    && SlotShaped(nv, uid) && TagShaped(nv, uid)
    && View(nv, uid) == AccountAfter(View(start, uid), uid, ops, n, maxAttempts, refusal)
    && TagIn(nv, uid) == TagAfter(View(start, uid), TagIn(start, uid), uid, ops, n, maxAttempts, refusal)
  }

  /** So are every user's. */
  ghost predicate EveryoneSimulates(start: Store, nv: Store, ops: seq<Operation>, n: nat, maxAttempts: u32,
                                    refusal: Kind)
    requires AllShaped(start) && n <= |ops|
  {
    forall uid | 0 <= uid <= PIN_VERSION_UID_MAX ::
      SlotShaped(start, uid) && SimulatesFor(start, nv, ops, n, maxAttempts, refusal, uid)
  }

  /** And no other index has changed. */
  ghost predicate Simulates(start: Store, nv: Store, ops: seq<Operation>, n: nat, maxAttempts: u32, refusal: Kind)
    requires AllShaped(start) && n <= |ops|
  {
    ForeignKept(start, nv) && EveryoneSimulates(start, nv, ops, n, maxAttempts, refusal)
  }

  /** What the simple machine answers to operation k. */
  function SimpleResult(start: Store, ops: seq<Operation>, k: nat, maxAttempts: u32, refusal: Kind): OpResult
    requires AllShaped(start) && k < |ops|
  {
    var uid := ops[k].uid;
    if uid > PIN_VERSION_UID_MAX then Refuse(ops[k], UidOverflow(uid))
    else Simple(AccountAfter(View(start, uid), uid, ops, k, maxAttempts, refusal), ops[k], maxAttempts, refusal).0
  }

  /**
   Nor do their answers: an operation answers alike in any two runs that give its user the same operations before it.
   */
  lemma AnswersAgree(start: Store, ops: seq<Operation>, k: nat, ops': seq<Operation>, k': nat, maxAttempts: u32,
                     refusal: Kind)
    requires AllShaped(start) && k < |ops| && k' < |ops'| && ops[k] == ops'[k']
    requires OwnOperations(ops[..k], ops[k].uid) == OwnOperations(ops'[..k'], ops[k].uid)
    ensures SimpleResult(start, ops, k, maxAttempts, refusal) == SimpleResult(start, ops', k', maxAttempts, refusal)
  {
    var uid := ops[k].uid;
    if uid <= PIN_VERSION_UID_MAX {
      assert SlotShaped(start, uid);
      AccountOfPrefix(View(start, uid), NoTag, uid, ops, k, k, maxAttempts, refusal);
      AccountOfPrefix(View(start, uid), NoTag, uid, ops', k', k', maxAttempts, refusal);
      InterleavingsAgree(View(start, uid), NoTag, uid, ops[..k], ops'[..k'], maxAttempts, refusal);
    }
  }

  /** One operation of an undisturbed run, as the methods of the manager promise it. */
  ghost predicate Steps(nv: Store, nv': Store, op: Operation, result: OpResult, maxAttempts: u32, refusal: Kind) {
    if op.uid > PIN_VERSION_UID_MAX then nv' == nv && result == Refuse(op, UidOverflow(op.uid))
    else Shaped(nv, op.uid) ==>
      && Shaped(nv', op.uid) && SameElsewhere(op.uid, nv, nv')
      && (result, View(nv', op.uid)) == Simple(View(nv, op.uid), op, maxAttempts, refusal)
      && TagIn(nv', op.uid) == SimpleTag(View(nv, op.uid), TagIn(nv, op.uid), op, maxAttempts, refusal)
  }

  /** The same, stated so that proofs open it only where they mention `Steps`. */
  ghost predicate Stepped(nv: Store, nv': Store, op: Operation, result: OpResult, maxAttempts: u32, refusal: Kind) {
    forall v :: v == nv' ==> Steps(nv, v, op, result, maxAttempts, refusal)
  }

  lemma VerifiedIsStep(nv: Store, nv': Store, op: Operation, result: OpResult, maxAttempts: u32, refusal: Kind)
    requires op.VerifyOp? && op.uid <= PIN_VERSION_UID_MAX && result.Verified?
    requires VerifiedExactly(nv, nv', op.uid, op.pin, maxAttempts, refusal, result.verified)
    ensures Stepped(nv, nv', op, result, maxAttempts, refusal)
  {
    assert Ends(nv, nv', op.uid, op.pin, maxAttempts, refusal, result.verified);
    assert Steps(nv, nv', op, result, maxAttempts, refusal);
  }

  lemma DeletedIsStep(nv: Store, nv': Store, op: Operation, result: OpResult, maxAttempts: u32, refusal: Kind)
    requires op.DeleteWithAuthOp? && op.uid <= PIN_VERSION_UID_MAX && result.DeletedWithAuth?
    requires DeletedExactly(nv, nv', op.uid, op.pin, maxAttempts, refusal, result.deleted)
    ensures Stepped(nv, nv', op, result, maxAttempts, refusal)
  {
    assert DeletionEnds(nv, nv', op.uid, op.pin, maxAttempts, refusal, result.deleted);
    assert Steps(nv, nv', op, result, maxAttempts, refusal);
  }

  /** The user whose operation it is. */
  lemma OwnStep(start: Store, nv: Store, nv': Store, ops: seq<Operation>, k: nat, result: OpResult, maxAttempts: u32,
                refusal: Kind)
    requires k < |ops| && ops[k].uid <= PIN_VERSION_UID_MAX && SlotShaped(start, ops[k].uid)
    requires SimulatesFor(start, nv, ops, k, maxAttempts, refusal, ops[k].uid)
    requires Steps(nv, nv', ops[k], result, maxAttempts, refusal)
    ensures SimulatesFor(start, nv', ops, k + 1, maxAttempts, refusal, ops[k].uid)
  {
  }

  /** Any other user. */
  lemma OthersStep(start: Store, nv: Store, nv': Store, ops: seq<Operation>, k: nat, result: OpResult, maxAttempts: u32,
                   refusal: Kind, uid: nat)
    requires k < |ops| && uid <= PIN_VERSION_UID_MAX && uid != ops[k].uid && SlotShaped(start, uid)
    requires ops[k].uid <= PIN_VERSION_UID_MAX ==> Shaped(nv, ops[k].uid)
    requires SimulatesFor(start, nv, ops, k, maxAttempts, refusal, uid)
    requires Steps(nv, nv', ops[k], result, maxAttempts, refusal)
    ensures SimulatesFor(start, nv', ops, k + 1, maxAttempts, refusal, uid)
  {
    if ops[k].uid <= PIN_VERSION_UID_MAX {
      ElsewhereKeepsView(nv, nv', ops[k].uid, uid);
    }
  }

  lemma ForeignStep(start: Store, nv: Store, nv': Store, uid: nat)
    requires uid <= PIN_VERSION_UID_MAX && ForeignKept(start, nv) && SameElsewhere(uid, nv, nv')
    ensures ForeignKept(start, nv')
  {
    var mine := {SlotOf(uid), TagOf(uid)};
    forall index | IsForeign(index)
      ensures (index in start <==> index in nv') && (index in start ==> nv'[index] == start[index])
    {
      assert index !in mine && (index in start <==> index in nv);
      assert index in nv <==> index in nv - mine;
      assert index in nv' <==> index in nv' - mine;
    }
  }

  lemma OwnAnswer(start: Store, nv: Store, nv': Store, ops: seq<Operation>, k: nat, result: OpResult, maxAttempts: u32,
                  refusal: Kind)
    requires AllShaped(start) && k < |ops|
    requires ops[k].uid <= PIN_VERSION_UID_MAX ==>
               SlotShaped(start, ops[k].uid) && SimulatesFor(start, nv, ops, k, maxAttempts, refusal, ops[k].uid)
    requires Steps(nv, nv', ops[k], result, maxAttempts, refusal)
    ensures result == SimpleResult(start, ops, k, maxAttempts, refusal)
    ensures ops[k].uid <= PIN_VERSION_UID_MAX ==> SameElsewhere(ops[k].uid, nv, nv')
  {
  }

  lemma StepFor(start: Store, nv: Store, nv': Store, ops: seq<Operation>, k: nat, result: OpResult, maxAttempts: u32,
                refusal: Kind, uid: nat)
    requires AllShaped(start) && k < |ops| && uid <= PIN_VERSION_UID_MAX
    requires Simulates(start, nv, ops, k, maxAttempts, refusal)
    requires Steps(nv, nv', ops[k], result, maxAttempts, refusal)
    ensures SlotShaped(start, uid) && SimulatesFor(start, nv', ops, k + 1, maxAttempts, refusal, uid)
  {
    assert SimulatesFor(start, nv, ops, k, maxAttempts, refusal, uid);
    if uid == ops[k].uid {
      OwnStep(start, nv, nv', ops, k, result, maxAttempts, refusal);
    } else {
      if ops[k].uid <= PIN_VERSION_UID_MAX {
        assert SimulatesFor(start, nv, ops, k, maxAttempts, refusal, ops[k].uid);
      }
      OthersStep(start, nv, nv', ops, k, result, maxAttempts, refusal, uid);
    }
  }

  lemma EveryoneSteps(start: Store, nv: Store, nv': Store, ops: seq<Operation>, k: nat, n: nat, result: OpResult,
                      maxAttempts: u32, refusal: Kind)
    requires AllShaped(start) && k < n <= |ops| && n == k + 1
    requires Simulates(start, nv, ops, k, maxAttempts, refusal)
    requires Steps(nv, nv', ops[k], result, maxAttempts, refusal)
    ensures EveryoneSimulates(start, nv', ops, n, maxAttempts, refusal)
  {
    forall uid | 0 <= uid <= PIN_VERSION_UID_MAX
      ensures SlotShaped(start, uid) && SimulatesFor(start, nv', ops, n, maxAttempts, refusal, uid)
    {
      StepFor(start, nv, nv', ops, k, result, maxAttempts, refusal, uid);
    }
  }

  lemma SimulationStep(start: Store, nv: Store, nv': Store, ops: seq<Operation>, k: nat, result: OpResult,
                       maxAttempts: u32, refusal: Kind)
    requires AllShaped(start) && k < |ops|
    requires Simulates(start, nv, ops, k, maxAttempts, refusal)
    requires Stepped(nv, nv', ops[k], result, maxAttempts, refusal)
    ensures Simulates(start, nv', ops, k + 1, maxAttempts, refusal)
    ensures result == SimpleResult(start, ops, k, maxAttempts, refusal)
  {
    assert Steps(nv, nv', ops[k], result, maxAttempts, refusal);
    EveryoneSteps(start, nv, nv', ops, k, k + 1, result, maxAttempts, refusal);
    if ops[k].uid <= PIN_VERSION_UID_MAX {
      assert SimulatesFor(start, nv, ops, k, maxAttempts, refusal, ops[k].uid);
      OwnAnswer(start, nv, nv', ops, k, result, maxAttempts, refusal);
      ForeignStep(start, nv, nv', ops[k].uid);
    }
  }

  /** After n operations every account is where the simple machine says, and so was every answer. */
  ghost predicate AnswersSimply(start: Store, nv: Store, ops: seq<Operation>, n: nat, results: seq<OpResult>,
                                maxAttempts: u32, refusal: Kind)
    requires AllShaped(start) && n <= |ops|
  {
    && Simulates(start, nv, ops, n, maxAttempts, refusal)
    && |results| == n
    && forall k | 0 <= k < n :: results[k] == SimpleResult(start, ops, k, maxAttempts, refusal)
  }

  lemma NextAnswer(start: Store, nv: Store, nv': Store, ops: seq<Operation>, n: nat, results: seq<OpResult>,
                   result: OpResult, maxAttempts: u32, refusal: Kind)
    requires AllShaped(start) && n < |ops| && AnswersSimply(start, nv, ops, n, results, maxAttempts, refusal)
    requires Stepped(nv, nv', ops[n], result, maxAttempts, refusal)
    ensures AnswersSimply(start, nv', ops, n + 1, results + [result], maxAttempts, refusal)
  {
    SimulationStep(start, nv, nv', ops, n, result, maxAttempts, refusal);
  }

  // ---- Equal stores ----

  /** A user's entries are determined by the account and the tag. */
  lemma EntriesAreDetermined(nv: Store, nv': Store, uid: nat)
    requires Shaped(nv, uid) && Shaped(nv', uid) && View(nv, uid) == View(nv', uid) && TagIn(nv, uid) == TagIn(nv', uid)
    ensures SlotOf(uid) in nv <==> SlotOf(uid) in nv'
    ensures SlotOf(uid) in nv ==> nv[SlotOf(uid)] == nv'[SlotOf(uid)]
    ensures TagOf(uid) in nv <==> TagOf(uid) in nv'
    ensures TagOf(uid) in nv ==> nv[TagOf(uid)] == nv'[TagOf(uid)]
  {
  }

  /** Every index is foreign, a user's slot or a user's tag. */
  function OwnerOf(index: nat): nat
    requires !IsForeign(index)
    ensures OwnerOf(index) <= PIN_VERSION_UID_MAX
    ensures index == SlotOf(OwnerOf(index)) || index == TagOf(OwnerOf(index))
  {
    if index < TagOf(0) then index - SlotOf(0) else index - TagOf(0)
  }

  lemma UsersEndAlike(start: Store, nv: Store, nv': Store, ops: seq<Operation>, ops': seq<Operation>, maxAttempts: u32,
                      refusal: Kind, uid: nat)
    requires SlotShaped(start, uid) && OwnOperations(ops, uid) == OwnOperations(ops', uid)
    requires SimulatesFor(start, nv, ops, |ops|, maxAttempts, refusal, uid)
    requires SimulatesFor(start, nv', ops', |ops'|, maxAttempts, refusal, uid)
    ensures SlotOf(uid) in nv <==> SlotOf(uid) in nv'
    ensures SlotOf(uid) in nv ==> nv[SlotOf(uid)] == nv'[SlotOf(uid)]
    ensures TagOf(uid) in nv <==> TagOf(uid) in nv'
    ensures TagOf(uid) in nv ==> nv[TagOf(uid)] == nv'[TagOf(uid)]
  {
    InterleavingsAgree(View(start, uid), TagIn(start, uid), uid, ops, ops', maxAttempts, refusal);
    EntriesAreDetermined(nv, nv', uid);
  }

  ghost predicate SameOwnOperations(ops: seq<Operation>, ops': seq<Operation>) {
    forall uid | 0 <= uid <= PIN_VERSION_UID_MAX :: OwnOperations(ops, uid) == OwnOperations(ops', uid)
  }

  predicate SameAt(nv: Store, nv': Store, index: nat) {
    (index in nv <==> index in nv') && (index in nv ==> nv[index] == nv'[index])
  }

  lemma IndexEndsAlike(start: Store, nv: Store, nv': Store, ops: seq<Operation>, ops': seq<Operation>, maxAttempts: u32,
                       refusal: Kind, index: nat)
    requires AllShaped(start) && SameOwnOperations(ops, ops')
    requires Simulates(start, nv, ops, |ops|, maxAttempts, refusal)
             && Simulates(start, nv', ops', |ops'|, maxAttempts, refusal)
    ensures SameAt(nv, nv', index)
  {
    if !IsForeign(index) {
      var uid := OwnerOf(index);
      assert SimulatesFor(start, nv, ops, |ops|, maxAttempts, refusal, uid);
      assert SimulatesFor(start, nv', ops', |ops'|, maxAttempts, refusal, uid);
      UsersEndAlike(start, nv, nv', ops, ops', maxAttempts, refusal, uid);
    }
  }

  lemma SameEverywhere(nv: Store, nv': Store)
    requires forall index: nat :: SameAt(nv, nv', index)
    ensures nv == nv'
  {
    forall index: nat
      ensures (index in nv <==> index in nv') && (index in nv ==> nv[index] == nv'[index])
    {
      assert SameAt(nv, nv', index);
    }
    assert nv.Keys == nv'.Keys;
  }

  /**
   Users do not interfere: two undisturbed runs from the same store that give every user the same operations in the same
   order, however they are interleaved, end in the same store.
   */
  lemma InterleavingsEndAlike(start: Store, nv: Store, nv': Store, ops: seq<Operation>, ops': seq<Operation>,
                              maxAttempts: u32, refusal: Kind)
    requires AllShaped(start) && SameOwnOperations(ops, ops')
    requires Simulates(start, nv, ops, |ops|, maxAttempts, refusal)
             && Simulates(start, nv', ops', |ops'|, maxAttempts, refusal)
    ensures nv == nv'
  {
    forall index: nat
      ensures SameAt(nv, nv', index)
    {
      IndexEndsAlike(start, nv, nv', ops, ops', maxAttempts, refusal, index);
    }
    SameEverywhere(nv, nv');
  }

  lemma OwnCommandsArePinpam(uid: nat, maxAttempts: u32, w: World, later: World)
    requires Stretch(uid, maxAttempts, w, later)
    requires uid > PIN_VERSION_UID_MAX ==> later == w
    ensures KeepsToPinpam(w, later, true)
  {
  }

  /** What every operation promises, tier by tier. */
  twostate predicate Performs(m: PinManager, op: Operation, result: OpResult)
    reads m.device
  {
    && Continues(old(m.device.World()), m.device.World()) && old(m.device.clock) <= m.device.clock
    && (if op.uid <= PIN_VERSION_UID_MAX
        then ActsFor(op.uid, m.maxAttempts, old(m.device.World()), m.device.World())
        else m.device.World() == old(m.device.World()))
    && (old(Consistent(m.device.World())) && Authenticates(result) ==>
          && (op.VerifyOp? || op.DeleteWithAuthOp?)
          && PinAccepted(old(m.device.World()), m.device.World(), op.uid, op.pin))
    && KeepsToPinpam(old(m.device.World()), m.device.World(), true)
    && (old(Solo(m.device.turns, m.device.clock)) ==> Staged(old(m.device.nv), m.device.nv, op, m.maxAttempts))
    && (old(Quiet(m.device.turns, m.device.clock)) ==>
          Stepped(old(m.device.nv), m.device.nv, op, result, m.maxAttempts,
                  old(m.device.turns(m.device.clock)).refusal))
  }

  method PerformVerify(m: PinManager, op: Operation) returns (result: OpResult)
    requires op.VerifyOp?
    modifies m.device
    ensures Performs(m, op, result)
  {
    ghost var start := m.device.World();
    ghost var hidden, fate := HidesIndex(m.device.turns(start.clock)), m.device.turns(start.clock + 2).fate;
    var r := m.VerifyPin(op.uid, op.pin);
    result := Verified(r);
    ActsForOpens(op.uid, m.maxAttempts, start, m.device.World());
    OwnCommandsArePinpam(op.uid, m.maxAttempts, start, m.device.World());
    if op.uid <= PIN_VERSION_UID_MAX && Shaped(start.nv, op.uid) {
      if Solo(m.device.turns, start.clock) {
        VerifiedIsStaged(start.nv, m.device.nv, op, m.maxAttempts, r, hidden, fate);
      }
      if Quiet(m.device.turns, start.clock) {
        VerifiedIsStep(start.nv, m.device.nv, op, result, m.maxAttempts, m.device.turns(start.clock).refusal);
      }
    }
  }

  method PerformDeleteWithAuth(m: PinManager, op: Operation) returns (result: OpResult)
    requires op.DeleteWithAuthOp?
    modifies m.device
    ensures Performs(m, op, result)
  {
    ghost var start, hidden := m.device.World(), HidesIndex(m.device.turns(m.device.clock));
    var r := m.DeletePinWithAuth(op.uid, op.pin);
    result := DeletedWithAuth(r);
    ActsForOpens(op.uid, m.maxAttempts, start, m.device.World());
    OwnCommandsArePinpam(op.uid, m.maxAttempts, start, m.device.World());
    if op.uid <= PIN_VERSION_UID_MAX && Shaped(start.nv, op.uid) {
      if Solo(m.device.turns, start.clock) {
        ErasedIsStaged(start.nv, m.device.nv, op, m.maxAttempts, r == Ok(Deleted), hidden);
      }
      if Quiet(m.device.turns, start.clock) {
        DeletedIsStep(start.nv, m.device.nv, op, result, m.maxAttempts, m.device.turns(start.clock).refusal);
      }
    }
  }

  /** Issue one operation. */
  method Perform(m: PinManager, op: Operation) returns (result: OpResult)
    modifies m.device
    ensures Performs(m, op, result)
  {
    ghost var start := m.device.World();
    match op {
    case SetupOp(uid, pin) => var r := m.SetupPin(uid, pin); result := Plain(r);
    case VerifyOp(_, _) => result := PerformVerify(m, op); return;
    case DeleteOp(uid) => var r := m.DeletePinAdmin(uid); result := Plain(r);
    case DeleteWithAuthOp(_, _) => result := PerformDeleteWithAuth(m, op); return;
    case LockedOp(uid) => var r := m.IsLockedOut(uid); result := LockedAnswer(r);
    case CountOp(uid) => var r := m.GetAttemptCount(uid); result := CountAnswer(r);
    }
    ActsForOpens(op.uid, m.maxAttempts, start, m.device.World());
    OwnCommandsArePinpam(op.uid, m.maxAttempts, start, m.device.World());
  }

  /**
   Run a sequence of operations. Under every schedule the lockout holds, and as long as every process that interferes
   is pinpam, every counter is accounted for at every point. If nobody else uses the TPM, every operation ends at one of
   its stages, whatever fails; on an undisturbed schedule every result and every account is what the simple machine
   computes.
   */
  method Run(m: PinManager, ops: seq<Operation>) returns (results: seq<OpResult>, ghost worlds: seq<World>)
    requires Consistent(m.device.World())
    modifies m.device
    ensures Transcript(worlds, ops, results) && LockoutHolds(worlds, ops, results)
    ensures worlds[0] == old(m.device.World()) && worlds[|ops|] == m.device.World()
    ensures old(PinpamHistory(m.device.history)) && KeepsToPinpam(old(m.device.World()), m.device.World(), false) ==>
              AccountingHolds(worlds)
    ensures old(Solo(m.device.turns, m.device.clock)) ==> StagedRun(worlds, ops, m.maxAttempts)
    ensures old(Quiet(m.device.turns, m.device.clock) && AllShaped(m.device.nv)) ==>
              AnswersSimply(old(m.device.nv), m.device.nv, ops, |ops|, results, m.maxAttempts,
                            old(m.device.turns(m.device.clock)).refusal)
  {
    results := [];
    worlds := [m.device.World()];
    ghost var start, solo := m.device.World(), Solo(m.device.turns, m.device.clock);
    ghost var undisturbed := Quiet(m.device.turns, m.device.clock) && AllShaped(m.device.nv);
    ghost var refusal := m.device.turns(m.device.clock).refusal;
    var n := 0;
    while n < |ops|
      invariant 0 <= n <= |ops|
      invariant Transcript(worlds, ops[..n], results)
      invariant worlds[0] == start && worlds[n] == m.device.World()
      invariant solo ==> StagedRun(worlds, ops[..n], m.maxAttempts)
      invariant start.clock <= m.device.clock
      invariant undisturbed ==> AnswersSimply(start.nv, m.device.nv, ops, n, results, m.maxAttempts, refusal)
    {
      ghost var nv := m.device.nv;
      var result := Perform(m, ops[n]);
      if undisturbed {
        NextAnswer(start.nv, nv, m.device.nv, ops, n, results, result, m.maxAttempts, refusal);
      }
      if solo {
        StagedRunGrows(worlds, ops, n, m.device.World(), m.maxAttempts);
      }
      TranscriptGrows(worlds, ops, n, results, m.device.World(), result);
      results := results + [result];
      worlds := worlds + [m.device.World()];
      n := n + 1;
    }
    assert ops[..|ops|] == ops;
    LockoutOverRuns(worlds, ops, results);
    AccountingOverRuns(worlds, ops, results);
  }

  lemma StagedRunGrows(worlds: seq<World>, ops: seq<Operation>, n: nat, w: World, maxAttempts: u32)
    requires n < |ops| && StagedRun(worlds, ops[..n], maxAttempts) && Staged(worlds[n].nv, w.nv, ops[n], maxAttempts)
    ensures StagedRun(worlds + [w], ops[..n + 1], maxAttempts)
  {
    var worlds' := worlds + [w];
    forall k | 0 <= k < n + 1
      ensures Staged(worlds'[k].nv, worlds'[k + 1].nv, ops[..n + 1][k], maxAttempts)
    {
      assert k < n ==> ops[..n][k] == ops[k];
    }
  }

  lemma TranscriptGrows(worlds: seq<World>, ops: seq<Operation>, n: nat, results: seq<OpResult>, w: World,
                        result: OpResult)
    requires n < |ops| && Transcript(worlds, ops[..n], results)
    requires Continues(worlds[n], w) && KeepsToPinpam(worlds[n], w, true)
    requires Authenticates(result) ==>
               (ops[n].VerifyOp? || ops[n].DeleteWithAuthOp?) && PinAccepted(worlds[n], w, ops[n].uid, ops[n].pin)
    ensures Transcript(worlds + [w], ops[..n + 1], results + [result])
  {
    var worlds' := worlds + [w];
    forall i, k | 0 <= i <= k <= n + 1
      ensures Continues(worlds'[i], worlds'[k])
    {
      if i <= n {
        assert Continues(worlds[i], worlds[n]);
      }
    }
    forall k | 0 <= k <= n
      ensures KeepsToPinpam(worlds'[k], worlds'[k + 1], true)
    {
      assert k < n ==> KeepsToPinpam(worlds[k], worlds[k + 1], true);
    }
    forall k | 0 <= k < n && Authenticates(results[k])
      ensures (ops[k].VerifyOp? || ops[k].DeleteWithAuthOp?) &&
              PinAccepted(worlds'[k], worlds'[k + 1], ops[k].uid, ops[k].pin)
    {
      assert ops[..n][k] == ops[k];
    }
  }
}
