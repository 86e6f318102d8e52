/**
 The vocabulary of the manager's contracts: what a stretch of a run may contain, and when the schedule lets a
 stretch run alone or undisturbed.
 */
module PinContracts {
  import opened PinCodec
  import opened PinErrors
  import opened PinIndex
  import opened Text
  import opened Tpm

  const PIN_VERSION_CURRENT: u8 := 2
  const PIN_VERSION_TAG_SIZE := 1

  /** `Auth::try_from` takes at most the size of the largest digest. */
  const MAX_AUTH_BUFFER := 64

  /** The payload of a slot's only write: no failures yet, and the policy's limit cast to a C int. */
  function InitialPayload(maxAttempts: u32): Payload {
    Encode(PinData(0, AsSigned(maxAttempts)))
  }

  /** Every command pinpam ever sends on behalf of one user. */
  predicate Repertoire(c: Command, uid: nat, maxAttempts: u32) {
    match c
    case Session => true
    case ReadPublic(i) => i == SlotOf(uid) || i == TagOf(uid)
    case ReadOwner(i) => i == SlotOf(uid) || i == TagOf(uid)
    case Undefine(i) => i == SlotOf(uid) || i == TagOf(uid)
    case ReadAuth(i, _) => i == SlotOf(uid)
    case DefinePin(i, _, ownerWrite) => i == SlotOf(uid) && !ownerWrite
    case DefineOrdinary(i, size) => i == TagOf(uid) && size == PIN_VERSION_TAG_SIZE
    case WriteUnwritten(i, p) => i == SlotOf(uid) && p == InitialPayload(maxAttempts)
    case WriteOwner(i, p) => i == TagOf(uid) && p == Raw([PIN_VERSION_CURRENT])
  }

  /** A stretch of a run in which our own commands stay within one user's repertoire. */
  ghost predicate Stretch(uid: nat, maxAttempts: u32, w: World, later: World) {
    && Continues(w, later)
    && forall i | |w.history| <= i < |later.history| && later.history[i].mine ::
         Repertoire(later.history[i].command, uid, maxAttempts)
  }

  /** The same, stated so that proofs open it only where they mention `Stretch`. */
  ghost predicate ActsFor(uid: nat, maxAttempts: u32, w: World, later: World) {
    && w.clock <= later.clock
    && forall v :: v == later ==> Stretch(uid, maxAttempts, w, v)
  }

  lemma ActsForOpens(uid: nat, maxAttempts: u32, w: World, later: World)
    requires ActsFor(uid, maxAttempts, w, later)
    ensures Stretch(uid, maxAttempts, w, later)
  {
  }

  lemma ActsForIsTransitive(uid: nat, maxAttempts: u32)
    ensures forall a, b, c ::
              ActsFor(uid, maxAttempts, a, b) && ActsFor(uid, maxAttempts, b, c) ==> ActsFor(uid, maxAttempts, a, c)
  {
    forall a, b, c | ActsFor(uid, maxAttempts, a, b) && ActsFor(uid, maxAttempts, b, c)
      ensures ActsFor(uid, maxAttempts, a, c)
    {
      ActsForOpens(uid, maxAttempts, a, b);
      ActsForOpens(uid, maxAttempts, b, c);
      assert Stretch(uid, maxAttempts, a, c);
    }
  }

  /** From this turn on no other process sends commands; our own may still fail or lose their answers. */
  ghost predicate Solo(turns: Schedule, from: nat) {
    forall n | n >= from :: turns(n).others == []
  }

  /** From this turn on every command works, and nobody interferes. */
  ghost predicate Quiet(turns: Schedule, from: nat) {
    forall n | n >= from ::
      turns(n).others == [] && turns(n).fate.Works? && turns(n).refusal == turns(from).refusal
  }

  /** Only the command of the first turn goes wrong, and the fault hides an index. */
  ghost predicate Misread(turns: Schedule, from: nat) {
    turns(from).others == [] && HidesIndex(turns(from)) && Quiet(turns, from + 1)
  }

  /** Nobody interferes, the next `left` commands work, and then the process is stopped: no later command arrives. */
  ghost predicate StopsAfter(turns: Schedule, from: nat, left: nat) {
    && (forall n | from <= n < from + left :: turns(n).others == [] && turns(n).fate.Works?)
    && (forall n | n >= from + left :: turns(n).others == [] && turns(n).fate.Dropped?)
  }

  /** The commands of these turns all work. */
  ghost predicate WorkUntil(turns: Schedule, from: nat, end: nat) {
    forall n | from <= n < end :: turns(n).fate.Works?
  }

  /** Nobody interferes, and the command of one turn at most goes wrong, in whatever way. */
  ghost predicate OneFault(turns: Schedule, from: nat, at: nat) {
    Solo(turns, from) && forall n | n >= from && n != at :: turns(n).fate.Works?
  }

  /** A fault that has been met is over. */
  lemma FaultIsOver(turns: Schedule, from: nat, at: nat, a: nat, b: nat, end: nat)
    requires OneFault(turns, from, at) && from <= a && !WorkUntil(turns, a, b)
    ensures WorkUntil(turns, b, end)
  {
  }

  /** How many of the commands are left once these have been sent. */
  function Left(left: nat, sent: nat): nat {
    if left < sent then 0 else left - sent
  }

  lemma NextTurn(turns: Schedule, n: nat)
    ensures forall left: nat | StopsAfter(turns, n, left) ::
              && Solo(turns, n) && (if left > 0 then turns(n).fate.Works? else turns(n).fate.Dropped?)
              && StopsAfter(turns, n + 1, Left(left, 1))
  {
    forall left: nat | StopsAfter(turns, n, left)
      ensures Solo(turns, n) && (if left > 0 then turns(n).fate.Works? else turns(n).fate.Dropped?)
      ensures StopsAfter(turns, n + 1, Left(left, 1))
    {
    }
  }

  /** The TPM accepted this authorization value for the index, at our request, between the two worlds. */
  predicate GuessAccepted(w: World, later: World, index: nat, auth: string) {
    exists j :: |w.history| <= j < |later.history|
      && later.history[j] == Step(true, ReadAuth(index, auth)) && AcceptsAt(later.history, j, index)
  }

  /** The TPM accepted this PIN, as typed or in its legacy form, at our request. */
  predicate TakesPin(w: World, later: World, uid: nat, pin: string) {
    || GuessAccepted(w, later, SlotOf(uid), pin)
    || GuessAccepted(w, later, SlotOf(uid), NormalizeLegacyPin(pin))
  }

  /** The same, stated so that proofs open it only where they mention `TakesPin`. */
  ghost predicate PinAccepted(w: World, later: World, uid: nat, pin: string) {
    forall v :: v == later ==> TakesPin(w, v, uid, pin)
  }

  predicate IsMissing(kind: Kind) {
    kind.Handle? || kind.NvUninitialized?
  }

  predicate IsRefusal(kind: Kind) {
    kind.AuthFail? || kind.BadAuth?
  }

  /** The turn's fault looks like the answer that an index is absent or unwritten. */
  predicate HidesIndex(turn: Turn) {
    !turn.fate.Works? && IsMissing(turn.fate.kind)
  }

  /** The turn's fault looks like the answer that an authorization value is wrong. */
  predicate FakesRefusal(turn: Turn) {
    !turn.fate.Works? && IsRefusal(turn.fate.kind)
  }

  /** Only the command of one turn goes wrong: it never arrives, and the fault reads as a refusal. */
  ghost predicate Phantom(turns: Schedule, from: nat, at: nat) {
    && Solo(turns, from)
    && (forall n | n >= from && n != at :: turns(n).fate.Works?)
    && turns(at).fate.Dropped? && IsRefusal(turns(at).fate.kind)
  }

  /** Stores that agree outside one user's two indexes. */
  predicate SameElsewhere(uid: nat, nv: Store, nv': Store) {
    nv' - {SlotOf(uid), TagOf(uid)} == nv - {SlotOf(uid), TagOf(uid)}
  }

  /** One command is one step of the history, and an answered guess is an accepted one. */
  lemma ExecIsOneStep(turns: Schedule, w: World, c: Command, uid: nat, maxAttempts: u32)
    requires Repertoire(c, uid, maxAttempts)
    ensures ActsFor(uid, maxAttempts, w, Exec(turns, w, c).1)
    ensures Consistent(w) && c.ReadAuth? && Exec(turns, w, c).0.Answer? ==>
              GuessAccepted(w, Exec(turns, w, c).1, c.index, c.auth)
  {
    var later := Exec(turns, w, c).1;
    var ready := Interfere(w, turns(w.clock).others);
    if !turns(w.clock).fate.Dropped? {
      assert later.history[..|ready.history|] == ready.history;
      assert later.history[|ready.history|] == Step(true, c);
    }
  }

  /** A guess accepted in the middle of a stretch is accepted in the stretch. */
  lemma AcceptanceWidens(w: World, a: World, b: World, later: World, index: nat, auth: string)
    requires w.history <= a.history && b.history <= later.history
    requires GuessAccepted(a, b, index, auth)
    ensures GuessAccepted(w, later, index, auth)
  {
    var j :| |a.history| <= j < |b.history|
      && b.history[j] == Step(true, ReadAuth(index, auth)) && AcceptsAt(b.history, j, index);
    assert later.history[..j] == b.history[..j];
    assert AcceptsAt(later.history, j, index);
  }

  lemma PinAcceptanceWidens(w: World, a: World, b: World, later: World, uid: nat, pin: string)
    requires w.history <= a.history && b.history <= later.history
    requires PinAccepted(a, b, uid, pin)
    ensures PinAccepted(w, later, uid, pin)
  {
    assert TakesPin(a, b, uid, pin);
    if GuessAccepted(a, b, SlotOf(uid), pin) {
      AcceptanceWidens(w, a, b, later, SlotOf(uid), pin);
    } else {
      AcceptanceWidens(w, a, b, later, SlotOf(uid), NormalizeLegacyPin(pin));
    }
    assert TakesPin(w, later, uid, pin);
  }
}
