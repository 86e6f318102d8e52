/**
 The TPM as a device that executes one command per turn of its schedule, and `PinManager`
 (pinmanager.rs), whose methods are sequences of such commands.
 */
module PinManagement {
  import opened Wrappers
  import opened PinCodec
  import opened PinErrors
  import opened PinIndex
  import opened Text
  import opened Tpm
  import opened PinContracts
  import opened Accounts

  /** What an owner read of the slot that reaches the TPM finds. */
  function SlotReading(nv: Store, uid: nat): Result<Option<PinData>, PinError> {
    if SlotOf(uid) !in nv || !nv[SlotOf(uid)].written then Ok(None)
    else
      var slot := Decode(DataOf(nv[SlotOf(uid)]));
      if slot.None? then Err(TpmError(Wrapper)) else Ok(slot)
  }

  /** What an owner read of the slot that does not work finds: a fault can look like a slot that is not there. */
  function Missed(kind: Kind): Result<Option<PinData>, PinError> {
    if IsMissing(kind) then Ok(None) else Err(TpmError(Rc(kind)))
  }

  /** An owner read would find the counter at its limit. */
  predicate ReadsSpent(nv: Store, uid: nat) {
    SlotReading(nv, uid).Ok? && SlotReading(nv, uid).value.Some? && SlotReading(nv, uid).value.value.CounterSpent()
  }

  /** A setup looks for the slot at turn n; unless it finds one, it defines and tags the slot. */
  lemma LookedThenProvisioned(turns: Schedule, n: nat, nv: Store, free: Store, nv': Store, uid: nat, pin: string,
                              maxAttempts: u32, slot: Result<Option<PinData>, PinError>, r: Result<(), PinError>)
    requires Solo(turns, n) ==> free == nv && (turns(n).fate.Works? ==> slot == SlotReading(nv, uid))
    requires slot.Err? ==> slot.error.TpmError? && (slot.error.fault.Rc? || slot.error.fault.Wrapper?)
    requires if slot.Err? then nv' == free && r == Err(slot.error)
             else if slot.value.Some? then nv' == free && r == Err(AlreadyProvisioned(uid))
             else Provisioned(turns, n + 1, free, nv', uid, pin, maxAttempts, r)
    ensures Solo(turns, n) && TagShaped(nv, uid) ==> SetUp(nv, nv', uid, pin, maxAttempts, r)
    ensures Solo(turns, n) && Shaped(nv, uid) ==>
              && Shaped(nv', uid) && SameElsewhere(uid, nv, nv')
              && SetupStage(View(nv, uid), View(nv', uid), pin, maxAttempts)
              && (r.Ok? ==> View(nv', uid) == Holder(pin, Exact, 0, maxAttempts))
    ensures Quiet(turns, n) && Shaped(nv, uid) ==>
              && Shaped(nv', uid) && SameElsewhere(uid, nv, nv')
              && (r, View(nv', uid)) == Setup(View(nv, uid), uid, pin, maxAttempts)
              && SetupTags(nv, nv', uid, pin, maxAttempts)
    ensures SetupStops(turns, n, nv, nv', uid, pin, maxAttempts)
    ensures TagShaped(nv, uid) && SlotOf(uid) !in nv && Fits(pin) ==>
              && Recovers(turns, n, n + 7, nv', uid, r)
              && Strands(turns, n, n + 6, nv, nv', uid, pin, maxAttempts, r)
  {
    NextTurn(turns, n);
    if Solo(turns, n) && TagShaped(nv, uid) {
      if slot.Ok? && slot.value.None? {
        assert ProvisionEnds(turns, n + 1, nv, nv', uid, pin, maxAttempts, r);
      } else {
        NothingIsSetUp(nv, uid, pin, maxAttempts, r.error);
      }
      SetUpUnlessTaken(nv, nv', uid, pin, maxAttempts, r);
      if Shaped(nv, uid) {
        SetupOutcomeIsAStage(nv, nv', uid, pin, maxAttempts, r);
        if Quiet(turns, n) {
          SetupIsExact(nv, nv', uid, pin, maxAttempts, r);
        }
      }
      forall at: nat | at >= n + 7 && OneFault(turns, n, at) ensures OneFault(turns, n + 1, at) {
      }
    }
  }

  /** How the answer to a guess reads, if the owner read that may follow it works. */
  function Interpreted(nv: Store, uid: nat, reply: Reply): Result<VerificationResult, PinError> {
    match reply
    case Answer(payload) =>
      if Decode(payload).None? then Err(TpmError(Wrapper))
      else Ok(if Decode(payload).value.CounterSpent() then LockedOut else Success(Decode(payload).value))
    case Fail(kind) =>
      if kind.AuthFail? || kind.BadAuth? then Ok(Invalid(ReadsSpent(nv, uid)))
      else Err(if IsMissing(kind) then NotProvisioned(uid) else TpmError(Rc(kind)))
  }

  /** What the TPM does with a guess, by what it finds: nothing written, a spent counter, the secret, or another one. */
  lemma GuessCases(nv: Store, index: nat, auth: string, refusal: Kind)
    requires index in nv && nv[index].PinFail?
    ensures var c, e := ReadAuth(index, auth), nv[index];
            if !e.written then ReplyTo(nv, c, refusal) == Fail(NvUninitialized) && After(nv, c) == nv
            else if e.count >= e.limit then ReplyTo(nv, c, refusal) == Fail(refusal) && After(nv, c) == nv
            else if auth == e.auth
            then ReplyTo(nv, c, refusal) == Answer(Counters(0, e.limit)) && After(nv, c) == nv[index := e.(count := 0)]
            else ReplyTo(nv, c, refusal) == Fail(BadAuth) && After(nv, c) == nv[index := e.(count := e.count + 1)]
  {
  }

  /** An answered guess reads as the simple machine says. */
  lemma GuessIsAnswered(nv: Store, uid: nat, auth: string, refusal: Kind)
    requires SlotShaped(nv, uid) && SlotOf(uid) in nv && ByteLen(auth) <= MAX_AUTH_BUFFER
    ensures var c := ReadAuth(SlotOf(uid), auth);
            Interpreted(After(nv, c), uid, ReplyTo(nv, c, refusal)) == Guess(View(nv, uid), uid, auth, refusal).0
  {
    GuessCases(nv, SlotOf(uid), auth, refusal);
    var nv' := After(nv, ReadAuth(SlotOf(uid), auth));
    assert SlotReading(nv', uid) ==
           if nv'[SlotOf(uid)].written then Ok(Some(Seen(nv'[SlotOf(uid)].count, nv'[SlotOf(uid)].limit)))
           else Ok(None);
  }

  lemma GuessIsExact(nv: Store, nv': Store, uid: nat, auth: string, refusal: Kind,
                     r: Result<VerificationResult, PinError>)
    requires SlotShaped(nv, uid) && SlotOf(uid) in nv && ByteLen(auth) <= MAX_AUTH_BUFFER
    requires nv' == After(nv, ReadAuth(SlotOf(uid), auth))
    requires r == Interpreted(nv', uid, ReplyTo(nv, ReadAuth(SlotOf(uid), auth), refusal))
    ensures GuessedExactly(nv, nv', uid, auth, refusal, r)
  {
    GuessIsAnswered(nv, uid, auth, refusal);
    GuessIsAfter(nv, uid, auth);
    assert GuessEnds(nv, nv', uid, auth, refusal, r);
  }

  /** What a verification puts to the TPM, by the tag it has seen. */
  function KeySeen(tag: Option<u8>, pin: string): string {
    Key(if tag.None? then Legacy else Exact, pin)
  }

  /** What is known of a guess once its result has been read. */
  lemma GuessSettles(nv: Store, nv': Store, uid: nat, auth: string, turn: Turn, r: Result<VerificationResult, PinError>)
    requires SlotShaped(nv, uid) && SlotOf(uid) in nv && ByteLen(auth) <= MAX_AUTH_BUFFER
    requires nv' == if turn.fate.Dropped? then nv else After(nv, ReadAuth(SlotOf(uid), auth))
    requires r.Ok? && r.value.Success? ==>
               && turn.fate.Works?
               && var reply := ReplyTo(nv, ReadAuth(SlotOf(uid), auth), turn.refusal);
                  reply.Answer? && Decode(reply.payload).Some? && !Decode(reply.payload).value.CounterSpent()
    requires r.Ok? && r.value.Invalid? ==>
               if turn.fate.Works? then
                 var reply := ReplyTo(nv, ReadAuth(SlotOf(uid), auth), turn.refusal);
                 reply.Fail? && IsRefusal(reply.kind)
               else IsRefusal(turn.fate.kind)
    ensures Guessed(nv, nv', uid, auth, r, turn.fate)
  {
    GuessCases(nv, SlotOf(uid), auth, turn.refusal);
    GuessIsAfter(nv, uid, auth);
    assert GuessLeaves(nv, nv', uid, auth, r, turn.fate);
  }

  /** What a version tag says: one byte, once it has been written. */
  function TagOn(nv: Store, uid: nat): Result<Option<u8>, PinError> {
    if TagOf(uid) !in nv || !nv[TagOf(uid)].written then Ok(None)
    else
      var bytes := Wire(DataOf(nv[TagOf(uid)]));
      if |bytes| == 1 then Ok(Some(bytes[0])) else Err(TpmError(TagPayloadSize(|bytes|)))
  }

  /** What a read of the version tag reports, by the fate of its command. */
  predicate TagReading(turn: Turn, nv: Store, uid: nat, r: Result<Option<u8>, PinError>) {
    && r == (if turn.fate.Works? then TagOn(nv, uid)
             else if HidesIndex(turn) then Ok(None)
             else Err(TpmError(Rc(turn.fate.kind))))
    && (TagShaped(nv, uid) ==> TagOn(nv, uid) == Ok(if Tagged(nv, uid) then Some(PIN_VERSION_CURRENT) else None))
  }

  /** The same, stated so that proofs open it only where they mention `TagReading`. */
  ghost predicate TagRead(turn: Turn, nv: Store, uid: nat, r: Result<Option<u8>, PinError>) {
    forall v :: v == nv ==> TagReading(turn, v, uid, r)
  }

  /** No tag, or the one version that is supported. */
  predicate IsCurrent(tag: Option<u8>) {
    tag.Some? ==> tag.value == PIN_VERSION_CURRENT
  }

  /**
   The rest of a verification, from turn n on and by the tag that was seen: alone it ends at one of its stages, a
   phantom refusal is reported as a wrong PIN, and undisturbed it is a verification of the format that was seen.
   */
  ghost predicate SeeingEnds(turns: Schedule, n: nat, nv: Store, nv': Store, uid: nat, pin: string, tag: Option<u8>,
                             maxAttempts: u32, r: Result<VerificationResult, PinError>)
  {
    && (Solo(turns, n) && Shaped(nv, uid) && (tag.Some? ==> Tagged(nv, uid)) ==>
          Verified(nv, nv', uid, pin, maxAttempts, r, tag.None?, turns(n + 1).fate))
    && (IsCurrent(tag) && Phantom(turns, n, n + 1) && SlotOf(uid) in nv
        && ByteLen(KeySeen(tag, pin)) <= MAX_AUTH_BUFFER ==>
          nv' == nv && r == Ok(Invalid(ReadsSpent(nv', uid))))
    && (IsCurrent(tag) && Quiet(turns, n) && Shaped(nv, uid) ==>
          VerifiedAs(nv, nv', uid, pin, maxAttempts, if tag.None? then Legacy else Exact, turns(n).refusal, r))
  }

  /** The same, stated so that proofs open it only where they mention `SeeingEnds`. */
  ghost predicate VerifiedSeeing(turns: Schedule, n: nat, nv: Store, nv': Store, uid: nat, pin: string, tag: Option<u8>,
                                 maxAttempts: u32, r: Result<VerificationResult, PinError>)
  {
    forall v :: v == nv' ==> SeeingEnds(turns, n, nv, v, uid, pin, tag, maxAttempts, r)
  }

  /** A tag that is no version, or names another version than 2, ends a verification before any guess. */
  ghost predicate TagIsObeyed(nv: Store, nv': Store, uid: nat, r: Result<VerificationResult, PinError>) {
    && (TagOn(nv, uid).Err? ==> r == Err(TagOn(nv, uid).error) && nv' == nv)
    && (TagOn(nv, uid).Ok? && TagOn(nv, uid).value.Some? && TagOn(nv, uid).value.value != 2 ==>
          r == Err(TpmError(UnsupportedVersion(TagOn(nv, uid).value.value))) && nv' == nv)
  }

  /** A verification is a read of the tag at turn n, and the rest. */
  lemma ReadThenVerified(turns: Schedule, n: nat, nv: Store, tagged: Store, nv': Store, uid: nat, pin: string,
                         maxAttempts: u32, tag: Result<Option<u8>, PinError>, r: Result<VerificationResult, PinError>)
    requires Solo(turns, n) && tagged == nv && TagRead(turns(n), nv, uid, tag)
    requires if tag.Err? then r == Err(tag.error) && nv' == nv
             else VerifiedSeeing(turns, n + 1, tagged, nv', uid, pin, tag.value, maxAttempts, r)
    requires tag.Ok? && tag.value.Some? && tag.value.value != PIN_VERSION_CURRENT ==>
               r == Err(TpmError(UnsupportedVersion(tag.value.value))) && nv' == nv
    ensures Shaped(nv, uid) ==>
              Verified(nv, nv', uid, pin, maxAttempts, r, HidesIndex(turns(n)), turns(n + 2).fate)
    ensures Phantom(turns, n, n + 2) && Shaped(nv, uid) && View(nv, uid).Holder?
            && ByteLen(Key(View(nv, uid).format, pin)) <= MAX_AUTH_BUFFER ==>
              nv' == nv && r == Ok(Invalid(ReadsSpent(nv', uid)))
    ensures Misread(turns, n) && Shaped(nv, uid) ==>
              VerifiedAs(nv, nv', uid, pin, maxAttempts, Legacy, turns(n + 1).refusal, r)
    ensures Quiet(turns, n) && Shaped(nv, uid) ==>
              VerifiedExactly(nv, nv', uid, pin, maxAttempts, turns(n).refusal, r)
    ensures Quiet(turns, n) && Shaped(nv, uid) && SlotOf(uid) !in nv ==>
              r == Err(TpmError(Rc(Handle))) && SlotOf(uid) !in nv'
    ensures turns(n).fate.Works? ==> TagIsObeyed(nv, nv', uid, r)
  {
    assert TagReading(turns(n), nv, uid, tag);
    if tag.Err? {
      NothingIsAStage(nv, uid, pin, maxAttempts, r, HidesIndex(turns(n)), turns(n + 2).fate);
    } else {
      assert SeeingEnds(turns, n + 1, nv, nv', uid, pin, tag.value, maxAttempts, r);
      if tag.value.None? && Shaped(nv, uid) && !Tagged(nv, uid) {
        UntaggedIsLegacy(nv, nv', uid, pin, maxAttempts, r, HidesIndex(turns(n)), turns(n + 2).fate);
      }
      if Quiet(turns, n) && Shaped(nv, uid) {
        SeenIsExact(nv, nv', uid, pin, maxAttempts, turns(n).refusal, r);
        assert Ends(nv, nv', uid, pin, maxAttempts, turns(n).refusal, r);
      }
    }
  }

  /** The result of a command whose answer carries no data. */
  function Outcome(reply: Reply): Result<(), PinError> {
    if reply.Fail? then Err(TpmError(Rc(reply.kind))) else Ok(())
  }

  class Device {
    const turns: Schedule
    var nv: Store
    var clock: nat
    ghost var history: seq<Step>
    ghost var spent: nat

    constructor (turns: Schedule, nv: Store, ghost history: seq<Step>)
      ensures this.turns == turns && World() == Tpm.World(nv, history, 0, 0)
    {
      this.turns, this.nv, this.clock := turns, nv, 0;
      this.history, this.spent := history, 0;
    }

    ghost function World(): World
      reads this
    {
      Tpm.World(nv, history, clock, spent)
    }

    /**
     What `Invalid{locked}` says about the slot as it now is: `true` is never wrong, and when the
     owner read behind it worked, `false` is not either. A success is reported only if the last command worked: the
     guess, or the connection that a migration ends with.
     */
    ghost predicate AnswerIsTrue(uid: nat, r: Result<VerificationResult, PinError>)
      reads this
    {
      && (r.Ok? && r.value.Success? ==> clock > 0 && turns(clock - 1).fate.Works?)
      && (r.Ok? && r.value.Invalid? ==>
            && (r.value.locked ==> ReadsSpent(nv, uid))
            && clock > 0 && (turns(clock - 1).fate.Works? ==> r.value.locked == ReadsSpent(nv, uid)))
    }

    /** The commands other processes get in before ours. */
    method LetOthersIn(others: seq<Command>)
      modifies this
      ensures World() == Interfere(old(World()), others)
    {
      var i := 0;
      while i < |others|
        invariant 0 <= i <= |others|
        invariant Interfere(World(), others[i..]) == Interfere(old(World()), others)
      {
        assert others[i..][1..] == others[i + 1..];
        history := history + [Step(false, others[i])];
        nv := After(nv, others[i]);
        i := i + 1;
      }
    }

    /** Our command, unless the schedule drops it; the answer, unless the schedule loses it. */
    method Execute(c: Command) returns (reply: Reply)
      modifies this
      ensures (reply, World()) == Exec(turns, old(World()), c)
    {
      var turn := turns(clock);
      LetOthersIn(turn.others);
      clock := clock + 1;
      match turn.fate {
        case Dropped(kind) =>
          return Fail(kind);
        case Works =>
          reply := ReplyTo(nv, c, turn.refusal);
        case Lost(kind) =>
          reply := Fail(kind);
      }
      history := history + [Step(true, c)];
      spent := spent + if c.ReadAuth? then 1 else 0;
      nv := After(nv, c);
    }
  }

  class PinManager {
    const device: Device
    const maxAttempts: u32

    constructor (device: Device, maxAttempts: u32)
      ensures this.device == device && this.maxAttempts == maxAttempts
    {
      this.device := device;
      this.maxAttempts := maxAttempts;
    }

    twostate predicate Acts(uid: nat)
      reads device
    {
      ActsFor(uid, maxAttempts, old(device.World()), device.World())
    }

    /** One command of the user's repertoire. */
    method Send(ghost uid: nat, c: Command) returns (reply: Reply)
      requires Repertoire(c, uid, maxAttempts)
      modifies device
      ensures Acts(uid)
      ensures old(device.spent) <= device.spent <= old(device.spent) + if c.ReadAuth? then 1 else 0
      ensures reply.Answer? && c.ReadAuth? && old(Consistent(device.World())) && c.index == SlotOf(uid) ==>
                GuessAccepted(old(device.World()), device.World(), SlotOf(uid), c.auth)
      ensures device.clock == old(device.clock) + 1
      ensures var fate := old(device.turns(device.clock)).fate; !fate.Works? ==> reply == Fail(fate.kind)
      ensures old(Solo(device.turns, device.clock)) ==>
                var turn := old(device.turns(device.clock));
                && device.nv == (if turn.fate.Dropped? then old(device.nv) else After(old(device.nv), c))
                && (turn.fate.Works? ==> reply == ReplyTo(old(device.nv), c, turn.refusal))
      ensures (c.ReadOwner? || c.Session?) && old(device.turns(device.clock)).fate.Works? ==>
                reply == ReplyTo(device.nv, c, OtherRc)
    {
      ExecIsOneStep(device.turns, device.World(), c, uid, maxAttempts);
      reply := device.Execute(c);
    }

    // ---- Reading ----

    /** `restart_context`: a fresh connection, or an error. */
    method RestartContext(ghost uid: nat) returns (r: Result<(), PinError>)
      modifies device
      ensures Acts(uid) && device.spent == old(device.spent)
      ensures r.Err? ==> r.error.TpmError? && r.error.fault.Rc?
      ensures device.clock == old(device.clock) + 1
      ensures var fate := old(device.turns(device.clock)).fate;
              if fate.Works? then r.Ok? else r == Err(TpmError(Rc(fate.kind)))
      ensures old(Solo(device.turns, device.clock)) ==> device.nv == old(device.nv)
    {
      ActsForIsTransitive(uid, maxAttempts);
      var reply := Send(uid, Session);
      r := Outcome(reply);
    }

    method ReadPinSlotOwner(uid: nat) returns (r: Result<Option<PinData>, PinError>)
      modifies device
      ensures Acts(uid) && device.spent == old(device.spent)
      ensures r.Err? ==> r.error.TpmError? && (r.error.fault.Rc? || r.error.fault.Wrapper?)
      ensures r.Ok? && r.value.Some? ==> r == SlotReading(device.nv, uid)
      ensures device.clock == old(device.clock) + 1
      ensures var fate := old(device.turns(device.clock)).fate;
              r == if fate.Works? then SlotReading(device.nv, uid) else Missed(fate.kind)
      ensures old(Solo(device.turns, device.clock)) ==> device.nv == old(device.nv)
    {
      ActsForIsTransitive(uid, maxAttempts);
      var reply := Send(uid, ReadOwner(SlotOf(uid)));
      match reply
      case Answer(payload) =>
        r := if Decode(payload).None? then Err(TpmError(Wrapper)) else Ok(Decode(payload));
      case Fail(kind) =>
        r := if IsMissing(kind) then Ok(None) else Err(TpmError(Rc(kind)));
    }

    method ReadPinVersionTag(uid: nat) returns (r: Result<Option<u8>, PinError>)
      modifies device
      ensures r.Err? ==> IsManagerError(r.error)
      ensures Acts(uid) && device.spent == old(device.spent)
      ensures uid > PIN_VERSION_UID_MAX ==> r == Err(UidOverflow(uid)) && device.World() == old(device.World())
      ensures old(Solo(device.turns, device.clock)) ==> device.nv == old(device.nv)
      ensures uid <= PIN_VERSION_UID_MAX ==> device.clock == old(device.clock) + 1
      ensures uid <= PIN_VERSION_UID_MAX && old(Solo(device.turns, device.clock)) ==>
                TagRead(old(device.turns(device.clock)), old(device.nv), uid, r)
    {
      ActsForIsTransitive(uid, maxAttempts);
      var index := VersionNvIndexForUid(uid);
      if index.Err? {
        return Err(index.error);
      }
      var reply := Send(uid, ReadOwner(index.value));
      match reply
      case Answer(payload) =>
        var bytes := Wire(payload);
        r := if |bytes| != PIN_VERSION_TAG_SIZE then Err(TpmError(TagPayloadSize(|bytes|))) else Ok(Some(bytes[0]));
      case Fail(kind) =>
        r := if IsMissing(kind) then Ok(None) else Err(TpmError(Rc(kind)));
    }

    // ---- Version tag ----

    /** Look a handle up, then send the command that needs it. */
    method SendToHandle(uid: nat, c: Command) returns (reply: Reply)
      requires Repertoire(c, uid, maxAttempts) && (c.Undefine? || c.WriteUnwritten? || c.WriteOwner?)
      modifies device
      ensures Acts(uid) && device.spent == old(device.spent)
      ensures var fate := old(device.turns(device.clock)).fate; !fate.Works? ==> reply == Fail(fate.kind)
      ensures old(Solo(device.turns, device.clock)) ==>
                && (device.nv == old(device.nv) || device.nv == After(old(device.nv), c))
                && (reply.Answer? ==> device.nv == After(old(device.nv), c) && c.index in old(device.nv) &&
                                      ReplyTo(old(device.nv), c, OtherRc) == reply)
      ensures old(Quiet(device.turns, device.clock)) ==>
                && device.nv == After(old(device.nv), c)
                && reply == ReplyTo(old(device.nv), c, OtherRc)
      ensures old(Solo(device.turns, device.clock)) && WorkUntil(device.turns, old(device.clock), device.clock) ==>
                && device.nv == After(old(device.nv), c)
                && reply == ReplyTo(old(device.nv), c, OtherRc)
      ensures old(Solo(device.turns, device.clock)) && old(device.turns(device.clock)).fate.Works? ==>
                device.clock == old(device.clock) + if c.index in old(device.nv) then 2 else 1
      ensures forall left: nat | old(StopsAfter(device.turns, device.clock, left)) ::
                var there := c.index in old(device.nv);
                && device.nv == (if there && left >= 2 then After(old(device.nv), c) else old(device.nv))
                && (reply.Answer? <==> there && left >= 2 && ReplyTo(old(device.nv), c, OtherRc).Answer?)
                && StopsAfter(device.turns, device.clock, Left(left, if there then 2 else 1))
    {
      ActsForIsTransitive(uid, maxAttempts);
      var found := Send(uid, ReadPublic(c.index));
      if found.Fail? {
        return found;
      }
      reply := Send(uid, c);
    }

    method WritePinVersionTagExisting(uid: nat) returns (r: Result<(), PinError>)
      modifies device
      ensures Acts(uid) && device.spent == old(device.spent)
      ensures r.Err? ==> r.error.TpmError? && r.error.fault.Rc?
      ensures old(Solo(device.turns, device.clock) && TagShaped(device.nv, uid)) ==>
                && (device.nv == old(device.nv) || device.nv == old(device.nv)[TagOf(uid) := TAGGED])
                && TagShaped(device.nv, uid)
                && (r.Ok? ==> device.nv == old(device.nv)[TagOf(uid) := TAGGED])
      ensures old(Quiet(device.turns, device.clock) && TagShaped(device.nv, uid)) ==>
                if TagOf(uid) in old(device.nv) then r.Ok? else r.Err? && device.nv == old(device.nv)
      ensures old(Solo(device.turns, device.clock) && TagShaped(device.nv, uid)) &&
              WorkUntil(device.turns, old(device.clock), device.clock) ==>
                if TagOf(uid) in old(device.nv) then r.Ok? else r.Err? && device.nv == old(device.nv)
      ensures LookupStops(device.turns, old(device.clock), device.clock, old(device.nv), device.nv, uid, r.Ok?)
    {
      ActsForIsTransitive(uid, maxAttempts);
      if TagShaped(device.nv, uid) { TagWrites(device.nv, uid); }
      var reply := SendToHandle(uid, WriteOwner(TagOf(uid), Raw([PIN_VERSION_CURRENT])));
      r := Outcome(reply);
    }

    method WritePinVersionTag(uid: nat) returns (r: Result<(), PinError>)
      modifies device
      ensures Acts(uid) && device.spent == old(device.spent)
      ensures uid > PIN_VERSION_UID_MAX ==> r == Err(UidOverflow(uid)) && device.World() == old(device.World())
      ensures old(Solo(device.turns, device.clock) && TagShaped(device.nv, uid)) ==>
                && (|| device.nv == old(device.nv)
                    || (TagOf(uid) !in old(device.nv) && device.nv == old(device.nv)[TagOf(uid) := UNTAGGED])
                    || device.nv == old(device.nv)[TagOf(uid) := TAGGED])
                && TagShaped(device.nv, uid)
                && (r.Ok? ==> device.nv == old(device.nv)[TagOf(uid) := TAGGED])
      ensures uid <= PIN_VERSION_UID_MAX && old(Quiet(device.turns, device.clock) && TagShaped(device.nv, uid)) ==>
                r.Ok?
      ensures uid <= PIN_VERSION_UID_MAX && old(Solo(device.turns, device.clock) && TagShaped(device.nv, uid)) &&
              WorkUntil(device.turns, old(device.clock), device.clock) ==>
                r.Ok?
      ensures uid <= PIN_VERSION_UID_MAX ==>
                TagWriteStops(device.turns, old(device.clock), device.clock, old(device.nv), device.nv, uid, r.Ok?)
    {
      ActsForIsTransitive(uid, maxAttempts);
      var index := VersionNvIndexForUid(uid);
      if index.Err? {
        return Err(index.error);
      }
      ghost var start := device.World();
      r := WritePinVersionTagExisting(uid);
      if r.Err? && r.error.TpmError? {
        ghost var looked := device.World();
        if TagShaped(device.nv, uid) { TagWrites(device.nv, uid); }
        var reply := Send(uid, DefineOrdinary(index.value, PIN_VERSION_TAG_SIZE));
        ghost var defined := device.World();
        r := Outcome(reply);
        if r.Ok? {
          r := WritePinVersionTagExisting(uid);
        }
        if Solo(device.turns, start.clock) {
          TagWriteIsStopped(device.turns, start.clock, looked.clock, device.clock, start.nv, looked.nv, defined.nv,
                            device.nv, uid, reply.Answer?, r.Ok?);
        }
      }
    }

    method DeletePinVersionTag(uid: nat) returns (r: Result<(), PinError>)
      modifies device
      ensures Acts(uid) && device.spent == old(device.spent)
      ensures old(Solo(device.turns, device.clock)) ==>
                device.nv == old(device.nv) || device.nv == old(device.nv) - {TagOf(uid)}
      ensures uid <= PIN_VERSION_UID_MAX && old(Quiet(device.turns, device.clock)) ==>
                r.Ok? && device.nv == old(device.nv) - {TagOf(uid)}
      ensures uid <= PIN_VERSION_UID_MAX && old(Solo(device.turns, device.clock)) &&
              WorkUntil(device.turns, old(device.clock), device.clock) ==>
                r.Ok? && device.nv == old(device.nv) - {TagOf(uid)}
    {
      ActsForIsTransitive(uid, maxAttempts);
      var index := VersionNvIndexForUid(uid);
      if index.Err? {
        return Err(index.error);
      }
      var reply := SendToHandle(uid, Undefine(index.value));
      r := if reply.Fail? && !IsMissing(reply.kind) then Err(TpmError(Rc(reply.kind))) else Ok(());
    }

    // ---- PIN slot ----

    /** Undefine the slot; a tag that cannot be removed is only logged. */
    method DeletePinAdmin(uid: nat) returns (r: Result<(), PinError>)
      modifies device
      ensures r.Err? ==> IsManagerError(r.error)
      ensures Acts(uid) && device.spent == old(device.spent)
      ensures var fate := old(device.turns(device.clock)).fate;
              uid <= PIN_VERSION_UID_MAX && !fate.Works? ==>
                r == Err(if IsMissing(fate.kind) then NotProvisioned(uid) else TpmError(Rc(fate.kind)))
      ensures uid > PIN_VERSION_UID_MAX ==> r == Err(UidOverflow(uid)) && device.World() == old(device.World())
      ensures old(Solo(device.turns, device.clock)) ==>
                && (r.Ok? ==> SlotOf(uid) in old(device.nv) &&
                              (|| device.nv == old(device.nv) - {SlotOf(uid)}
                               || device.nv == old(device.nv) - {SlotOf(uid), TagOf(uid)}))
                && (r.Err? ==> device.nv == old(device.nv) || device.nv == old(device.nv) - {SlotOf(uid)})
      ensures old(Solo(device.turns, device.clock) && Shaped(device.nv, uid)) ==>
                && Shaped(device.nv, uid) && SameElsewhere(uid, old(device.nv), device.nv)
                && (View(device.nv, uid) == View(old(device.nv), uid) || View(device.nv, uid) == Empty)
                && (r.Ok? ==> View(old(device.nv), uid) != Empty && View(device.nv, uid) == Empty)
      ensures uid <= PIN_VERSION_UID_MAX && old(Quiet(device.turns, device.clock)) ==>
                if SlotOf(uid) in old(device.nv)
                then r == Ok(()) && device.nv == old(device.nv) - {SlotOf(uid), TagOf(uid)}
                else r == Err(NotProvisioned(uid)) && device.nv == old(device.nv)
      ensures uid <= PIN_VERSION_UID_MAX && old(Solo(device.turns, device.clock)) && SlotOf(uid) in old(device.nv) &&
              WorkUntil(device.turns, old(device.clock), device.clock) ==>
                r == Ok(()) && device.nv == old(device.nv) - {SlotOf(uid), TagOf(uid)}
      ensures uid <= PIN_VERSION_UID_MAX && old(Quiet(device.turns, device.clock) && Shaped(device.nv, uid)) ==>
                && Shaped(device.nv, uid) && SameElsewhere(uid, old(device.nv), device.nv)
                && (r, View(device.nv, uid)) == DeleteAdmin(View(old(device.nv), uid), uid)
                && DeleteTags(old(device.nv), device.nv, uid)
    {
      ActsForIsTransitive(uid, maxAttempts);
      if Shaped(device.nv, uid) {
        RemovalLeavesNothing(device.nv, device.nv - {SlotOf(uid)}, uid);
        RemovalLeavesNothing(device.nv, device.nv - {SlotOf(uid), TagOf(uid)}, uid);
      }
      var index := NvIndexForUid(uid);
      if index.Err? {
        return Err(index.error);
      }
      var reply := SendToHandle(uid, Undefine(index.value));
      if reply.Fail? {
        return Err(if IsMissing(reply.kind) then NotProvisioned(uid) else TpmError(Rc(reply.kind)));
      }
      var _ := DeletePinVersionTag(uid);
      r := Ok(());
    }

    /** The slot's first and only write, under the policy that the index is unwritten. */
    method WritePinSlot(uid: nat, ghost pin: string) returns (r: Result<(), PinError>)
      modifies device
      ensures Acts(uid) && device.spent == old(device.spent)
      ensures r.Err? ==> r.error.TpmError? && r.error.fault.Rc?
      ensures old(Solo(device.turns, device.clock)) && SlotOf(uid) in old(device.nv) &&
              old(device.nv)[SlotOf(uid)] == HalfDefined(pin) ==>
                && (device.nv == old(device.nv)
                   || device.nv == old(device.nv)[SlotOf(uid) := FreshSlot(pin, maxAttempts)])
                && (r.Ok? ==> device.nv == old(device.nv)[SlotOf(uid) := FreshSlot(pin, maxAttempts)])
                && (old(Quiet(device.turns, device.clock)) ==> r.Ok?)
                && (WorkUntil(device.turns, old(device.clock), old(device.clock) + 3) ==>
                      r.Ok? && device.clock == old(device.clock) + 3)
      ensures WriteStops(device.turns, old(device.clock), device.clock, old(device.nv), device.nv, uid, pin,
                         maxAttempts, r.Ok?)
    {
      ActsForIsTransitive(uid, maxAttempts);
      NextTurn(device.turns, device.clock);
      var reply := Send(uid, Session);
      r := Outcome(reply);
      if r.Ok? {
        reply := SendToHandle(uid, WriteUnwritten(SlotOf(uid), InitialPayload(maxAttempts)));
        r := Outcome(reply);
      }
    }

    /** A session with the TPM, and the index in it: half of a definition. */
    method DefineHalf(uid: nat, pin: string) returns (r: Result<(), PinError>)
      modifies device
      ensures Acts(uid) && device.spent == old(device.spent)
      ensures r.Err? ==> r.error.TpmError? && r.error.fault.Rc?
      ensures old(Solo(device.turns, device.clock)) ==>
                && (device.nv == old(device.nv) || device.nv == old(device.nv)[SlotOf(uid) := HalfDefined(pin)])
                && (SlotOf(uid) in old(device.nv) || !Fits(pin) ==> r.Err? && device.nv == old(device.nv))
                && (r.Ok? ==> device.nv == old(device.nv)[SlotOf(uid) := HalfDefined(pin)])
      ensures old(Solo(device.turns, device.clock)) &&
              WorkUntil(device.turns, old(device.clock), old(device.clock) + 2) ==>
                && (r.Ok? <==> SlotOf(uid) !in old(device.nv) && Fits(pin))
                && (r.Err? ==> r == Err(TpmError(Rc(OtherRc))))
                && device.clock == old(device.clock) + 2
      ensures HalfStops(device.turns, old(device.clock), device.clock, old(device.nv), device.nv, uid, pin, r.Ok?)
    {
      ActsForIsTransitive(uid, maxAttempts);
      NextTurn(device.turns, device.clock);
      NextTurn(device.turns, device.clock + 1);
      var reply := Send(uid, Session);
      r := Outcome(reply);
      if r.Ok? {
        reply := Send(uid, DefinePin(SlotOf(uid), pin, false));
        r := Outcome(reply);
      }
    }

    method DefinePinSlot(uid: nat, pin: string) returns (r: Result<(), PinError>)
      modifies device
      ensures Acts(uid) && device.spent == old(device.spent)
      ensures r.Err? ==> r.error.TpmError? && (r.error.fault.Rc? || r.error.fault.Wrapper?)
      ensures old(Solo(device.turns, device.clock)) ==>
                Defined(old(device.nv), device.nv, uid, pin, maxAttempts, r)
      ensures old(Quiet(device.turns, device.clock)) ==> r == Provisioning(old(device.nv), uid, pin)
      ensures old(Solo(device.turns, device.clock)) && SlotOf(uid) !in old(device.nv) && Fits(pin) &&
              WorkUntil(device.turns, old(device.clock), old(device.clock) + 5) ==>
                r.Ok? && device.clock == old(device.clock) + 5
      ensures DefinitionStops(device.turns, old(device.clock), device.clock, old(device.nv), device.nv, uid, pin,
                              maxAttempts, r.Ok?)
    {
      ActsForIsTransitive(uid, maxAttempts);
      ghost var start := device.World();
      if ByteLen(pin) > MAX_AUTH_BUFFER {
        return Err(TpmError(Wrapper));
      }
      r := DefineHalf(uid, pin);
      ghost var half, started := device.World(), r.Ok?;
      if r.Ok? {
        r := WritePinSlot(uid, pin);
      }
      assert r.Ok? ==> r.value == ();
      if Solo(device.turns, start.clock) {
        assert DefinitionLeaves(start.nv, device.nv, uid, pin, maxAttempts, r);
      }
      DefinitionIsStopped(device.turns, start.clock, half.clock, device.clock, start.nv, half.nv, device.nv, uid, pin,
                          maxAttempts, started, r.Ok?);
    }

    /** The version tag could not be written: take the new slot back. */
    method RollbackSetup(uid: nat) returns (r: Result<(), PinError>)
      modifies device
      ensures Acts(uid) && device.spent == old(device.spent)
      ensures r.Err? && r.error.TpmError?
      ensures old(Solo(device.turns, device.clock)) ==>
                && (|| device.nv == old(device.nv)
                    || device.nv == old(device.nv) - {SlotOf(uid)}
                    || device.nv == old(device.nv) - {SlotOf(uid), TagOf(uid)})
                && (r.error.fault.TagNotWritten? ==> SlotOf(uid) !in device.nv)
      ensures old(StopsAfter(device.turns, device.clock, 0)) ==> device.nv == old(device.nv)
      ensures uid <= PIN_VERSION_UID_MAX && old(Solo(device.turns, device.clock)) && SlotOf(uid) in old(device.nv) &&
              WorkUntil(device.turns, old(device.clock), device.clock) ==>
                r == Err(TpmError(TagNotWritten)) && device.nv == old(device.nv) - {SlotOf(uid), TagOf(uid)}
    {
      ActsForIsTransitive(uid, maxAttempts);
      r := RestartContext(uid);
      if r.Ok? {
        var deleted := DeletePinAdmin(uid);
        r := Err(TpmError(if deleted.Ok? then TagNotWritten else TagNotWrittenSlotLeft));
      }
    }

    /** Tag a slot that has just been written, or roll the setup back. */
    method FinishSetup(uid: nat, ghost pin: string) returns (r: Result<(), PinError>)
      modifies device
      ensures Acts(uid) && device.spent == old(device.spent)
      ensures old(Solo(device.turns, device.clock)) ==>
                Finished(old(device.nv), device.nv, uid, pin, maxAttempts, r)
      ensures uid <= PIN_VERSION_UID_MAX && old(Quiet(device.turns, device.clock) && TagShaped(device.nv, uid)) ==>
                r.Ok? && device.nv == old(device.nv)[TagOf(uid) := TAGGED]
      ensures uid <= PIN_VERSION_UID_MAX ==>
                TagStops(device.turns, old(device.clock), old(device.nv), device.nv, uid)
      ensures uid <= PIN_VERSION_UID_MAX && old(TagShaped(device.nv, uid)) && SlotOf(uid) in old(device.nv) ==>
                Recovers(device.turns, old(device.clock), old(device.clock) + 1, device.nv, uid, r)
      ensures var fate := old(device.turns(device.clock)).fate;
              old(Solo(device.turns, device.clock)) && !fate.Works? ==>
                r == Err(TpmError(Rc(fate.kind))) && device.nv == old(device.nv)
    {
      ActsForIsTransitive(uid, maxAttempts);
      NextTurn(device.turns, device.clock);
      ghost var start := device.World();
      r := RestartContext(uid);
      if r.Ok? {
        r := WritePinVersionTag(uid);
        ghost var tagged, success := device.World(), r.Ok?;
        if r.Err? {
          r := RollbackSetup(uid);
        }
        if Solo(device.turns, start.clock) {
          assert TaggingLeaves(start.nv, device.nv, uid, pin, maxAttempts, r);
        }
        if uid <= PIN_VERSION_UID_MAX && TagShaped(start.nv, uid) && SlotOf(uid) in start.nv {
          TaggingRecovers(device.turns, start.clock, tagged.clock, device.clock, device.nv, uid, r);
        }
        if uid <= PIN_VERSION_UID_MAX && Solo(device.turns, start.clock) {
          TaggingIsStopped(device.turns, start.clock, tagged.clock, start.nv, tagged.nv, device.nv, uid, success);
        }
      }
    }

    /** Define the slot, write it and tag it. */
    method ProvisionSlot(uid: nat, pin: string) returns (r: Result<(), PinError>)
      modifies device
      ensures Acts(uid) && device.spent == old(device.spent)
      ensures uid <= PIN_VERSION_UID_MAX ==>
                Provisioned(device.turns, old(device.clock), old(device.nv), device.nv, uid, pin, maxAttempts, r)
    {
      ActsForIsTransitive(uid, maxAttempts);
      ghost var start := device.World();
      r := DefinePinSlot(uid, pin);
      ghost var defined, defining := device.World(), r;
      if r.Ok? {
        r := FinishSetup(uid, pin);
      }
      if uid <= PIN_VERSION_UID_MAX {
        DefinedAndTagged(device.turns, start.clock, defined.clock, start.nv, defined.nv, device.nv, uid, pin,
                         maxAttempts, defining, r);
      }
    }

    /** Provision a PIN. An occupied slot is refused, not overwritten. */
    method SetupPin(uid: nat, pin: string) returns (r: Result<(), PinError>)
      modifies device
      ensures Acts(uid) && device.spent == old(device.spent)
      ensures uid > PIN_VERSION_UID_MAX ==> r == Err(UidOverflow(uid)) && device.World() == old(device.World())
      ensures old(Solo(device.turns, device.clock) && TagShaped(device.nv, uid)) ==>
                SetUp(old(device.nv), device.nv, uid, pin, maxAttempts, r)
      ensures old(Solo(device.turns, device.clock) && Shaped(device.nv, uid)) ==>
                && Shaped(device.nv, uid) && SameElsewhere(uid, old(device.nv), device.nv)
                && SetupStage(View(old(device.nv), uid), View(device.nv, uid), pin, maxAttempts)
                && (r.Ok? ==> View(device.nv, uid) == Holder(pin, Exact, 0, maxAttempts))
      ensures uid <= PIN_VERSION_UID_MAX && old(Quiet(device.turns, device.clock) && Shaped(device.nv, uid)) ==>
                && Shaped(device.nv, uid) && SameElsewhere(uid, old(device.nv), device.nv)
                && (r, View(device.nv, uid)) == Setup(View(old(device.nv), uid), uid, pin, maxAttempts)
                && SetupTags(old(device.nv), device.nv, uid, pin, maxAttempts)
      ensures uid <= PIN_VERSION_UID_MAX ==>
                SetupStops(device.turns, old(device.clock), old(device.nv), device.nv, uid, pin, maxAttempts)
      ensures uid <= PIN_VERSION_UID_MAX && old(TagShaped(device.nv, uid)) && SlotOf(uid) !in old(device.nv)
              && Fits(pin) ==>
                && Recovers(device.turns, old(device.clock), old(device.clock) + 7, device.nv, uid, r)
                && Strands(device.turns, old(device.clock), old(device.clock) + 6, old(device.nv), device.nv, uid, pin,
                           maxAttempts, r)
    {
      ActsForIsTransitive(uid, maxAttempts);
      var index := NvIndexForUid(uid);
      if index.Err? {
        return Err(index.error);
      }
      ghost var start := device.World();
      var slot := ReadPinSlotOwner(uid);
      ghost var free := device.nv;
      if slot.Err? {
        r := Err(slot.error);
      } else if slot.value.Some? {
        r := Err(AlreadyProvisioned(uid));
      } else {
        r := ProvisionSlot(uid, pin);
      }
      LookedThenProvisioned(device.turns, start.clock, start.nv, free, device.nv, uid, pin, maxAttempts, slot, r);
    }

    // ---- Verification ----

    /** The PIN was refused: ask the owner-readable counter whether that locked the slot. */
    method ReportInvalid(uid: nat) returns (r: Result<VerificationResult, PinError>)
      modifies device
      ensures Acts(uid) && device.spent == old(device.spent)
      ensures r.Ok? && r.value.Invalid?
      ensures r.value.locked ==> ReadsSpent(device.nv, uid)
      ensures old(device.turns(device.clock)).fate.Works? ==> r.value.locked == ReadsSpent(device.nv, uid)
      ensures device.clock == old(device.clock) + 1
      ensures old(Solo(device.turns, device.clock)) ==> device.nv == old(device.nv)
    {
      ActsForIsTransitive(uid, maxAttempts);
      var slot := ReadPinSlotOwner(uid);
      r := Ok(Invalid(slot.Ok? && slot.value.Some? && slot.value.value.CounterSpent()));
    }

    /** Put one authorization value to the TPM and read the answer. */
    method TryAuth(uid: nat, auth: string) returns (r: Result<VerificationResult, PinError>)
      requires ByteLen(auth) <= MAX_AUTH_BUFFER
      modifies device
      ensures r.Err? ==> IsManagerError(r.error)
      ensures Acts(uid) && old(device.spent) <= device.spent <= old(device.spent) + 1
      ensures old(Consistent(device.World())) && r.Ok? && r.value.Success? ==>
                GuessAccepted(old(device.World()), device.World(), SlotOf(uid), auth)
      ensures device.AnswerIsTrue(uid, r)
      ensures var fate := old(device.turns(device.clock)).fate;
              !fate.Works? ==>
                if IsRefusal(fate.kind) then r.Ok? && r.value.Invalid?
                else r == Err(if IsMissing(fate.kind) then NotProvisioned(uid) else TpmError(Rc(fate.kind)))
      ensures old(Solo(device.turns, device.clock) && SlotShaped(device.nv, uid)) && SlotOf(uid) in old(device.nv) ==>
                Guessed(old(device.nv), device.nv, uid, auth, r, old(device.turns(device.clock)).fate)
      ensures old(Phantom(device.turns, device.clock, device.clock)) ==>
                device.nv == old(device.nv) && r == Ok(Invalid(ReadsSpent(device.nv, uid)))
      ensures old(Quiet(device.turns, device.clock) && SlotShaped(device.nv, uid)) && SlotOf(uid) in old(device.nv) ==>
                GuessedExactly(old(device.nv), device.nv, uid, auth, old(device.turns(device.clock)).refusal, r)
    {
      ActsForIsTransitive(uid, maxAttempts);
      ghost var start, nv, turn := device.clock, device.nv, device.turns(device.clock);
      var reply := Send(uid, ReadAuth(SlotOf(uid), auth));
      match reply {
        case Answer(payload) =>
          var slot := Decode(payload);
          r := if slot.None? then Err(TpmError(Wrapper))
               else Ok(if slot.value.CounterSpent() then LockedOut else Success(slot.value));
        case Fail(kind) =>
          if kind.AuthFail? || kind.BadAuth? {
            r := ReportInvalid(uid);
          } else {
            r := Err(if IsMissing(kind) then NotProvisioned(uid) else TpmError(Rc(kind)));
          }
      }
      if old(Solo(device.turns, device.clock)) && SlotShaped(nv, uid) && SlotOf(uid) in nv {
        GuessSettles(nv, device.nv, uid, auth, turn, r);
      }
      if Quiet(device.turns, start) && SlotShaped(nv, uid) && SlotOf(uid) in nv {
        GuessIsExact(nv, device.nv, uid, auth, turn.refusal, r);
      }
    }

    method VerifyPinExact(uid: nat, auth: string) returns (r: Result<VerificationResult, PinError>)
      modifies device
      ensures r.Err? ==> IsManagerError(r.error)
      ensures Acts(uid) && old(device.spent) <= device.spent <= old(device.spent) + 1
      ensures uid > PIN_VERSION_UID_MAX ==> r == Err(UidOverflow(uid)) && device.World() == old(device.World())
      ensures old(Consistent(device.World())) && r.Ok? && r.value.Success? ==>
                GuessAccepted(old(device.World()), device.World(), SlotOf(uid), auth)
      ensures device.AnswerIsTrue(uid, r)
      ensures var fate := old(device.turns(device.clock)).fate;
              uid <= PIN_VERSION_UID_MAX && !fate.Works? ==> r == Err(TpmError(Rc(fate.kind)))
      ensures old(Solo(device.turns, device.clock) && SlotShaped(device.nv, uid)) ==>
                Guessed(old(device.nv), device.nv, uid, auth, r, old(device.turns(device.clock + 1)).fate)
      ensures uid <= PIN_VERSION_UID_MAX && old(Phantom(device.turns, device.clock, device.clock + 1))
              && SlotOf(uid) in old(device.nv) && ByteLen(auth) <= MAX_AUTH_BUFFER ==>
                device.nv == old(device.nv) && r == Ok(Invalid(ReadsSpent(device.nv, uid)))
      ensures uid <= PIN_VERSION_UID_MAX && old(Quiet(device.turns, device.clock) && SlotShaped(device.nv, uid)) ==>
                GuessedExactly(old(device.nv), device.nv, uid, auth, old(device.turns(device.clock)).refusal, r)
    {
      ActsForIsTransitive(uid, maxAttempts);
      ghost var guessing := device.turns(device.clock + 1).fate;
      var index := NvIndexForUid(uid);
      if index.Err? {
        NothingIsAStage(device.nv, uid, auth, maxAttempts, Err(index.error), false, guessing);
        return Err(index.error);
      }
      var found := Send(uid, ReadPublic(index.value));
      if found.Fail? {
        NothingIsAStage(device.nv, uid, auth, maxAttempts, Err(TpmError(Rc(found.kind))), false, guessing);
        return Err(TpmError(Rc(found.kind)));
      }
      if ByteLen(auth) > MAX_AUTH_BUFFER {
        NothingIsAStage(device.nv, uid, auth, maxAttempts, Err(TpmError(Wrapper)), false, guessing);
        return Err(TpmError(Wrapper));
      }
      ghost var found' := device.World();
      ActsForOpens(uid, maxAttempts, old(device.World()), found');
      r := TryAuth(uid, auth);
      if old(Consistent(device.World())) && r.Ok? && r.value.Success? {
        AcceptanceWidens(old(device.World()), found', device.World(), device.World(), SlotOf(uid), auth);
      }
    }

    /** Bring a legacy slot whose secret has just been matched into the current format. */
    method MigrateLegacyPinFormat(uid: nat, entered: string) returns (r: Result<(), PinError>)
      modifies device
      ensures Acts(uid) && device.spent == old(device.spent)
      ensures old(Solo(device.turns, device.clock) && Shaped(device.nv, uid))
              && IsMatched(View(old(device.nv), uid)) ==>
                && Shaped(device.nv, uid) && SameElsewhere(uid, old(device.nv), device.nv)
                && MigrationStage(View(old(device.nv), uid), View(device.nv, uid), entered, maxAttempts)
                && (r.Ok? ==> View(device.nv, uid) == Migrated(View(old(device.nv), uid), entered, maxAttempts))
      ensures uid <= PIN_VERSION_UID_MAX && old(Quiet(device.turns, device.clock) && Shaped(device.nv, uid)) &&
              IsMatched(View(old(device.nv), uid)) ==>
                && Shaped(device.nv, uid) && SameElsewhere(uid, old(device.nv), device.nv)
                && View(device.nv, uid) == Migrated(View(old(device.nv), uid), entered, maxAttempts)
                && TagIn(device.nv, uid) == TagAfterMigration(entered)
    {
      ActsForIsTransitive(uid, maxAttempts);
      if NormalizeLegacyPin(entered) == entered {
        r := WritePinVersionTag(uid);
        return;
      }
      ghost var nv := device.nv;
      r := DeletePinAdmin(uid);
      ghost var deleted := device.nv;
      if r.Ok? {
        r := RestartContext(uid);
        if r.Ok? {
          r := SetupPin(uid, entered);
          ghost var set_up := r;
          if r.Ok? {
            r := RestartContext(uid);
          }
          if old(Solo(device.turns, device.clock)) && Shaped(nv, uid) && IsMatched(View(nv, uid)) {
            SetupIsAMigrationStage(nv, deleted, device.nv, uid, entered, maxAttempts, set_up);
          }
        }
      }
    }

    /**
     Migrate between two fresh connections. Whatever goes wrong inside the migration is only logged: the one
     failure that is reported is the reconnection this method has just attempted.
     */
    method UpgradeMatchedSlot(uid: nat, pin: string) returns (r: Result<(), PinError>)
      modifies device
      ensures r.Err? ==> IsManagerError(r.error)
      ensures Acts(uid) && device.spent == old(device.spent)
      ensures device.clock > 0
              && var fate := device.turns(device.clock - 1).fate;
                 if fate.Works? then r.Ok? else r == Err(TpmError(Rc(fate.kind)))
      ensures old(Solo(device.turns, device.clock)) ==> Upgraded(old(device.nv), device.nv, uid, pin, maxAttempts)
      ensures uid <= PIN_VERSION_UID_MAX && old(Quiet(device.turns, device.clock)) ==>
                r.Ok? && UpgradedExactly(old(device.nv), device.nv, uid, pin, maxAttempts)
    {
      ActsForIsTransitive(uid, maxAttempts);
      ghost var start := device.World();
      r := RestartContext(uid);
      if r.Ok? {
        var _ := MigrateLegacyPinFormat(uid, pin);
        r := RestartContext(uid);
      }
      if Solo(device.turns, start.clock) {
        assert UpgradeLeaves(start.nv, device.nv, uid, pin, maxAttempts);
        if uid <= PIN_VERSION_UID_MAX && Quiet(device.turns, start.clock) {
          assert UpgradeEnds(start.nv, device.nv, uid, pin, maxAttempts);
        }
      }
    }

    /** No tag to be seen: compare the legacy form of the PIN, and migrate if it matches. */
    method VerifyLegacyPin(uid: nat, pin: string) returns (r: Result<VerificationResult, PinError>)
      requires uid <= PIN_VERSION_UID_MAX
      modifies device
      ensures r.Err? ==> IsManagerError(r.error)
      ensures Acts(uid) && old(device.spent) <= device.spent <= old(device.spent) + 1
      ensures old(Consistent(device.World())) && r.Ok? && r.value.Success? ==>
                GuessAccepted(old(device.World()), device.World(), SlotOf(uid), NormalizeLegacyPin(pin))
      ensures device.AnswerIsTrue(uid, r)
      ensures old(Solo(device.turns, device.clock) && Shaped(device.nv, uid)) ==>
                Verified(old(device.nv), device.nv, uid, pin, maxAttempts, r, true,
                         old(device.turns(device.clock + 1)).fate)
      ensures old(Phantom(device.turns, device.clock, device.clock + 1)) && SlotOf(uid) in old(device.nv)
              && ByteLen(NormalizeLegacyPin(pin)) <= MAX_AUTH_BUFFER ==>
                device.nv == old(device.nv) && r == Ok(Invalid(ReadsSpent(device.nv, uid)))
      ensures old(Quiet(device.turns, device.clock) && Shaped(device.nv, uid)) ==>
                VerifiedAs(old(device.nv), device.nv, uid, pin, maxAttempts, Legacy,
                           old(device.turns(device.clock)).refusal, r)
    {
      ActsForIsTransitive(uid, maxAttempts);
      ghost var start := device.World();
      ghost var alone := Solo(device.turns, device.clock) && Shaped(device.nv, uid);
      ghost var guessing := device.turns(device.clock + 1).fate;
      r := VerifyPinExact(uid, NormalizeLegacyPin(pin));
      ghost var guess, matched := r, device.World();
      if r.Ok? && r.value.Success? {
        var upgraded := UpgradeMatchedSlot(uid, pin);
        if Consistent(start) {
          ActsForOpens(uid, maxAttempts, matched, device.World());
          AcceptanceWidens(start, start, matched, device.World(), SlotOf(uid), NormalizeLegacyPin(pin));
        }
        if upgraded.Err? {
          r := Err(upgraded.error);
        }
      }
      if alone {
        LegacyGuessIsVerification(start.nv, matched.nv, device.nv, uid, pin, maxAttempts, guess, r, guessing);
      }
      if alone && Quiet(device.turns, start.clock) {
        LegacyGuessEnds(start.nv, matched.nv, device.nv, uid, pin, maxAttempts, device.turns(start.clock).refusal, r);
      }
    }

    /** The rest of a verification, by the tag that was seen: none, or some version. */
    method VerifySeeing(uid: nat, pin: string, tag: Option<u8>) returns (r: Result<VerificationResult, PinError>)
      requires uid <= PIN_VERSION_UID_MAX
      modifies device
      ensures r.Err? ==> IsManagerError(r.error)
      ensures Acts(uid) && old(device.spent) <= device.spent <= old(device.spent) + 1
      ensures old(Consistent(device.World())) && r.Ok? && r.value.Success? ==>
                PinAccepted(old(device.World()), device.World(), uid, pin)
      ensures device.AnswerIsTrue(uid, r)
      ensures tag.Some? && tag.value != PIN_VERSION_CURRENT ==>
                r == Err(TpmError(UnsupportedVersion(tag.value))) && device.World() == old(device.World())
      ensures VerifiedSeeing(device.turns, old(device.clock), old(device.nv), device.nv, uid, pin, tag, maxAttempts, r)
    {
      ghost var nv, start, guessing := device.nv, device.clock, device.turns(device.clock + 1).fate;
      if tag.None? {
        r := VerifyLegacyPin(uid, pin);
      } else if tag.value != PIN_VERSION_CURRENT {
        r := Err(TpmError(UnsupportedVersion(tag.value)));
        NothingIsAStage(nv, uid, pin, maxAttempts, r, false, guessing);
      } else {
        r := VerifyPinExact(uid, pin);
        if Solo(device.turns, start) && Shaped(nv, uid) && Tagged(nv, uid) {
          GuessIsVerification(nv, device.nv, uid, pin, maxAttempts, r, guessing);
        }
        if Quiet(device.turns, start) && Shaped(nv, uid) {
          ExactGuessEnds(nv, device.nv, uid, pin, maxAttempts, device.turns(start).refusal, r);
        }
      }
      assert SeeingEnds(device.turns, start, nv, device.nv, uid, pin, tag, maxAttempts, r);
    }

    /** Validate a PIN. `Invalid` and `LockedOut` are results; a missing slot is an error. */
    method VerifyPin(uid: nat, pin: string) returns (r: Result<VerificationResult, PinError>)
      modifies device
      ensures r.Err? ==> IsManagerError(r.error)
      ensures Acts(uid) && old(device.spent) <= device.spent <= old(device.spent) + 1
      ensures uid > PIN_VERSION_UID_MAX ==> r == Err(UidOverflow(uid)) && device.World() == old(device.World())
      ensures old(Consistent(device.World())) && r.Ok? && r.value.Success? ==>
                PinAccepted(old(device.World()), device.World(), uid, pin)
      ensures device.AnswerIsTrue(uid, r)
      ensures uid <= PIN_VERSION_UID_MAX && old(Solo(device.turns, device.clock) && Shaped(device.nv, uid)) ==>
                Verified(old(device.nv), device.nv, uid, pin, maxAttempts, r,
                         HidesIndex(old(device.turns(device.clock))),
                         old(device.turns(device.clock + 2)).fate)
      ensures uid <= PIN_VERSION_UID_MAX
              && old(Phantom(device.turns, device.clock, device.clock + 2) && Shaped(device.nv, uid))
              && View(old(device.nv), uid).Holder?
              && ByteLen(Key(View(old(device.nv), uid).format, pin)) <= MAX_AUTH_BUFFER ==>
                device.nv == old(device.nv) && r == Ok(Invalid(ReadsSpent(device.nv, uid)))
      ensures uid <= PIN_VERSION_UID_MAX && old(Misread(device.turns, device.clock) && Shaped(device.nv, uid)) ==>
                VerifiedAs(old(device.nv), device.nv, uid, pin, maxAttempts, Legacy,
                           old(device.turns(device.clock + 1)).refusal, r)
      ensures uid <= PIN_VERSION_UID_MAX && old(Quiet(device.turns, device.clock) && Shaped(device.nv, uid)) ==>
                VerifiedExactly(old(device.nv), device.nv, uid, pin, maxAttempts,
                                old(device.turns(device.clock)).refusal, r)
      ensures uid <= PIN_VERSION_UID_MAX && old(Solo(device.turns, device.clock))
              && old(device.turns(device.clock)).fate.Works? ==>
                TagIsObeyed(old(device.nv), device.nv, uid, r)
      ensures uid <= PIN_VERSION_UID_MAX && old(Quiet(device.turns, device.clock) && Shaped(device.nv, uid))
              && SlotOf(uid) !in old(device.nv) ==>
                r == Err(TpmError(Rc(Handle))) && SlotOf(uid) !in device.nv
    {
      ActsForIsTransitive(uid, maxAttempts);
      ghost var start := device.World();
      var tag := ReadPinVersionTag(uid);
      ghost var tagged := device.World();
      if tag.Err? {
        r := Err(tag.error);
      } else {
        ActsForOpens(uid, maxAttempts, start, tagged);
        r := VerifySeeing(uid, pin, tag.value);
        if Consistent(start) && r.Ok? && r.value.Success? {
          PinAcceptanceWidens(start, tagged, device.World(), device.World(), uid, pin);
        }
      }
      if uid <= PIN_VERSION_UID_MAX && Solo(device.turns, start.clock) {
        ReadThenVerified(device.turns, start.clock, start.nv, tagged.nv, device.nv, uid, pin, maxAttempts, tag, r);
      }
    }

    /** Delete a PIN its owner can still type. */
    method DeletePinWithAuth(uid: nat, pin: string) returns (r: Result<DeleteResult, PinError>)
      modifies device
      ensures r.Err? ==> IsManagerError(r.error)
      ensures Acts(uid) && old(device.spent) <= device.spent <= old(device.spent) + 1
      ensures uid > PIN_VERSION_UID_MAX ==> r == Err(UidOverflow(uid)) && device.World() == old(device.World())
      ensures old(Consistent(device.World())) && r == Ok(Deleted) ==>
                PinAccepted(old(device.World()), device.World(), uid, pin)
      ensures uid <= PIN_VERSION_UID_MAX && old(Solo(device.turns, device.clock) && Shaped(device.nv, uid)) ==>
                Erased(old(device.nv), device.nv, uid, pin, maxAttempts, r == Ok(Deleted),
                       HidesIndex(old(device.turns(device.clock))))
      ensures uid <= PIN_VERSION_UID_MAX && old(Quiet(device.turns, device.clock) && Shaped(device.nv, uid)) ==>
                DeletedExactly(old(device.nv), device.nv, uid, pin, maxAttempts,
                               old(device.turns(device.clock)).refusal, r)
    {
      ActsForIsTransitive(uid, maxAttempts);
      ghost var start := device.World();
      ghost var hidden, guessing := HidesIndex(device.turns(device.clock)), device.turns(device.clock + 2).fate;
      var verified := VerifyPin(uid, pin);
      if uid <= PIN_VERSION_UID_MAX && Solo(device.turns, start.clock) && Shaped(start.nv, uid) {
        VerifiedKeepsShape(start.nv, device.nv, uid, pin, maxAttempts, verified, hidden, guessing);
      }
      ghost var matched, removed := device.World(), Ok(());
      match verified {
        case Err(error) =>
          r := Err(error);
        case Ok(Success(_)) =>
          var deleted := DeletePinAdmin(uid);
          removed := deleted;
          if Consistent(start) {
            ActsForOpens(uid, maxAttempts, matched, device.World());
            PinAcceptanceWidens(start, start, matched, device.World(), uid, pin);
          }
          r := if deleted.Err? then Err(deleted.error) else Ok(Deleted);
        case Ok(Invalid(locked)) =>
          r := Ok(DeleteInvalid(locked));
        case Ok(LockedOut) =>
          r := Ok(DeleteLockedOut);
      }
      if uid <= PIN_VERSION_UID_MAX && Solo(device.turns, start.clock) && Shaped(start.nv, uid) {
        VerifiedThenErased(start.nv, matched.nv, device.nv, uid, pin, maxAttempts, verified, r == Ok(Deleted), hidden,
                           guessing);
      }
      if uid <= PIN_VERSION_UID_MAX && Quiet(device.turns, start.clock) && Shaped(start.nv, uid) {
        VerifiedThenDeleted(start.nv, matched.nv, device.nv, uid, pin, maxAttempts,
                            device.turns(start.clock).refusal, verified, removed);
      }
    }

    // ---- Queries ----

    method GetPinSlot(uid: nat) returns (r: Result<Option<PinData>, PinError>)
      modifies device
      ensures r.Err? ==> IsManagerError(r.error)
      ensures Acts(uid) && device.spent == old(device.spent)
      ensures uid > PIN_VERSION_UID_MAX ==> r == Err(UidOverflow(uid)) && device.World() == old(device.World())
      ensures old(Solo(device.turns, device.clock)) ==> device.nv == old(device.nv)
      ensures r.Ok? && r.value.Some? ==> r == SlotReading(device.nv, uid)
      ensures uid <= PIN_VERSION_UID_MAX ==> device.clock == old(device.clock) + 1
      ensures uid <= PIN_VERSION_UID_MAX ==>
                var fate := old(device.turns(device.clock)).fate;
                r == if fate.Works? then SlotReading(device.nv, uid) else Missed(fate.kind)
    {
      ActsForIsTransitive(uid, maxAttempts);
      var index := NvIndexForUid(uid);
      if index.Err? {
        return Err(index.error);
      }
      r := ReadPinSlotOwner(uid);
    }

    method IsLockedOut(uid: nat) returns (r: Result<bool, PinError>)
      modifies device
      ensures Acts(uid) && device.spent == old(device.spent)
      ensures old(Solo(device.turns, device.clock)) ==> device.nv == old(device.nv)
      ensures uid > PIN_VERSION_UID_MAX ==> r == Err(UidOverflow(uid)) && device.World() == old(device.World())
      ensures r == Ok(true) ==> ReadsSpent(device.nv, uid)
      ensures var fate := old(device.turns(device.clock)).fate;
              uid <= PIN_VERSION_UID_MAX && !fate.Works? ==>
                r == if IsMissing(fate.kind) then Ok(false) else Err(TpmError(Rc(fate.kind)))
      ensures uid <= PIN_VERSION_UID_MAX && old(Solo(device.turns, device.clock) && SlotShaped(device.nv, uid)
              && device.turns(device.clock).fate.Works?) ==>
                r == Ok(Slot(View(device.nv, uid)).Some? && Slot(View(device.nv, uid)).value.CounterSpent())
    {
      ActsForIsTransitive(uid, maxAttempts);
      var slot := GetPinSlot(uid);
      if slot.Err? {
        return Err(slot.error);
      }
      r := Ok(slot.value.Some? && slot.value.value.CounterSpent());
    }

    method GetAttemptCount(uid: nat) returns (r: Result<Option<u32>, PinError>)
      modifies device
      ensures r.Err? ==> IsManagerError(r.error)
      ensures Acts(uid) && device.spent == old(device.spent)
      ensures old(Solo(device.turns, device.clock)) ==> device.nv == old(device.nv)
      ensures uid > PIN_VERSION_UID_MAX ==> r == Err(UidOverflow(uid)) && device.World() == old(device.World())
      ensures uid <= PIN_VERSION_UID_MAX ==> device.clock == old(device.clock) + 1
      ensures uid <= PIN_VERSION_UID_MAX && old(Solo(device.turns, device.clock) && SlotShaped(device.nv, uid)
              && device.turns(device.clock).fate.Works?) ==>
                r == Ok(if View(device.nv, uid).Holder? then Some(View(device.nv, uid).failures) else None)
      ensures var fate := old(device.turns(device.clock)).fate;
              uid <= PIN_VERSION_UID_MAX && !fate.Works? ==>
                r == if IsMissing(fate.kind) then Ok(None) else Err(TpmError(Rc(fate.kind)))
    {
      ActsForIsTransitive(uid, maxAttempts);
      var slot := GetPinSlot(uid);
      if slot.Err? {
        return Err(slot.error);
      }
      r := Ok(if slot.value.None? then None else Some(AsUnsigned(slot.value.value.pinCount)));
    }
  }
}
