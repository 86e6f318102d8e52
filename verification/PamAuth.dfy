/**
 The PAM module's authentication flow (pinpam-pam/src/lib.rs) on top of the helper processes
 it starts. Prompts, replies and process failures are inputs.
 */
module PamAuth {
  import opened Wrappers
  import opened PinCodec
  import opened PinErrors
  import opened Text
  import opened Tpm
  import opened Policy
  import opened PinContracts
  import opened Accounts
  import opened PinManagement
  import opened Pinutil

  datatype PamCode =
    | SUCCESS | AUTH_ERR | AUTHINFO_UNAVAIL | MAXTRIES | USER_UNKNOWN | CONV_ERR | SYSTEM_ERR

  // ---- Module arguments ----

  datatype ModuleArgs = ModuleArgs(tryFirstPass: bool, useFirstPass: bool) {
    predicate WantsFirstPass() {
      tryFirstPass || useFirstPass
    }
  }

  /** `ModuleArgs::from_strs`: the two known flags, in any order and any company. */
  method FromStrs(args: seq<string>) returns (out: ModuleArgs)
    ensures out.tryFirstPass <==> "try_first_pass" in args
    ensures out.useFirstPass <==> "use_first_pass" in args
  {
    out := ModuleArgs(false, false);
    for i := 0 to |args|
      invariant out.tryFirstPass <==> "try_first_pass" in args[..i]
      invariant out.useFirstPass <==> "use_first_pass" in args[..i]
    {
      if args[i] == "try_first_pass" {
        out := out.(tryFirstPass := true);
      } else if args[i] == "use_first_pass" {
        out := out.(useFirstPass := true);
      }
    }
  }

  datatype FirstPassDecision = TryFirstPass(pin: string) | PromptUser | Deny

  function DecideFirstPass(args: ModuleArgs, authtok: Option<string>, policy: PinPolicy): FirstPassDecision {
    if !args.WantsFirstPass() then PromptUser
    else
      var candidate := if authtok.None? then Err(PinIsEmpty) else NewPin(authtok.value, policy);
      if candidate.Ok? then TryFirstPass(candidate.value)
      else if args.useFirstPass then Deny
      else PromptUser
  }

  /** The README's account of the two flags. */
  lemma FirstPassFlags(args: ModuleArgs, authtok: Option<string>, policy: PinPolicy)
    ensures var usable := authtok.Some? && NewPin(authtok.value, policy).Ok?;
            var d := DecideFirstPass(args, authtok, policy);
            && (d.TryFirstPass? <==> args.WantsFirstPass() && usable)
            && (d.Deny? <==> args.useFirstPass && !usable)
            && (d.TryFirstPass? ==> IsPin(d.pin, policy) && d.pin == Trim(authtok.value))
  {
    if authtok.Some? {
      NewPinIsIdempotent(authtok.value, policy);
    }
  }

  // ---- Helper processes ----

  datatype PinStatus = StatusUnavailable | StatusLockedOut | NotProvisionedStatus | Available(used: u32, limit: u32)

  function StatusOf(r: Result<Option<AttemptInfo>, PinError>): PinStatus {
    match r
    case Err(PinIsLocked) => StatusLockedOut
    case Err(_) => StatusUnavailable
    case Ok(None) => NotProvisionedStatus
    case Ok(Some(info)) => if info.Locked() then StatusLockedOut else Available(info.used, info.limit)
  }

  datatype TestOutcome = TestSuccess | InvalidPin | TestLockedOut | NewlyLockedOut | NotConfigured | TestUnavailable

  function OutcomeOf(r: Result<(), PinError>): TestOutcome {
    match r
    case Ok(_) => TestSuccess
    case Err(PinIsLocked) => TestLockedOut
    case Err(IncorrectPin(locked)) => if locked then NewlyLockedOut else InvalidPin
    case Err(NotProvisioned(_)) => NotConfigured
    case Err(_) => TestUnavailable
  }

  /** How starting the helper goes. When writing the PIN fails, the helper still runs on whatever it was sent. */
  datatype Spawn = Runs | NotStarted | Undecodable | WriteFails(seen: string)

  /** The PIN and a newline, as the helper's first `read_line` sees them. */
  function PipeLine(pin: string): Line {
    Line(FirstLine(pin + "\n"))
  }

  /** What the helper makes of the PIN it is sent. */
  function HelperReads(pin: string, policy: PinPolicy): Result<string, PinError> {
    NewPin(FirstLine(pin + "\n"), policy)
  }

  /**
   The helper reads these counters off the store; stated so that proofs open it only where they mention `StatusOf`.
   */
  ghost predicate Counts(nv: Store, uid: nat, used: u32, limit: u32) {
    forall a :: Shaped(nv, uid) && a == View(nv, uid) ==> StatusOf(Ok(Attempts(a))) == Available(used, limit)
  }

  method RunPinutilStatus(device: Device, policy: PinPolicy, user: Option<nat>, spawn: Spawn)
    returns (status: PinStatus)
    modifies device
    ensures user.None? ==> device.World() == old(device.World())
    ensures user.Some? ==> Ran(device, user.value, policy) && device.spent == old(device.spent)
    ensures !spawn.Runs? || user.None? ==> status == StatusUnavailable
    ensures user.Some? && old(Alone(device, user.value)) ==>
              && device.nv == old(device.nv)
              && (status.Available? ==>
                    device.clock == old(device.clock) + 2 && Counts(device.nv, user.value, status.used, status.limit))
    ensures user.Some? && spawn.Runs? && old(Alone(device, user.value))
            && old(device.turns(device.clock)).fate.Works? && old(device.turns(device.clock + 1)).fate.Works? ==>
              status == StatusOf(Ok(Attempts(View(old(device.nv), user.value))))
  {
    status := StatusUnavailable;
    if !spawn.NotStarted? {
      var r := ShowStatus(device, policy, user);
      if spawn.Runs? && r.Ok? {         // on an error the helper exits with a failure code
        status := StatusOf(r);
      }
    }
  }

  /** A test that read the tag at turn n was refused: what that says of the account before and after. */
  predicate RefusalLeaves(turns: Schedule, nv: Store, nv': Store, uid: nat, typed: Result<string, PinError>, n: nat) {
    && Shaped(nv, uid) && Shaped(nv', uid) && SameElsewhere(uid, nv, nv') && typed.Ok?
    && RefusalStage(turns(n + 2).fate, View(nv, uid), View(nv', uid),
                    Key(FormatSeen(View(nv, uid), HidesIndex(turns(n))), typed.value))
  }

  /** The same, stated so that proofs open it only where they mention `RefusalLeaves`. */
  ghost predicate Refused(turns: Schedule, nv: Store, nv': Store, uid: nat, typed: Result<string, PinError>, n: nat) {
    forall v :: v == nv' ==> RefusalLeaves(turns, nv, v, uid, typed, n)
  }

  lemma RefusedTest(turns: Schedule, nv: Store, nv': Store, uid: nat, typed: Result<string, PinError>, maxAttempts: u32,
                    r: Result<(), PinError>, n: nat)
    requires Tested(turns, nv, nv', uid, typed, true, maxAttempts, r, n)
    ensures Shaped(nv', uid) && SameElsewhere(uid, nv, nv')
    ensures r.Err? && r.error.IncorrectPin? ==> Refused(turns, nv, nv', uid, typed, n)
  {
    assert TestLeaves(turns, nv, nv', uid, typed, true, maxAttempts, r, n);
    if r.Err? && r.error.IncorrectPin? {
      assert RefusalLeaves(turns, nv, nv', uid, typed, n);
    }
  }

  method RunPinutilTest(device: Device, policy: PinPolicy, user: Option<nat>, caller: Caller, pin: string, spawn: Spawn)
    returns (outcome: Option<TestOutcome>)
    modifies device
    ensures user.None? ==> device.World() == old(device.World())
    ensures user.Some? ==> Ran(device, user.value, policy) && old(device.spent) <= device.spent <= old(device.spent) + 1
    ensures outcome.None? <==> !spawn.Runs?
    ensures spawn.Runs? && (user.None? || (caller.euid != 0 && caller.uid != user.value)) ==>
              outcome == Some(TestUnavailable)
    ensures outcome == Some(TestSuccess) ==> user.Some?
    ensures outcome == Some(TestSuccess) && old(Consistent(device.World())) ==>
              && HelperReads(pin, policy).Ok?
              && PinAccepted(old(device.World()), device.World(), user.value, HelperReads(pin, policy).value)
    ensures user.Some? && old(Alone(device, user.value)) ==>
              && Framed(device, user.value)
              && (outcome == Some(InvalidPin) ==>
                    Refused(device.turns, old(device.nv), device.nv, user.value, HelperReads(pin, policy),
                            old(device.clock) + 2))
    ensures user.Some? && CanAttemptPin(caller, user.value) && spawn.Runs? && old(Haunted(device, user.value, 4))
            && IsTestable(View(old(device.nv), user.value), HelperReads(pin, policy)) ==>
              device.nv == old(device.nv)
                  && outcome == Some(OutcomeOf(Err(IncorrectPin(ReadsSpent(device.nv, user.value)))))
    ensures user.Some? && CanAttemptPin(caller, user.value) && spawn.Runs? && old(Undisturbed(device, user.value)) ==>
              var (r, a') := TestAccount(View(old(device.nv), user.value), user.value, [PipeLine(pin)], true,
                                         policy, old(device.turns(device.clock)).refusal);
              outcome == Some(OutcomeOf(r)) && Became(device, user.value, a')
  {
    if spawn.NotStarted? {
      return None;
    }
    ghost var nv, start := device.nv, device.clock;
    ghost var alone := user.Some? && Alone(device, user.value);
    ghost var haunted := user.Some? && CanAttemptPin(caller, user.value) && Haunted(device, user.value, 4);
    var line := if spawn.WriteFails? then Line(spawn.seen) else PipeLine(pin);
    var console := new Console([line]);
    assert Typed(console.lines, 0, policy) == NewPin(line.text, policy);
    var r := TestPin(device, policy, user, caller, console, true);
    if alone {
      RefusedTest(device.turns, nv, device.nv, user.value, NewPin(line.text, policy), policy.maxAttempts, r, start + 2);
    }
    if alone && spawn.Runs? && CanAttemptPin(caller, user.value) && Quiet(device.turns, start) {
      assert TestEnds(nv, device.nv, user.value, [PipeLine(pin)], true, policy, device.turns(start).refusal, r);
    }
    if haunted {
      assert GhostRefusal(nv, device.nv, user.value, NewPin(line.text, policy), r);
    }
    outcome := if spawn.Runs? then Some(OutcomeOf(r)) else None;
  }

  function FinalizeOutcome(outcome: TestOutcome): PamCode {
    match outcome
    case TestSuccess => SUCCESS
    case InvalidPin => AUTH_ERR
    case NewlyLockedOut => MAXTRIES
    case TestLockedOut => MAXTRIES
    case NotConfigured => AUTHINFO_UNAVAIL
    case TestUnavailable => AUTHINFO_UNAVAIL
  }

  /** What a login answers, by what the helper's test answers. */
  lemma HelperDecides(r: Result<(), PinError>)
    ensures FinalizeOutcome(OutcomeOf(r)) ==
            match r
            case Ok(_) => SUCCESS
            case Err(PinIsLocked) => MAXTRIES
            case Err(IncorrectPin(locked)) => if locked then MAXTRIES else AUTH_ERR
            case Err(_) => AUTHINFO_UNAVAIL
  {
  }

  // ---- The conversation ----

  /**
   The user's answer to the prompt, and what happens to the notice that an answer is unusable. A conversation
   that fails does so with a code other than success.
   */
  datatype Conversation = Conversation(reply: Result<string, PamCode>, notice: Result<(), PamCode>) {
    predicate Genuine() {
      reply != Err(SUCCESS) && notice != Err(SUCCESS)
    }
  }

  function PromptForPin(used: u32, limit: u32, io: Conversation, policy: PinPolicy): Result<string, PamCode>
    requires used <= limit
  {
    if limit - used == 0 then Err(AUTHINFO_UNAVAIL)
    else if io.reply.Err? then io.reply
    else if NewPin(Trim(io.reply.value), policy).Ok? then Ok(NewPin(Trim(io.reply.value), policy).value)
    else Err(if io.notice.Err? then io.notice.error else AUTH_ERR)
  }

  function SaturatingAddOne(x: u32): u32 {
    if x == TWO_TO_THE_32 - 1 then x else x + 1
  }

  /** What the process environment does during one authentication. */
  datatype Environment = Environment(
    user: Option<nat>,
    caller: Caller,
    io: Conversation,
    statusSpawn: Spawn,
    firstSpawn: Spawn,
    secondSpawn: Spawn)

  /** The first phase: what is known before anybody is prompted. */
  datatype Phase = Decided(code: PamCode) | AskUser(used: u32, limit: u32)

  /** What is handed to the helper last: the answer at the prompt, or the stacked token. */
  function Submitted(decision: FirstPassDecision, io: Conversation, prompted: bool, policy: PinPolicy): Option<string> {
    if !prompted then if decision.TryFirstPass? then Some(decision.pin) else None
    else if io.reply.Ok? && NewPin(Trim(io.reply.value), policy).Ok?
    then Some(NewPin(Trim(io.reply.value), policy).value)
    else None
  }

  /** The TPM accepted, at our request, what the helper read of this text. */
  ghost predicate AcceptedFrom(w: World, later: World, uid: nat, submitted: Option<string>, policy: PinPolicy) {
    && submitted.Some? && HelperReads(submitted.value, policy).Ok?
    && PinAccepted(w, later, uid, HelperReads(submitted.value, policy).value)
  }

  lemma AcceptedSince(w: World, a: World, b: World, later: World, uid: nat, submitted: Option<string>,
                      policy: PinPolicy)
    requires w.history <= a.history && b.history <= later.history
    ensures AcceptedFrom(a, b, uid, submitted, policy) ==> AcceptedFrom(w, later, uid, submitted, policy)
  {
    if AcceptedFrom(a, b, uid, submitted, policy) {
      PinAcceptanceWidens(w, a, b, later, uid, HelperReads(submitted.value, policy).value);
    }
  }

  // ---- The phases on an account ----

  /** A denial and a prompt need no helper; a token cannot be tried without one, or without permission. */
  predicate PhaseFor(env: Environment, uid: nat, decision: FirstPassDecision, used: u32, limit: u32, phase: Phase) {
    match decision
    case Deny => phase == Decided(AUTH_ERR)
    case PromptUser => phase == AskUser(used, limit)
    case TryFirstPass(_) =>
      !env.firstSpawn.Runs? || (env.caller.euid != 0 && env.caller.uid != uid) ==> phase == Decided(AUTHINFO_UNAVAIL)
  }

  /** The same, stated so that proofs open it only where they mention `PhaseFor`. */
  ghost predicate ObeysDecision(env: Environment, uid: nat, decision: FirstPassDecision, used: u32, limit: u32,
                                phase: Phase)
  {
    forall p :: p == phase ==> PhaseFor(env, uid, decision, used, limit, p)
  }

  /** The first phase on an account, when every helper runs and nothing disturbs the TPM. */
  function FirstPhaseOf(a: Account, uid: nat, args: ModuleArgs, authtok: Option<string>, used: u32, limit: u32,
                        policy: PinPolicy, refusal: Kind): (Phase, Account)
  {
    match DecideFirstPass(args, authtok, policy)
    case Deny => (Decided(AUTH_ERR), a)
    case PromptUser => (AskUser(used, limit), a)
    case TryFirstPass(pin) =>
      var (r, a') := TestAccount(a, uid, [PipeLine(pin)], true, policy, refusal);
      if OutcomeOf(r).InvalidPin? && !args.useFirstPass then (AskUser(SaturatingAddOne(used), limit), a')
      else (Decided(FinalizeOutcome(OutcomeOf(r))), a')
  }

  /** The prompt and the attempt it leads to, on an account. */
  function SecondPhaseOf(a: Account, uid: nat, env: Environment, used: u32, limit: u32, policy: PinPolicy,
                         refusal: Kind)
    : (PamCode, Account, Option<(u32, u32)>)
  {
    if used >= limit then (MAXTRIES, a, None)
    else
      var pin := PromptForPin(used, limit, env.io, policy);
      if pin.Err? then (pin.error, a, Some((used, limit)))
      else
        var (r, a') := TestAccount(a, uid, [PipeLine(pin.value)], true, policy, refusal);
        (FinalizeOutcome(OutcomeOf(r)), a', Some((used, limit)))
  }

  /** Both phases on an account that has attempts left. */
  function PhasesOf(a: Account, uid: nat, env: Environment, args: ModuleArgs, authtok: Option<string>, used: u32,
                    limit: u32, policy: PinPolicy, refusal: Kind): (PamCode, Account, Option<(u32, u32)>)
  {
    var (phase, a') := FirstPhaseOf(a, uid, args, authtok, used, limit, policy, refusal);
    if phase.Decided? then (phase.code, a', None)
    else SecondPhaseOf(a', uid, env, phase.used, phase.limit, policy, refusal)
  }

  // ---- The phases, read off stores ----

  /** An undisturbed first phase. */
  predicate PhaseEnds(nv: Store, nv': Store, uid: nat, args: ModuleArgs, authtok: Option<string>, used: u32, limit: u32,
                      policy: PinPolicy, refusal: Kind, phase: Phase)
  {
    && Shaped(nv, uid) && Shaped(nv', uid) && SameElsewhere(uid, nv, nv')
    && (phase, View(nv', uid)) == FirstPhaseOf(View(nv, uid), uid, args, authtok, used, limit, policy, refusal)
  }

  /** The same, stated so that proofs open it only where they mention `PhaseEnds`. */
  ghost predicate PhasedExactly(nv: Store, nv': Store, uid: nat, args: ModuleArgs, authtok: Option<string>, used: u32,
                                limit: u32, policy: PinPolicy, refusal: Kind, phase: Phase)
  {
    forall v :: v == nv' ==> PhaseEnds(nv, v, uid, args, authtok, used, limit, policy, refusal, phase)
  }

  /** An undisturbed second phase. */
  predicate PromptEnds(nv: Store, nv': Store, uid: nat, env: Environment, used: u32, limit: u32, policy: PinPolicy,
                       refusal: Kind, code: PamCode, prompted: Option<(u32, u32)>)
  {
    && Shaped(nv, uid) && Shaped(nv', uid) && SameElsewhere(uid, nv, nv')
    && (code, View(nv', uid), prompted) == SecondPhaseOf(View(nv, uid), uid, env, used, limit, policy, refusal)
  }

  /** The same, stated so that proofs open it only where they mention `PromptEnds`. */
  ghost predicate PromptedExactly(nv: Store, nv': Store, uid: nat, env: Environment, used: u32, limit: u32,
                                  policy: PinPolicy, refusal: Kind, code: PamCode, prompted: Option<(u32, u32)>)
  {
    forall v :: v == nv' ==> PromptEnds(nv, v, uid, env, used, limit, policy, refusal, code, prompted)
  }

  /** Both phases, undisturbed. */
  predicate PhasesEnd(nv: Store, nv': Store, uid: nat, env: Environment, args: ModuleArgs, authtok: Option<string>,
                      used: u32, limit: u32, policy: PinPolicy, refusal: Kind, code: PamCode,
                      prompted: Option<(u32, u32)>)
  {
    && Shaped(nv, uid) && Shaped(nv', uid) && SameElsewhere(uid, nv, nv')
    && (code, View(nv', uid), prompted) ==
       PhasesOf(View(nv, uid), uid, env, args, authtok, used, limit, policy, refusal)
  }

  /** The same, stated so that proofs open it only where they mention `PhasesEnd`. */
  ghost predicate DecidedExactly(nv: Store, nv': Store, uid: nat, env: Environment, args: ModuleArgs,
                                 authtok: Option<string>, used: u32, limit: u32, policy: PinPolicy, refusal: Kind,
                                 code: PamCode, prompted: Option<(u32, u32)>)
  {
    forall v :: v == nv' ==>
      PhasesEnd(nv, v, uid, env, args, authtok, used, limit, policy, refusal, code, prompted)
  }

  lemma PhasedThenPrompted(nv: Store, phased: Store, nv': Store, uid: nat, env: Environment, args: ModuleArgs,
                           authtok: Option<string>, used: u32, limit: u32, policy: PinPolicy, refusal: Kind,
                           phase: Phase, code: PamCode, prompted: Option<(u32, u32)>)
    requires PhasedExactly(nv, phased, uid, args, authtok, used, limit, policy, refusal, phase)
    requires if phase.Decided? then nv' == phased && code == phase.code && prompted.None?
             else Shaped(phased, uid) ==>
                    PromptedExactly(phased, nv', uid, env, phase.used, phase.limit, policy, refusal, code, prompted)
    ensures DecidedExactly(nv, nv', uid, env, args, authtok, used, limit, policy, refusal, code, prompted)
  {
    assert PhaseEnds(nv, phased, uid, args, authtok, used, limit, policy, refusal, phase);
    if phase.AskUser? {
      assert PromptEnds(phased, nv', uid, env, phase.used, phase.limit, policy, refusal, code, prompted);
    }
    assert PhasesEnd(nv, nv', uid, env, args, authtok, used, limit, policy, refusal, code, prompted);
  }

  method FirstPhase(device: Device, policy: PinPolicy, uid: nat, env: Environment, args: ModuleArgs,
                    authtok: Option<string>, used: u32, limit: u32)
    returns (phase: Phase)
    requires env.user == Some(uid)
    modifies device
    ensures Ran(device, uid, policy) && old(device.spent) <= device.spent <= old(device.spent) + 1
    ensures !DecideFirstPass(args, authtok, policy).TryFirstPass? ==> device.World() == old(device.World())
    ensures args.useFirstPass ==> phase.Decided?
    ensures ObeysDecision(env, uid, DecideFirstPass(args, authtok, policy), used, limit, phase)
    ensures phase == Decided(SUCCESS) && old(Consistent(device.World())) ==>
              AcceptedFrom(old(device.World()), device.World(), uid,
                           Submitted(DecideFirstPass(args, authtok, policy), env.io, false, policy), policy)
    ensures old(Alone(device, uid)) && phase.AskUser? ==>
              BeforePrompt(device.turns, old(device.nv), device.nv, uid, DecideFirstPass(args, authtok, policy), policy,
                           used, limit, (phase.used, phase.limit), old(device.clock) + 2)
    ensures CanAttemptPin(env.caller, uid) && env.firstSpawn.Runs? && old(Haunted(device, uid, 4))
            && RejectedByGhost(View(old(device.nv), uid), args, authtok, policy) ==>
              device.nv == old(device.nv) && phase == AskUser(SaturatingAddOne(used), limit)
    ensures CanAttemptPin(env.caller, uid) && env.firstSpawn.Runs? && old(Undisturbed(device, uid)) ==>
              PhasedExactly(old(device.nv), device.nv, uid, args, authtok, used, limit, policy,
                            old(device.turns(device.clock)).refusal, phase)
  {
    match DecideFirstPass(args, authtok, policy) {
      case Deny => return Decided(AUTH_ERR);
      case PromptUser => return AskUser(used, limit);
      case TryFirstPass(pin) =>
        var outcome := RunPinutilTest(device, policy, env.user, env.caller, pin, env.firstSpawn);
        if outcome.None? {
          return Decided(AUTHINFO_UNAVAIL);
        }
        if outcome.value.TestSuccess? {
          return Decided(SUCCESS);
        }
        if args.useFirstPass || !outcome.value.InvalidPin? {
          return Decided(FinalizeOutcome(outcome.value));
        }
        phase := AskUser(SaturatingAddOne(used), limit);
    }
  }

  /** How the store and the module's counters got to the prompt; the tag was read at turn n if a token was tried. */
  ghost predicate ReachesPrompt(turns: Schedule, nv: Store, nv': Store, uid: nat, decision: FirstPassDecision,
                                policy: PinPolicy, used: u32, limit: u32, shown: (u32, u32), n: nat)
  {
    if decision.TryFirstPass? then
      && shown == (SaturatingAddOne(used), limit)
      && Refused(turns, nv, nv', uid, HelperReads(decision.pin, policy), n)
    else shown == (used, limit) && nv' == nv
  }

  /** The same, stated so that proofs open it only where they mention `ReachesPrompt`. */
  ghost predicate BeforePrompt(turns: Schedule, nv: Store, nv': Store, uid: nat, decision: FirstPassDecision,
                               policy: PinPolicy, used: u32, limit: u32, shown: (u32, u32), n: nat)
  {
    forall v :: v == nv' ==> ReachesPrompt(turns, nv, v, uid, decision, policy, used, limit, shown, n)
  }

  /** The helper gets as far as putting the stacked token to an account with attempts left. */
  predicate RejectedByGhost(a: Account, args: ModuleArgs, authtok: Option<string>, policy: PinPolicy) {
    var decision := DecideFirstPass(args, authtok, policy);
    && decision.TryFirstPass? && !args.useFirstPass && IsTestable(a, HelperReads(decision.pin, policy))
    && !Seen(a.failures, a.limit).CounterSpent()
  }

  /** The conversation's own code, or AUTH_ERR for an answer that is no PIN; a helper that cannot run is unavailable. */
  predicate PromptCode(env: Environment, policy: PinPolicy, code: PamCode) {
    match env.io.reply
    case Err(failure) => code == failure
    case Ok(answer) =>
      if NewPin(Trim(answer), policy).Err? then code == if env.io.notice.Err? then env.io.notice.error else AUTH_ERR
      else !env.secondSpawn.Runs? ==> code == AUTHINFO_UNAVAIL
  }

  /** The same, stated so that proofs open it only where they mention `PromptCode`. */
  ghost predicate AnswersPrompt(env: Environment, policy: PinPolicy, code: PamCode) {
    forall c :: c == code ==> PromptCode(env, policy, c)
  }

  method SecondPhase(device: Device, policy: PinPolicy, uid: nat, env: Environment, used: u32, limit: u32)
    returns (code: PamCode, prompted: Option<(u32, u32)>)
    requires env.user == Some(uid) && env.io.Genuine()
    modifies device
    ensures Ran(device, uid, policy) && old(device.spent) <= device.spent <= old(device.spent) + 1
    ensures prompted == if used < limit then Some((used, limit)) else None
    ensures prompted.None? ==> device.spent == old(device.spent) && code == MAXTRIES
    ensures prompted.Some? ==> AnswersPrompt(env, policy, code)
    ensures code == SUCCESS ==> prompted.Some?
    ensures code == SUCCESS && old(Consistent(device.World())) ==>
              AcceptedFrom(old(device.World()), device.World(), uid, Submitted(PromptUser, env.io, true, policy),
                           policy)
    ensures CanAttemptPin(env.caller, uid) && env.secondSpawn.Runs? && old(Undisturbed(device, uid)) ==>
              PromptedExactly(old(device.nv), device.nv, uid, env, used, limit, policy,
                              old(device.turns(device.clock)).refusal, code, prompted)
  {
    // The refreshed counter keeps the module from prompting past the limit.
    if used >= limit {
      return MAXTRIES, None;
    }
    prompted := Some((used, limit));
    var pin := PromptForPin(used, limit, env.io, policy);
    if pin.Err? {
      return pin.error, prompted;
    }
    var outcome := RunPinutilTest(device, policy, env.user, env.caller, pin.value, env.secondSpawn);
    code := if outcome.None? then AUTHINFO_UNAVAIL else FinalizeOutcome(outcome.value);
  }

  // ---- The counters at the prompt ----

  /**
   The stacked token was counted wrongly: its guess never reached the TPM, or reached it and matched. The token is
   put to the helper at turn n; the tag is read two turns later and the guess made four turns later.
   */
  predicate Miscounted(turns: Schedule, n: nat, a: Account, decision: FirstPassDecision, policy: PinPolicy) {
    && decision.TryFirstPass?
    && var typed := HelperReads(decision.pin, policy);
       || turns(n + 4).fate.Dropped?
       || (typed.Ok? && Matches(a, FormatSeen(a, HidesIndex(turns(n + 2))), typed.value))
  }

  /** The counters shown at the prompt are true: what they leave is what the TPM grants. */
  predicate ShowsRemaining(b: Account, prompted: (u32, u32)) {
    b.Holder? && prompted.1 - prompted.0 == b.limit - b.failures
  }

  /**
   The counters shown, over the stores before the call and at the prompt, never promise more attempts than the TPM
   grants. They promise fewer exactly when the token put to the helper at turn n was miscounted, which takes a fault
   that reads as a refusal.
   */
  predicate PromptIsSafe(turns: Schedule, nv: Store, nv': Store, uid: nat, decision: FirstPassDecision,
                         policy: PinPolicy, prompted: (u32, u32), n: nat)
  {
    && Shaped(nv, uid) && Shaped(nv', uid)
    && var a, b := View(nv, uid), View(nv', uid);
       && b.Holder? && prompted.1 == b.limit && prompted.1 - prompted.0 <= b.limit - b.failures
       && (ShowsRemaining(b, prompted) <==> !Miscounted(turns, n, a, decision, policy))
       && (!ShowsRemaining(b, prompted) ==> FakesRefusal(turns(n + 4)))
  }

  /** The same, stated so that proofs open it only where they mention `PromptIsSafe`. */
  ghost predicate PromptedSafely(turns: Schedule, nv: Store, nv': Store, uid: nat, decision: FirstPassDecision,
                                 policy: PinPolicy, prompted: (u32, u32), n: nat)
  {
    forall v :: v == nv' ==> PromptIsSafe(turns, nv, v, uid, decision, policy, prompted, n)
  }

  lemma CountersAtPrompt(turns: Schedule, nv: Store, nv': Store, uid: nat, decision: FirstPassDecision,
                         policy: PinPolicy, used: u32, limit: u32, prompted: (u32, u32), n: nat)
    requires Shaped(nv, uid) && Counts(nv, uid, used, limit)
    requires BeforePrompt(turns, nv, nv', uid, decision, policy, used, limit, prompted, n + 2)
             && prompted.0 < prompted.1
    ensures PromptedSafely(turns, nv, nv', uid, decision, policy, prompted, n)
  {
    var a := View(nv, uid);
    assert StatusOf(Ok(Attempts(a))) == Available(used, limit);
    if a.Holder? {
      LockTestsAgree(a.failures, a.limit);
    }
    assert ReachesPrompt(turns, nv, nv', uid, decision, policy, used, limit, prompted, n + 2);
    if decision.TryFirstPass? {
      assert RefusalLeaves(turns, nv, nv', uid, HelperReads(decision.pin, policy), n + 2);
    }
    assert PromptIsSafe(turns, nv, nv', uid, decision, policy, prompted, n);
  }

  // ---- Both phases ----

  /** `shown` is the store at the prompt. */
  method Phases(device: Device, policy: PinPolicy, uid: nat, env: Environment, args: ModuleArgs,
                authtok: Option<string>, used: u32, limit: u32)
    returns (code: PamCode, prompted: Option<(u32, u32)>, ghost shown: Store)
    requires env.user == Some(uid) && env.io.Genuine()
    modifies device
    ensures Ran(device, uid, policy) && old(device.spent) <= device.spent <= old(device.spent) + 2
    ensures !DecideFirstPass(args, authtok, policy).TryFirstPass? ==> device.spent <= old(device.spent) + 1
    ensures args.useFirstPass ==> prompted.None? && device.spent <= old(device.spent) + 1
    ensures prompted.None? && !DecideFirstPass(args, authtok, policy).TryFirstPass? ==>
              device.spent == old(device.spent)
    ensures prompted.Some? ==> prompted.value.0 < prompted.value.1 && AnswersPrompt(env, policy, code)
    ensures code == SUCCESS && old(Consistent(device.World())) ==>
              AcceptedFrom(old(device.World()), device.World(), uid,
                           Submitted(DecideFirstPass(args, authtok, policy), env.io, prompted.Some?, policy), policy)
    ensures prompted.Some? && old(Alone(device, uid) && Counts(device.nv, uid, used, limit)) ==>
              PromptedSafely(device.turns, old(device.nv), shown, uid, DecideFirstPass(args, authtok, policy), policy,
                             prompted.value, old(device.clock))
    ensures CanAttemptPin(env.caller, uid) && env.firstSpawn.Runs? && env.secondSpawn.Runs?
            && old(Undisturbed(device, uid)) ==>
              DecidedExactly(old(device.nv), device.nv, uid, env, args, authtok, used, limit, policy,
                             old(device.turns(device.clock)).refusal, code, prompted)
  {
    ActsForIsTransitive(uid, policy.maxAttempts);
    ghost var start := device.World();
    var phase := FirstPhase(device, policy, uid, env, args, authtok, used, limit);
    ghost var phased := device.World();
    shown := device.nv;
    ActsForOpens(uid, policy.maxAttempts, start, phased);
    ghost var undisturbed := CanAttemptPin(env.caller, uid) && env.firstSpawn.Runs? && old(Undisturbed(device, uid));
    ghost var refusal := device.turns(start.clock).refusal;
    if phase.Decided? {
      if undisturbed {
        PhasedThenPrompted(start.nv, shown, shown, uid, env, args, authtok, used, limit, policy, refusal, phase,
                           phase.code, None);
      }
      return phase.code, None, shown;
    }
    if old(Alone(device, uid)) && Counts(start.nv, uid, used, limit) && phase.used < phase.limit {
      CountersAtPrompt(device.turns, start.nv, shown, uid, DecideFirstPass(args, authtok, policy), policy, used, limit,
                       (phase.used, phase.limit), start.clock);
    }
    code, prompted := SecondPhase(device, policy, uid, env, phase.used, phase.limit);
    if undisturbed && env.secondSpawn.Runs? {
      PhasedThenPrompted(start.nv, shown, device.nv, uid, env, args, authtok, used, limit, policy, refusal, phase, code,
                         prompted);
    }
    AcceptedSince(start, phased, device.World(), device.World(), uid, Submitted(PromptUser, env.io, true, policy),
                  policy);
  }

  /**
   A whole authentication on an account: the code, the account left, and the counters shown if the user was prompted.
   */
  function AuthenticateAccount(a: Account, uid: nat, env: Environment, args: ModuleArgs, authtok: Option<string>,
                               policy: PinPolicy, refusal: Kind): (PamCode, Account, Option<(u32, u32)>)
  {
    match StatusOf(Ok(Attempts(a)))
    case StatusUnavailable => (AUTHINFO_UNAVAIL, a, None)
    case NotProvisionedStatus => (AUTHINFO_UNAVAIL, a, None)
    case StatusLockedOut => (MAXTRIES, a, None)
    case Available(used, limit) => PhasesOf(a, uid, env, args, authtok, used, limit, policy, refusal)
  }

  /**
   `authenticate_user`. Under every schedule and however the helpers fail: success means the TPM accepted, at this
   call's request, what the helper read of the stacked token or of the answer at the prompt; at most two authorization
   values are spent, a token that is not a PIN spends none, and `use_first_pass` never prompts. With no other process
   using the TPM the prompt is reached only while attempts remain, it never promises more of them than the TPM grants,
   and it promises fewer exactly when the token was miscounted, which takes a fault that reads as a refusal.
   Undisturbed, the code, the account and the counters shown are those of `AuthenticateAccount`. `shown` is the store at
   the prompt.
   */
  method AuthenticateUser(device: Device, policy: PinPolicy, env: Environment, args: ModuleArgs,
                          authtok: Option<string>)
    returns (code: PamCode, prompted: Option<(u32, u32)>, ghost shown: Store)
    requires env.io.Genuine()
    modifies device
    ensures env.user.None? ==> code == USER_UNKNOWN && device.World() == old(device.World()) && prompted.None?
    ensures env.user.Some? ==> Ran(device, env.user.value, policy)
    ensures old(device.spent) <= device.spent <= old(device.spent) + 2
    ensures !DecideFirstPass(args, authtok, policy).TryFirstPass? ==> device.spent <= old(device.spent) + 1
    ensures args.useFirstPass ==> prompted.None? && device.spent <= old(device.spent) + 1
    ensures prompted.None? && !DecideFirstPass(args, authtok, policy).TryFirstPass? ==>
              device.spent == old(device.spent)
    ensures prompted.Some? ==> prompted.value.0 < prompted.value.1 && AnswersPrompt(env, policy, code)
    ensures env.user.Some? && !env.statusSpawn.Runs? ==> code == AUTHINFO_UNAVAIL && prompted.None?
    ensures code == SUCCESS && old(Consistent(device.World())) ==>
              && env.user.Some?
              && AcceptedFrom(old(device.World()), device.World(), env.user.value,
                              Submitted(DecideFirstPass(args, authtok, policy), env.io, prompted.Some?, policy), policy)
    ensures env.user.Some? && old(Alone(device, env.user.value)) && prompted.Some? ==>
              PromptedSafely(device.turns, old(device.nv), shown, env.user.value,
                             DecideFirstPass(args, authtok, policy), policy,
                             prompted.value, old(device.clock) + 2)
    ensures env.user.Some? && (env.caller.euid == 0 || env.caller.uid == env.user.value)
            && old(Undisturbed(device, env.user.value))
            && env.statusSpawn.Runs? && env.firstSpawn.Runs? && env.secondSpawn.Runs? ==>
              var (c, a', p) := AuthenticateAccount(View(old(device.nv), env.user.value), env.user.value, env, args,
                                                    authtok, policy, old(device.turns(device.clock)).refusal);
              code == c && prompted == p && Became(device, env.user.value, a')
  {
    shown := device.nv;
    if env.user.None? {
      return USER_UNKNOWN, None, shown;
    }
    var uid := env.user.value;
    ActsForIsTransitive(uid, policy.maxAttempts);
    ghost var start := device.World();
    var status := RunPinutilStatus(device, policy, env.user, env.statusSpawn);
    match status {
      case StatusUnavailable => return AUTHINFO_UNAVAIL, None, shown;
      case NotProvisionedStatus => return AUTHINFO_UNAVAIL, None, shown;
      case StatusLockedOut => return MAXTRIES, None, shown;
      case Available(_, _) =>
    }
    ghost var asked := device.World();
    ActsForOpens(uid, policy.maxAttempts, start, asked);
    code, prompted, shown := Phases(device, policy, uid, env, args, authtok, status.used, status.limit);
    ghost var decision := DecideFirstPass(args, authtok, policy);
    if CanAttemptPin(env.caller, uid) && env.statusSpawn.Runs? && env.firstSpawn.Runs? && env.secondSpawn.Runs?
      && old(Undisturbed(device, uid)) {
      assert PhasesEnd(start.nv, device.nv, uid, env, args, authtok, status.used, status.limit, policy,
                       device.turns(start.clock).refusal, code, prompted);
    }
    AcceptedSince(start, asked, device.World(), device.World(), uid,
                  Submitted(decision, env.io, prompted.Some?, policy), policy);
  }
}
