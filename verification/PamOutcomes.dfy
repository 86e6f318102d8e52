/** What an undisturbed authentication decides and shows, end to end: PAM module, helper, manager, TPM. */
module PamOutcomes {
  import opened Wrappers
  import opened PinCodec
  import opened PinErrors
  import opened PinIndex
  import opened Text
  import opened Tpm
  import opened Policy
  import opened PinContracts
  import opened Accounts
  import opened PinManagement
  import opened PinOutcomes
  import opened Pinutil
  import opened PinutilOutcomes
  import opened PamAuth
  import PinRuns

  predicate Kept(a: Account) {
    a.Holder? ==> Fits(a.secret) && a.failures <= a.limit
  }

  lemma GuessIsCounted(a: Account, uid: nat, auth: string, refusal: Kind)
    requires Kept(a)
    ensures var (r, a') := Guess(a, uid, auth, refusal);
            r == Ok(Invalid(false)) ==> a.Holder? && a.failures < a.limit && a' == a.(failures := a.failures + 1)
  {
  }

  lemma VerifyIsCounted(a: Account, uid: nat, pin: string, maxAttempts: u32, refusal: Kind)
    requires Kept(a)
    ensures var (r, a') := Verify(a, uid, pin, maxAttempts, refusal);
            r == Ok(Invalid(false)) ==> a.Holder? && a.failures < a.limit && a' == a.(failures := a.failures + 1)
  {
    GuessIsCounted(a, uid, pin, refusal);
    GuessIsCounted(a, uid, NormalizeLegacyPin(pin), refusal);
  }

  lemma UntypedIsNoRejection(lines: seq<Line>, policy: PinPolicy)
    ensures var typed := Typed(lines, 0, policy);
            typed.Err? ==> !typed.error.IncorrectPin?
  {
  }

  /** A test that is rejected without locking the slot has cost exactly one attempt. */
  lemma RejectionIsCounted(a: Account, uid: nat, lines: seq<Line>, policy: PinPolicy, refusal: Kind)
    requires Kept(a)
    ensures var (r, a') := TestAccount(a, uid, lines, true, policy, refusal);
            OutcomeOf(r).InvalidPin? ==> a.Holder? && a.failures < a.limit && a' == a.(failures := a.failures + 1)
  {
    var typed := Typed(lines, 0, policy);
    UntypedIsNoRejection(lines, policy);
    if StopsAt(Attempts(a)).None? && typed.Ok? {
      VerifyIsCounted(a, uid, typed.value, policy.maxAttempts, refusal);
    }
  }

  /** The module's own counter follows the TPM's through a rejected first pass. */
  lemma FirstPassIsCounted(a: Account, uid: nat, args: ModuleArgs, authtok: Option<string>, used: u32, limit: u32,
                           policy: PinPolicy, refusal: Kind)
    requires Kept(a) && StatusOf(Ok(Attempts(a))) == Available(used, limit)
    ensures var (phase, a') := FirstPhaseOf(a, uid, args, authtok, used, limit, policy, refusal);
            phase.AskUser? && phase.used < phase.limit ==>
              && a'.Holder? && !Locked(a') && phase.limit == a'.limit
              && phase.limit - phase.used == a'.limit - a'.failures
  {
    LockTestsAgree(a.failures, a.limit);
    if DecideFirstPass(args, authtok, policy).TryFirstPass? {
      RejectionIsCounted(a, uid, [PipeLine(DecideFirstPass(args, authtok, policy).pin)], policy, refusal);
    }
  }

  /**
   The user is prompted only while attempts remain, and the attempts the prompt counts are the ones the TPM still
   grants.
   */
  lemma PromptShowsRemainingAttempts(a: Account, uid: nat, env: Environment, args: ModuleArgs, authtok: Option<string>,
                                     policy: PinPolicy, refusal: Kind)
    requires Kept(a)
    ensures var (code, a', prompted) := AuthenticateAccount(a, uid, env, args, authtok, policy, refusal);
            prompted.Some? ==>
              var (used, limit) := prompted.value;
              var info := Attempts(a).value;
              var atPrompt := FirstPhaseOf(a, uid, args, authtok, info.used, info.limit, policy, refusal).1;
              && used < limit && Attempts(a).Some?
              && atPrompt.Holder? && !Locked(atPrompt)
              && limit - used == atPrompt.limit - atPrompt.failures
  {
    if Attempts(a).Some? && !Attempts(a).value.Locked() {
      var info := Attempts(a).value;
      FirstPassIsCounted(a, uid, args, authtok, info.used, info.limit, policy, refusal);
    }
  }

  /** What was submitted is, as the helper reads it, the right PIN for the account. */
  predicate IsRight(a: Account, submitted: Option<string>, policy: PinPolicy)
    requires a.Holder?
  {
    && submitted.Some? && HelperReads(submitted.value, policy).Ok?
    && Key(a.format, HelperReads(submitted.value, policy).value) == a.secret
  }

  /** A test of a PIN decides like a verification of what the helper reads of it. */
  lemma TestDecides(a: Account, uid: nat, pin: string, policy: PinPolicy, refusal: Kind)
    requires Sensible(a)
    ensures OutcomeOf(TestAccount(a, uid, [PipeLine(pin)], true, policy, refusal).0).TestSuccess?
            <==> !Locked(a) && IsRight(a, Some(pin), policy)
  {
    LockTestsAgree(a.failures, a.limit);
    if HelperReads(pin, policy).Ok? {
      VerifyDecides(a, uid, HelperReads(pin, policy).value, policy.maxAttempts, refusal);
    }
  }

  /** A PIN without a newline inside is read by the helper as it was submitted. */
  lemma HelperReadsPins(pin: string, policy: PinPolicy)
    requires IsPin(pin, policy)
    ensures HelperReads(pin, policy) == Ok(pin) <==> '\n' !in pin
  {
    PipeRoundTrip(pin, policy);
  }

  /** Without a PIN, or without attempts left, nobody is prompted and nothing is spent. */
  lemma NoPromptWithoutAttempts(a: Account, uid: nat, env: Environment, args: ModuleArgs, authtok: Option<string>,
                                policy: PinPolicy, refusal: Kind)
    requires a.Holder? ==> Sensible(a)
    ensures !a.Holder? ==>
              AuthenticateAccount(a, uid, env, args, authtok, policy, refusal) == (AUTHINFO_UNAVAIL, a, None)
    ensures Locked(a) ==> AuthenticateAccount(a, uid, env, args, authtok, policy, refusal) == (MAXTRIES, a, None)
  {
    if a.Holder? {
      LockTestsAgree(a.failures, a.limit);
    }
  }

  predicate IsWrong(a: Account, pin: string)
    requires a.Holder?
  {
    !Locked(a) && Key(a.format, pin) != a.secret && ByteLen(Key(a.format, pin)) <= MAX_AUTH_BUFFER
  }

  // ---- Every login ----

  /** What comes of putting this PIN to the helper, on an account with attempts left. */
  predicate AsTested(a: Account, uid: nat, pin: string, policy: PinPolicy, refusal: Kind, code: PamCode, a': Account)
    requires a.Holder? && a.failures < a.limit
  {
    var read := HelperReads(pin, policy);
    if read.Err? || ByteLen(Key(a.format, read.value)) > 64 then code == AUTHINFO_UNAVAIL && a' == a
    else if Key(a.format, read.value) != a.secret then
      code == (if a.failures + 1 == a.limit then MAXTRIES else AUTH_ERR) && a' == a.(failures := a.failures + 1)
    else code == SUCCESS && a' == Verify(a, uid, read.value, policy.maxAttempts, refusal).1
  }

  /** What comes of the prompt, on an account with attempts left: its counters are shown, and the answer decides. */
  predicate AsAnswered(a: Account, uid: nat, env: Environment, policy: PinPolicy, refusal: Kind,
                       done: (PamCode, Account, Option<(u32, u32)>))
    requires a.Holder? && a.failures < a.limit
  {
    && done.2 == Some((a.failures, a.limit))
    && match env.io.reply
       case Err(failure) => done.0 == failure && done.1 == a
       case Ok(answer) =>
         var pin := NewPin(Trim(answer), policy);
         if pin.Err? then done.0 == (if env.io.notice.Err? then env.io.notice.error else AUTH_ERR) && done.1 == a
         else AsTested(a, uid, pin.value, policy, refusal, done.0, done.1)
  }

  /** The helper reads this token as a wrong PIN, and it is not the last attempt. */
  predicate LeavesAnAttempt(a: Account, token: string, policy: PinPolicy)
    requires a.Holder?
  {
    && HelperReads(token, policy).Ok? && IsWrong(a, HelperReads(token, policy).value)
    && a.failures + 1 < a.limit
  }

  lemma TestIsAsTested(a: Account, uid: nat, pin: string, policy: PinPolicy, refusal: Kind)
    requires Sensible(a) && !Locked(a)
    ensures var (r, a') := TestAccount(a, uid, [PipeLine(pin)], true, policy, refusal);
            && AsTested(a, uid, pin, policy, refusal, FinalizeOutcome(OutcomeOf(r)), a')
            && (OutcomeOf(r).InvalidPin? <==> LeavesAnAttempt(a, pin, policy))
            && (OutcomeOf(r).InvalidPin? ==> a' == a.(failures := a.failures + 1))
            && (OutcomeOf(r).TestSuccess? <==> IsRight(a, Some(pin), policy))
  {
    TestCommandDecides(a, uid, [PipeLine(pin)], true, policy, refusal);
    TestDecides(a, uid, pin, policy, refusal);
    UntypedIsNoRejection([PipeLine(pin)], policy);
    UntypedIsUnavailable(pin, policy);
  }

  lemma UntypedIsUnavailable(pin: string, policy: PinPolicy)
    ensures var read := HelperReads(pin, policy);
            read.Err? ==> OutcomeOf(Err(read.error)).TestUnavailable?
  {
  }

  lemma PromptIsAsAnswered(a: Account, uid: nat, env: Environment, policy: PinPolicy, refusal: Kind)
    requires Sensible(a) && !Locked(a)
    ensures AsAnswered(a, uid, env, policy, refusal,
                       SecondPhaseOf(a, uid, env, a.failures, a.limit, policy, refusal))
  {
    var pin := PromptForPin(a.failures, a.limit, env.io, policy);
    if pin.Ok? {
      TestIsAsTested(a, uid, pin.value, policy, refusal);
    }
  }

  /**
   Every login on a sensible account, case by case: who is turned away, what a stacked token decides by itself, and what
   the prompt decides, with how many attempts left.
   */
  lemma LoginDecides(a: Account, uid: nat, env: Environment, args: ModuleArgs, authtok: Option<string>,
                     policy: PinPolicy, refusal: Kind)
    requires a.Holder? ==> Sensible(a)
    ensures var done := AuthenticateAccount(a, uid, env, args, authtok, policy, refusal);
            if !a.Holder? then done == (AUTHINFO_UNAVAIL, a, None)
            else if Locked(a) then done == (MAXTRIES, a, None)
            else
              match DecideFirstPass(args, authtok, policy)
              case Deny => done == (AUTH_ERR, a, None)
              case PromptUser => AsAnswered(a, uid, env, policy, refusal, done)
              case TryFirstPass(token) =>
                if LeavesAnAttempt(a, token, policy) && !args.useFirstPass
                then AsAnswered(a.(failures := a.failures + 1), uid, env, policy, refusal, done)
                else done.2.None? && AsTested(a, uid, token, policy, refusal, done.0, done.1)
  {
    NoPromptWithoutAttempts(a, uid, env, args, authtok, policy, refusal);
    if a.Holder? && !Locked(a) {
      LockTestsAgree(a.failures, a.limit);
      assert StatusOf(Ok(Attempts(a))) == Available(a.failures, a.limit);
      match DecideFirstPass(args, authtok, policy)
      case Deny =>
      case PromptUser => PromptIsAsAnswered(a, uid, env, policy, refusal);
      case TryFirstPass(token) =>
        TestIsAsTested(a, uid, token, policy, refusal);
        if LeavesAnAttempt(a, token, policy) && !args.useFirstPass {
          PromptIsAsAnswered(a.(failures := a.failures + 1), uid, env, policy, refusal);
        }
    }
  }

  /** A stacked token that is tried logs its user in, without a prompt, exactly when it is right and attempts remain. */
  lemma FirstPassLoginDecides(a: Account, uid: nat, env: Environment, args: ModuleArgs, authtok: Option<string>,
                              policy: PinPolicy, refusal: Kind)
    requires Sensible(a) && DecideFirstPass(args, authtok, policy).TryFirstPass?
    ensures var (code, a', prompted) := AuthenticateAccount(a, uid, env, args, authtok, policy, refusal);
            var token := DecideFirstPass(args, authtok, policy).pin;
            && (code == SUCCESS && prompted.None? <==> !Locked(a) && IsRight(a, Some(token), policy))
            && (!Locked(a) && IsRight(a, Some(token), policy) ==>
                  a' == Verify(a, uid, HelperReads(token, policy).value, policy.maxAttempts, refusal).1)
  {
    LoginDecides(a, uid, env, args, authtok, policy, refusal);
    if HelperReads(DecideFirstPass(args, authtok, policy).pin, policy).Ok? {
      VerifyDecides(a, uid, HelperReads(DecideFirstPass(args, authtok, policy).pin, policy).value, policy.maxAttempts,
                    refusal);
      FitsBuffer(a);
    }
  }

  lemma FitsBuffer(a: Account)
    requires Sensible(a)
    ensures ByteLen(a.secret) <= 64
  {
  }

  /**
   A wrong stacked token under `try_first_pass` costs one attempt. If it was the last, nobody is prompted; otherwise the
   prompt shows one attempt more as used, and the login then succeeds exactly when the answer is right.
   */
  lemma RejectedTokenDecides(a: Account, uid: nat, env: Environment, args: ModuleArgs, authtok: Option<string>,
                             policy: PinPolicy, refusal: Kind)
    requires Sensible(a) && env.io.Genuine() && !args.useFirstPass
    requires var decision := DecideFirstPass(args, authtok, policy);
             decision.TryFirstPass? && HelperReads(decision.pin, policy).Ok? &&
             IsWrong(a, HelperReads(decision.pin, policy).value)
    ensures var (code, a', prompted) := AuthenticateAccount(a, uid, env, args, authtok, policy, refusal);
            if a.failures + 1 == a.limit then (code, a', prompted) == (MAXTRIES, a.(failures := a.failures + 1), None)
            else
              && prompted == Some((a.failures + 1, a.limit))
              && (code == SUCCESS <==> IsRight(a, Submitted(PromptUser, env.io, true, policy), policy))
  {
    LoginDecides(a, uid, env, args, authtok, policy, refusal);
    FitsBuffer(a);
  }

  /**
   End to end, prompting only: the login succeeds exactly when the slot is unlocked and the answer holds the right PIN.
   */
  lemma PromptedLoginDecides(a: Account, uid: nat, env: Environment, args: ModuleArgs, authtok: Option<string>,
                             policy: PinPolicy, refusal: Kind)
    requires Sensible(a) && !args.WantsFirstPass() && env.io.Genuine()
    ensures AuthenticateAccount(a, uid, env, args, authtok, policy, refusal).0 == SUCCESS
            <==> !Locked(a) && IsRight(a, Submitted(PromptUser, env.io, true, policy), policy)
  {
    LoginDecides(a, uid, env, args, authtok, policy, refusal);
    FitsBuffer(a);
  }

  /**
   An answer that the helper reads as a wrong PIN costs one attempt, and the caller learns whether it was the last.
   */
  lemma WrongPinCosts(a: Account, uid: nat, env: Environment, args: ModuleArgs, authtok: Option<string>,
                      policy: PinPolicy, refusal: Kind, pin: string)
    requires Sensible(a) && !args.WantsFirstPass()
    requires env.io.Genuine() && Submitted(PromptUser, env.io, true, policy) == Some(pin)
    requires HelperReads(pin, policy).Ok? && IsWrong(a, HelperReads(pin, policy).value)
    ensures AuthenticateAccount(a, uid, env, args, authtok, policy, refusal) ==
            (if a.failures + 1 == a.limit then MAXTRIES else AUTH_ERR,
             a.(failures := a.failures + 1), Some((a.failures, a.limit)))
  {
    LoginDecides(a, uid, env, args, authtok, policy, refusal);
  }

  /** An answer that the helper cannot read as a PIN costs nothing. */
  lemma UnreadableAnswerCostsNothing(a: Account, uid: nat, env: Environment, args: ModuleArgs, authtok: Option<string>,
                                     policy: PinPolicy, refusal: Kind, pin: string)
    requires Sensible(a) && !Locked(a) && !args.WantsFirstPass()
    requires env.io.Genuine() && Submitted(PromptUser, env.io, true, policy) == Some(pin)
    requires HelperReads(pin, policy).Err?
    ensures AuthenticateAccount(a, uid, env, args, authtok, policy, refusal)
            == (AUTHINFO_UNAVAIL, a, Some((a.failures, a.limit)))
  {
    LoginDecides(a, uid, env, args, authtok, policy, refusal);
  }

  /** End to end under `use_first_pass`: the login succeeds exactly when the stacked token holds the right PIN. */
  lemma StackedLoginDecides(a: Account, uid: nat, env: Environment, args: ModuleArgs, authtok: Option<string>,
                            policy: PinPolicy, refusal: Kind)
    requires Sensible(a) && args.useFirstPass
    ensures var (code, a', prompted) := AuthenticateAccount(a, uid, env, args, authtok, policy, refusal);
            var submitted := Submitted(DecideFirstPass(args, authtok, policy), env.io, false, policy);
            && prompted.None?
            && (code == SUCCESS <==> !Locked(a) && IsRight(a, submitted, policy))
            && (submitted.None? || HelperReads(submitted.value, policy).Err? ==> a' == a)
  {
    LoginDecides(a, uid, env, args, authtok, policy, refusal);
    FitsBuffer(a);
  }

  // ---- A token that was never compared ----

  const HELD := Holder("123", Exact, 0, 3)

  lemma SpellPins()
    ensures IsPin("9999", DEFAULT_POLICY) && HelperReads("9999", DEFAULT_POLICY) == Ok("9999") && ByteLen("9999") == 4
  {
    assert "9999"[1..] == "999" && "999"[1..] == "99" && "99"[1..] == "9" && "9"[1..] == "";
    HelperReadsPins("9999", DEFAULT_POLICY);
  }

  lemma TokenGetsToTheGuess()
    ensures RejectedByGhost(HELD, ModuleArgs(true, false), Some("9999"), DEFAULT_POLICY)
    ensures StatusOf(Ok(Attempts(HELD))) == Available(0, 3)
  {
    SpellPins();
  }

  /**
   One such run: the slot holds 123 with three attempts left, the guess with the stacked token 9999 never reaches the
   TPM, and the fault reads as a refusal. The module goes on to the prompt with one attempt used, while the TPM still
   grants three.
   */
  method GhostRejectionIsMiscounted() returns (status: PinStatus, phase: Phase, device: Device)
    ensures View(TAGGED_STORE, SOMEBODY) == HELD
    ensures status == Available(0, 3) && phase == AskUser(1, 3)
    ensures Shaped(device.nv, SOMEBODY) && View(device.nv, SOMEBODY) == HELD
    ensures !ShowsRemaining(View(device.nv, SOMEBODY), (phase.used, phase.limit))
  {
    TaggedStoreHolds();
    TokenGetsToTheGuess();
    var turns := (n: nat) => Turn([], BadAuth, if n == 6 then Dropped(BadAuth) else Works);
    device := new Device(turns, TAGGED_STORE, []);
    var env := Environment(Some(SOMEBODY), Caller(SOMEBODY, SOMEBODY), Conversation(Err(CONV_ERR), Ok(())), Runs, Runs,
                           Runs);
    status := RunPinutilStatus(device, DEFAULT_POLICY, env.user, env.statusSpawn);
    assert Phantom(turns, 2, 6);
    phase := FirstPhase(device, DEFAULT_POLICY, SOMEBODY, env, ModuleArgs(true, false), Some("9999"), status.used,
                        status.limit);
  }

  // ---- Lockout over logins ----

  datatype Login = Login(policy: PinPolicy, env: Environment, args: ModuleArgs, authtok: Option<string>)

  /** The TPM accepted what the helper read of the stacked token, or of the answer at the prompt. */
  ghost predicate LetIn(w: World, later: World, login: Login) {
    var Login(policy, env, args, authtok) := login;
    var decision := DecideFirstPass(args, authtok, policy);
    && env.user.Some?
    && (|| AcceptedFrom(w, later, env.user.value, Submitted(decision, env.io, false, policy), policy)
        || AcceptedFrom(w, later, env.user.value, Submitted(decision, env.io, true, policy), policy))
  }

  /** The worlds before and after each login. */
  ghost predicate Logins(worlds: seq<World>, logins: seq<Login>, codes: seq<PamCode>) {
    && |codes| == |logins| && |worlds| == |logins| + 1
    && Consistent(worlds[0])
    && (forall i, k | 0 <= i <= k <= |logins| :: Continues(worlds[i], worlds[k]))
    && (forall k | 0 <= k < |logins| && codes[k] == SUCCESS :: LetIn(worlds[k], worlds[k + 1], logins[k]))
  }

  /** If the slot was spent in the first of these worlds, whoever got in later did so after somebody undefined it. */
  ghost predicate KeptOut(locked: World, w: World, later: World, login: Login) {
    && login.env.user.Some?
    && |locked.history| <= |w.history| <= |later.history|
    && (SlotLocked(locked.nv, SlotOf(login.env.user.value)) ==>
          PinRuns.AcceptedAfterUndefine(later.history, |locked.history|, |w.history|, |later.history|,
                                        SlotOf(login.env.user.value)))
  }

  /** Nobody gets around a spent slot, however much earlier it was seen spent. */
  ghost predicate NobodyEvadesLockout(worlds: seq<World>, logins: seq<Login>, codes: seq<PamCode>)
    requires Logins(worlds, logins, codes)
  {
    forall i, k | 0 <= i <= k < |logins| && codes[k] == SUCCESS ::
      KeptOut(worlds[i], worlds[k], worlds[k + 1], logins[k])
  }

  lemma LoginNeedsUndefine(locked: World, w: World, later: World, login: Login)
    requires LetIn(w, later, login) && Consistent(locked)
    requires Continues(locked, w) && Continues(w, later)
    ensures KeptOut(locked, w, later, login)
  {
    if SlotLocked(locked.nv, SlotOf(login.env.user.value)) {
      var Login(policy, env, args, authtok) := login;
      var decision := DecideFirstPass(args, authtok, policy);
      var prompted := !AcceptedFrom(w, later, env.user.value, Submitted(decision, env.io, false, policy), policy);
      var submitted := Submitted(decision, env.io, prompted, policy);
      PinRuns.LockoutSafety(locked, w, later, env.user.value, HelperReads(submitted.value, policy).value);
    }
  }

  lemma LockoutOverLogins(worlds: seq<World>, logins: seq<Login>, codes: seq<PamCode>)
    requires Logins(worlds, logins, codes)
    ensures NobodyEvadesLockout(worlds, logins, codes)
  {
    forall i, k | 0 <= i <= k < |logins| && codes[k] == SUCCESS
      ensures KeptOut(worlds[i], worlds[k], worlds[k + 1], logins[k])
    {
      assert LetIn(worlds[k], worlds[k + 1], logins[k]);
      assert Continues(worlds[0], worlds[i]) && Continues(worlds[i], worlds[k]) && Continues(worlds[k], worlds[k + 1]);
      LoginNeedsUndefine(worlds[i], worlds[k], worlds[k + 1], logins[k]);
    }
  }

  lemma LoginsGrow(worlds: seq<World>, logins: seq<Login>, n: nat, codes: seq<PamCode>, w: World, code: PamCode)
    requires n < |logins| && Logins(worlds, logins[..n], codes)
    requires Continues(worlds[n], w) && (code == SUCCESS ==> LetIn(worlds[n], w, logins[n]))
    ensures Logins(worlds + [w], logins[..n + 1], codes + [code])
  {
    var worlds', codes' := worlds + [w], codes + [code];
    forall i, k | 0 <= i <= k <= n + 1
      ensures Continues(worlds'[i], worlds'[k])
    {
      if i <= n {
        assert Continues(worlds[i], worlds[n]);
      }
    }
    forall k | 0 <= k <= n && codes'[k] == SUCCESS
      ensures LetIn(worlds'[k], worlds'[k + 1], logins[..n + 1][k])
    {
      assert k < n ==> logins[..n][k] == logins[k];
    }
  }

  /** One login, with what it says of the histories. */
  method LogIn(device: Device, login: Login) returns (code: PamCode)
    requires login.env.io.Genuine()
    modifies device
    ensures Continues(old(device.World()), device.World())
    ensures code == SUCCESS && old(Consistent(device.World())) ==> LetIn(old(device.World()), device.World(), login)
  {
    ghost var start := device.World();
    var result, prompted, _ := AuthenticateUser(device, login.policy, login.env, login.args, login.authtok);
    code := result;
    if login.env.user.Some? {
      ActsForOpens(login.env.user.value, login.policy.maxAttempts, start, device.World());
    }
  }

  /**
   The lockout, end to end: over any sequence of logins, with any policies, helpers and answers, under every schedule,
   nobody gets in on a slot seen spent unless somebody undefined it in between.
   */
  method RunLogins(device: Device, logins: seq<Login>) returns (codes: seq<PamCode>, ghost worlds: seq<World>)
    requires Consistent(device.World())
    requires forall login | login in logins :: login.env.io.Genuine()
    modifies device
    ensures Logins(worlds, logins, codes) && NobodyEvadesLockout(worlds, logins, codes)
    ensures worlds[0] == old(device.World()) && worlds[|logins|] == device.World()
  {
    codes, worlds := [], [device.World()];
    var n := 0;
    while n < |logins|
      invariant 0 <= n <= |logins|
      invariant Logins(worlds, logins[..n], codes)
      invariant worlds[0] == old(device.World()) && worlds[n] == device.World()
    {
      assert Continues(worlds[0], worlds[n]);
      var code := LogIn(device, logins[n]);
      LoginsGrow(worlds, logins, n, codes, device.World(), code);
      codes, worlds := codes + [code], worlds + [device.World()];
      n := n + 1;
    }
    assert logins[..|logins|] == logins;
    LockoutOverLogins(worlds, logins, codes);
  }
}
