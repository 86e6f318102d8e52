/** What `pinutil` means to its users: changing a PIN, and a slot that `pinutil` can no longer repair. */
module PinutilOutcomes {
  import opened Wrappers
  import opened PinCodec
  import opened PinErrors
  import opened Text
  import opened PinContracts
  import opened Policy
  import opened Accounts
  import opened PinOutcomes
  import opened Pinutil

  // ---- What is typed ----

  /** The PIN on a line that can be read; past the end of the input there is none. */
  function PinOn(lines: seq<Line>, k: nat, policy: PinPolicy): Option<string> {
    if k < |lines| && lines[k].Line? && NewPin(lines[k].text, policy).Ok? then Some(NewPin(lines[k].text, policy).value)
    else None
  }

  /** A new PIN is chosen exactly when it is typed, and to a person's terminal typed twice. */
  lemma ChosenDecides(lines: seq<Line>, machine: bool, policy: PinPolicy)
    ensures var first, second := PinOn(lines, 0, policy), PinOn(lines, 1, policy);
            && (Chosen(lines, machine, policy).Ok? <==> first.Some? && (machine || second == first))
            && (Chosen(lines, machine, policy).Ok? ==> Chosen(lines, machine, policy).value == first.value)
            && (first.Some? && second.Some? && first != second && !machine ==>
                  Chosen(lines, machine, policy) == Err(PinsDontMatch))
            && (first.None? ==> Chosen(lines, machine, policy) == Typed(lines, 0, policy))
            && (first.Some? && second.None? && !machine ==>
                  Chosen(lines, machine, policy) == Typed(Rest(lines), 0, policy))
  {
    if |lines| > 0 && lines[0].Line? {
      NewPinDecides(lines[0].text, policy);
    }
    if |lines| > 1 && lines[1].Line? {
      NewPinDecides(lines[1].text, policy);
    }
  }

  /** Yes is an answer that begins with a 'y', large or small, whatever white space stands around it. */
  lemma SaysYesDecides(front: string, text: string, back: string)
    requires AllWhitespace(front) && AllWhitespace(back) && Trimmed(text)
    ensures SaysYes(front + text + back) <==> text != "" && (text[0] == 'y' || text[0] == 'Y')
  {
    TrimIsUnique(front, text, back);
  }

  /** The counters a user is shown. */
  lemma StatusDecides(a: Account)
    ensures !a.Holder? ==> Attempts(a).None?
    ensures a.Holder? && a.failures <= a.limit < 0x8000_0000 ==> Attempts(a) == Some(AttemptInfo(a.failures, a.limit))
  {
  }

  // ---- Commands, case by case ----

  /** `setup`: an existing PIN stays, and a free slot takes the chosen one if the TPM can hold it. */
  lemma SetupCommandDecides(a: Account, uid: nat, lines: seq<Line>, machine: bool, policy: PinPolicy)
    ensures var done, chosen := SetupAccount(a, uid, lines, machine, policy), Chosen(lines, machine, policy);
            && (a.Holder? ==> done == (Err(PinAlreadySet), a))
            && (!a.Holder? && chosen.Err? ==> done == (Err(chosen.error), a))
            && (a == Empty && chosen.Ok? && ByteLen(chosen.value) <= 32 ==>
                  done == (Ok(()), Holder(chosen.value, Exact, 0, policy.maxAttempts)))
            && (a == Empty && chosen.Ok? && ByteLen(chosen.value) > 32 ==> done.0.Err? && done.1 == a)
            && (a.Broken? ==> done.0.Err? && done.1 == a)
  {
    if !a.Holder? && Chosen(lines, machine, policy).Ok? {
      SetupDecides(a, uid, Chosen(lines, machine, policy).value, policy.maxAttempts);
    }
  }

  /**
   Root's `change`, locked accounts included: the chosen PIN is in place, exact, with no failures and the policy's
   limit, if the TPM can hold it; if not, the old one is already gone. Nothing happens without a PIN to change or to put
   in its place.
   */
  lemma RootChangeDecides(a: Account, uid: nat, lines: seq<Line>, machine: bool, policy: PinPolicy)
    ensures var done, chosen := ChangeAccountAsRoot(a, uid, lines, machine, policy), Chosen(lines, machine, policy);
            && (!a.Holder? ==> done == (Err(NoPinSet), a))
            && (a.Holder? && chosen.Err? ==> done == (Err(chosen.error), a))
            && (a.Holder? && chosen.Ok? && ByteLen(chosen.value) <= 32 ==>
                  done == (Ok(()), Holder(chosen.value, Exact, 0, policy.maxAttempts)))
            && (a.Holder? && chosen.Ok? && ByteLen(chosen.value) > 32 ==> done.0.Err? && done.1 == Empty)
  {
    if Chosen(lines, machine, policy).Ok? {
      SetupDecides(Empty, uid, Chosen(lines, machine, policy).value, policy.maxAttempts);
    }
  }

  /** Root's `delete`, locked accounts included: a program needs no confirmation, a person says yes. */
  lemma RootDeletionDecides(a: Account, caller: Caller, uid: nat, lines: seq<Line>, machine: bool, policy: PinPolicy,
                            refusal: Kind)
    requires caller.uid == 0
    ensures var done := DeleteAccount(a, caller, uid, lines, machine, policy, refusal);
            && (!a.Holder? ==> done == (Err(NoPinSet), a))
            && (a.Holder? && machine ==> done == (Ok(()), Empty))
            && (a.Holder? && !machine && lines != [] && lines[0].Unreadable? ==> done == (Err(IoError), a))
            && (a.Holder? && !machine && (lines == [] || lines[0].Line?) ==>
                  done == (Ok(()), if lines != [] && SaysYes(lines[0].text) then Empty else a))
  {
  }

  /** An owner's `delete`: the right PIN deletes, a wrong one costs an attempt, and neither is an error. */
  lemma OwnDeletionDecides(a: Account, caller: Caller, uid: nat, lines: seq<Line>, machine: bool, policy: PinPolicy,
                           refusal: Kind)
    requires caller.uid != 0 && (a.Holder? ==> Sensible(a))
    ensures var done, typed := DeleteAccount(a, caller, uid, lines, machine, policy, refusal), Typed(lines, 0, policy);
            && (!a.Holder? ==> done == (Err(NoPinSet), a))
            && (Locked(a) ==> done == (Err(PinIsLocked), a))
            && (a.Holder? && !Locked(a) && typed.Err? ==> done == (Err(typed.error), a))
            && (a.Holder? && !Locked(a) && typed.Ok? ==>
                  if ByteLen(Key(a.format, typed.value)) > 64 then done == (Err(TpmError(Wrapper)), a)
                  else if Key(a.format, typed.value) != a.secret then done == (Ok(()), a.(failures := a.failures + 1))
                  else if SurvivesVerification(a, typed.value) then done == (Ok(()), Empty)
                  else done == (Err(NotProvisioned(uid)), Empty))
  {
    var typed := Typed(lines, 0, policy);
    if a.Holder? {
      LockTestsAgree(a.failures, a.limit);
      if typed.Ok? {
        NothingToDelete(a, uid, typed.value, policy.maxAttempts, refusal);
        if ByteLen(Key(a.format, typed.value)) <= 64 {
          DeleteDecides(a, uid, typed.value, policy.maxAttempts, refusal);
        }
      }
    }
  }

  /**
   `test`: without attempts nothing is compared. A wrong PIN costs one; a program is told so and whether it was the
   last, a person reads it on the screen and the command ends well. The right PIN leaves the account verified.
   */
  lemma TestCommandDecides(a: Account, uid: nat, lines: seq<Line>, machine: bool, policy: PinPolicy, refusal: Kind)
    requires a.Holder? ==> Sensible(a)
    ensures var done, typed := TestAccount(a, uid, lines, machine, policy, refusal), Typed(lines, 0, policy);
            && (!a.Holder? ==> done == (Err(NoPinSet), a))
            && (Locked(a) ==> done == (Err(PinIsLocked), a))
            && (a.Holder? && !Locked(a) && typed.Err? ==> done == (Err(typed.error), a))
            && (a.Holder? && !Locked(a) && typed.Ok? ==>
                  if ByteLen(Key(a.format, typed.value)) > 64 then done == (Err(TpmError(Wrapper)), a)
                  else if Key(a.format, typed.value) != a.secret then
                    done == (if machine then Err(IncorrectPin(a.failures + 1 == a.limit)) else Ok(()),
                             a.(failures := a.failures + 1))
                  else done.0 == Ok(()) && done.1 == Verify(a, uid, typed.value, policy.maxAttempts, refusal).1)
  {
    var typed := Typed(lines, 0, policy);
    if a.Holder? {
      LockTestsAgree(a.failures, a.limit);
      if typed.Ok? {
        VerifyAnswers(a, uid, typed.value, policy.maxAttempts, refusal);
        VerifyDecides(a, uid, typed.value, policy.maxAttempts, refusal);
      }
    }
  }

  // ---- An owner's change ----

  /** Any account after the owner has typed the right PIN. */
  lemma RightPinLeaves(a: Account, uid: nat, current: string, maxAttempts: u32, refusal: Kind)
    requires Sensible(a) && !Locked(a) && Key(a.format, current) == a.secret && 1 <= maxAttempts < TWO_TO_THE_31
    ensures Verifies(a, uid, current, maxAttempts, refusal)
    ensures var a' := Verify(a, uid, current, maxAttempts, refusal).1;
            if SurvivesVerification(a, current)
            then Sensible(a') && a'.format.Exact? && a'.secret == current && a'.failures == 0 else a' == Empty
  {
    VerifyDecides(a, uid, current, maxAttempts, refusal);
  }

  lemma ReplaceOwnPinDecides(a: Account, uid: nat, current: string, lines: seq<Line>, machine: bool, policy: PinPolicy,
                             refusal: Kind, chosen: string)
    requires a == Empty || (Sensible(a) && a.format.Exact? && a.secret == current && a.failures == 0)
    requires 1 <= policy.maxAttempts < TWO_TO_THE_31 && Chosen(lines, machine, policy) == Ok(chosen)
    ensures var (r, a') := ReplaceOwnPinOf(a, uid, current, lines, machine, policy, refusal);
            if a != Empty && Fits(chosen) then r == Ok(()) && a' == Holder(chosen, Exact, 0, policy.maxAttempts)
            else r.Err? && a' == Empty
  {
    if a != Empty {
      RightPinLeaves(a, uid, current, policy.maxAttempts, refusal);
    }
  }

  /**
   An owner's change, start to end. A locked slot costs nothing, and neither does an answer that is not a PIN. A wrong
   current PIN costs one attempt and nothing else, whatever is typed after it. With the right one the new PIN is stored
   exactly, with no failures and the current policy's limit, if the TPM can hold it; if it cannot, the old PIN is
   already gone when that is discovered. Without a new PIN the current one stays.
   */
  lemma ChangeOwnPinDecides(a: Account, uid: nat, lines: seq<Line>, machine: bool, policy: PinPolicy, refusal: Kind)
    requires Sensible(a) && 1 <= policy.maxAttempts < TWO_TO_THE_31
    ensures var (r, a') := ChangeOwnAccount(a, uid, lines, machine, policy, refusal);
            var typed, chosen := Typed(lines, 0, policy), Chosen(Rest(lines), machine, policy);
            if Locked(a) then r == Err(PinIsLocked) && a' == a
            else if typed.Err? then r == Err(typed.error) && a' == a
            else if Key(a.format, typed.value) != a.secret then
              if ByteLen(Key(a.format, typed.value)) > 64 then r == Err(TpmError(Wrapper)) && a' == a
              else r == Err(IncorrectPin(a.failures + 1 == a.limit)) && a' == a.(failures := a.failures + 1)
            else if !SurvivesVerification(a, typed.value) then r.Err? && a' == Empty
            else if chosen.Err? then
              r == Err(chosen.error) && Sensible(a') && a'.format.Exact? && a'.secret == typed.value && a'.failures == 0
            else if Fits(chosen.value) then r == Ok(()) && a' == Holder(chosen.value, Exact, 0, policy.maxAttempts)
            else r.Err? && a' == Empty
  {
    LockTestsAgree(a.failures, a.limit);
    var typed, chosen := Typed(lines, 0, policy), Chosen(Rest(lines), machine, policy);
    if !Locked(a) && typed.Ok? {
      var current := typed.value;
      VerifyAnswers(a, uid, current, policy.maxAttempts, refusal);
      VerifyDecides(a, uid, current, policy.maxAttempts, refusal);
      if Key(a.format, current) == a.secret {
        RightPinLeaves(a, uid, current, policy.maxAttempts, refusal);
        if chosen.Ok? {
          ReplaceOwnPinDecides(Verify(a, uid, current, policy.maxAttempts, refusal).1, uid, current, Rest(lines),
                               machine, policy, refusal, chosen.value);
        }
      }
    }
  }

  /** Replacing a PIN after it has ceased to match: nothing is replaced, and the caller is told why. */
  lemma ReplacementIsRefused(a: Account, uid: nat, current: string, lines: seq<Line>, machine: bool, policy: PinPolicy,
                             refusal: Kind)
    requires Sensible(a) && Chosen(lines, machine, policy).Ok? && ByteLen(Key(a.format, current)) <= 64
    ensures var done := ReplaceOwnPinOf(a, uid, current, lines, machine, policy, refusal);
            && (!Locked(a) && Key(a.format, current) != a.secret ==>
                  done == (Err(CannotDeletePin(DeleteInvalid(a.failures + 1 == a.limit))),
                           a.(failures := a.failures + 1)))
            && (Locked(a) && (refusal.AuthFail? || refusal.BadAuth?) ==>
                  done == (Err(CannotDeletePin(DeleteInvalid(true))), a))
  {
    SensibleDeletion(a, uid, current, policy.maxAttempts, refusal);
  }

  /**
   A slot whose limit reads as negative: the right PIN clears its failures and does nothing else. A program's test and a
   change answer that the slot is locked, and an owner's deletion deletes nothing.
   */
  lemma HugeLimitDecides(a: Account, caller: Caller, uid: nat, lines: seq<Line>, machine: bool, policy: PinPolicy,
                         refusal: Kind)
    requires a.Holder? && a.failures < a.limit && a.limit >= 0x8000_0000 && Fits(a.secret)
    requires Typed(lines, 0, policy).Ok? && Key(a.format, Typed(lines, 0, policy).value) == a.secret
    ensures var current, cleared := Typed(lines, 0, policy).value, a.(failures := 0);
            && TestAccount(a, uid, lines, machine, policy, refusal) ==
               (if machine then Err(PinIsLocked) else Ok(()), cleared)
            && ChangeOwnAccount(a, uid, lines, machine, policy, refusal) == (Err(PinIsLocked), cleared)
            && (caller.uid != 0 ==>
                  DeleteAccount(a, caller, uid, lines, machine, policy, refusal) == (Ok(()), cleared))
            && (Chosen(Rest(lines), machine, policy).Ok? ==>
                  ReplaceOwnPinOf(a, uid, current, Rest(lines), machine, policy, refusal) ==
                  (Err(CannotDeletePin(DeleteLockedOut)), cleared))
  {
    var current := Typed(lines, 0, policy).value;
    VerifyAnswers(a, uid, current, policy.maxAttempts, refusal);
    DeleteDecides(a, uid, current, policy.maxAttempts, refusal);
  }

  // ---- Changes under faults ----

  lemma AnyVerifyOpens(a: Account, a': Account, pin: string, maxAttempts: u32, other: string)
    requires AnyVerify(a, a', pin, maxAttempts)
    ensures Opens(a', other) ==> Opens(a, other) || (AnyMatch(a, pin) && other == pin)
    ensures a.Holder? && !AnyMatch(a, pin) ==> a' == a || a' == a.(failures := a.failures + 1)
    ensures Locked(a) ==> a' == a
  {
    if VerifyStage(a, a', pin, maxAttempts, false) {
      InterruptedVerifyOpens(a, a', pin, maxAttempts, false, other);
    } else {
      InterruptedVerifyOpens(a, a', pin, maxAttempts, true, other);
    }
  }

  /** The account opens to this text because it was the chosen PIN, or has it for its legacy form. */
  predicate IsChosen(chosen: Result<string, PinError>, other: string) {
    chosen.Ok? && (other == chosen.value || NormalizeLegacyPin(other) == chosen.value)
  }

  /**
   Wherever an owner's change fails or stops: a current PIN that does not match costs at most one attempt, a locked
   account is untouched, and what opens the account afterwards opened it before, or is the current PIN after it matched,
   or the chosen one.
   */
  lemma InterruptedChangeLeaves(a: Account, a': Account, current: string, chosen: Result<string, PinError>,
                                maxAttempts: u32, other: string)
    requires a.Holder? && ChangeStage(a, a', Ok(current), chosen, maxAttempts)
    ensures !AnyMatch(a, current) ==> a' == a || a' == a.(failures := a.failures + 1)
    ensures Locked(a) ==> a' == a
    ensures Opens(a', other) ==>
              Opens(a, other) || (AnyMatch(a, current) && (other == current || IsChosen(chosen, other)))
  {
    if AnyVerify(a, a', current, maxAttempts) {
      AnyVerifyOpens(a, a', current, maxAttempts, other);
    } else if a' != a {
      var b :| AnyVerify(a, b, current, maxAttempts) && ReplaceStage(b, a', current, chosen, maxAttempts);
      AnyVerifyOpens(a, b, current, maxAttempts, other);
      if AnyVerify(b, a', current, maxAttempts) {
        AnyVerifyOpens(b, a', current, maxAttempts, other);
      }
    }
  }

  // ---- A half-defined slot ----

  datatype Command = Status | Test | SetUp | Change | Delete

  /** One command for this user, whoever issues it and whatever they type. */
  datatype Request = Request(command: Command, caller: Caller, lines: seq<Line>, machine: bool)

  /** The account after a request, and whether the helper reported an error. */
  function Serve(a: Account, uid: nat, request: Request, policy: PinPolicy, refusal: Kind): (bool, Account) {
    var Request(command, caller, lines, machine) := request;
    match command
    case Status => (false, a)
    case Test =>
      if !CanAttemptPin(caller, uid) then (true, a) else
      var (r, a') := TestAccount(a, uid, lines, machine, policy, refusal); (r.Err?, a')
    case SetUp =>
      if !CanManagePin(caller, uid) then (true, a) else
      var (r, a') := SetupAccount(a, uid, lines, machine, policy); (r.Err?, a')
    case Change =>
      if !CanManagePin(caller, uid) then (true, a) else
      var (r, a') := if caller.uid == 0 then ChangeAccountAsRoot(a, uid, lines, machine, policy)
                     else ChangeOwnAccount(a, uid, lines, machine, policy, refusal);
      (r.Err?, a')
    case Delete =>
      if !CanManagePin(caller, uid) then (true, a) else
      var (r, a') := DeleteAccount(a, caller, uid, lines, machine, policy, refusal); (r.Err?, a')
  }

  function ServeAll(a: Account, uid: nat, requests: seq<Request>, policy: PinPolicy, refusal: Kind): Account {
    if requests == [] then a
    else Serve(ServeAll(a, uid, requests[..|requests| - 1], policy, refusal), uid, requests[|requests| - 1], policy,
               refusal).1
  }

  lemma BrokenIsRefused(a: Account, uid: nat, request: Request, policy: PinPolicy, refusal: Kind)
    requires a.Broken?
    ensures Serve(a, uid, request, policy, refusal).1 == a
    ensures !request.command.Status? ==> Serve(a, uid, request, policy, refusal).0
  {
  }

  /**
   A setup stopped between defining the slot and writing it leaves an account that no sequence of `pinutil` commands
   repairs, root's included: status shows no PIN, every other command reports an error, and the account stays as it is.
   Only `delete_pin_admin` itself, which `pinutil` refuses to reach without a readable slot, removes it.
   */
  lemma {:induction false} HalfDefinedSlotIsStuck(a: Account, uid: nat, requests: seq<Request>, policy: PinPolicy,
                                                  refusal: Kind)
    requires a.Broken?
    ensures ServeAll(a, uid, requests, policy, refusal) == a
    ensures forall k | 0 <= k < |requests| && !requests[k].command.Status? ::
              Serve(ServeAll(a, uid, requests[..k], policy, refusal), uid, requests[k], policy, refusal).0
    ensures Attempts(a).None? && DeleteAdmin(a, uid) == (Ok(()), Empty)
  {
    if requests != [] {
      var rest := requests[..|requests| - 1];
      HalfDefinedSlotIsStuck(a, uid, rest, policy, refusal);
      BrokenIsRefused(a, uid, requests[|rest|], policy, refusal);
      assert forall k | 0 <= k < |rest| :: requests[..k] == rest[..k];
    }
  }
}
