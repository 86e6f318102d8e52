/**
 The commands of `pinutil` (pinutil/src/main.rs) that manage PINs, as the PAM module and
 users drive them. Prompt texts, terminal echo and JSON are not part of the model.
 */
module Pinutil {
  import opened Wrappers
  import opened PinCodec
  import opened PinErrors
  import opened PinIndex
  import opened Text
  import opened Tpm
  import opened Policy
  import opened PinContracts
  import opened Accounts
  import opened PinManagement

  // ---- Standard input ----

  /** A line with its newline, or a read error. */
  datatype Line = Line(text: string) | Unreadable

  /** What `read_line` followed by `Pin::new` makes of the k-th line; past the end of the input the line is empty. */
  function Typed(lines: seq<Line>, k: nat, policy: PinPolicy): Result<string, PinError> {
    if k >= |lines| then NewPin("", policy)
    else if lines[k].Unreadable? then Err(IoError)
    else NewPin(lines[k].text, policy)
  }

  function Rest(lines: seq<Line>): seq<Line> {
    if lines == [] then [] else lines[1..]
  }

  class Console {
    var lines: seq<Line>

    constructor (lines: seq<Line>)
      ensures this.lines == lines
    {
      this.lines := lines;
    }

    method ReadLine() returns (r: Result<string, PinError>)
      modifies this
      ensures lines == Rest(old(lines))
      ensures r == if old(lines) == [] then Ok("")
                   else if old(lines)[0].Unreadable? then Err(IoError) else Ok(old(lines)[0].text)
    {
      if lines == [] {
        return Ok("");
      }
      r := if lines[0].Unreadable? then Err(IoError) else Ok(lines[0].text);
      lines := lines[1..];
    }
  }

  /** The input half of `prompt_pin`. */
  method PromptPin(console: Console, policy: PinPolicy) returns (r: Result<string, PinError>)
    modifies console
    ensures console.lines == Rest(old(console.lines))
    ensures r == Typed(old(console.lines), 0, policy)
    ensures r == if old(console.lines) == [] then Err(PinIsEmpty)
                 else if old(console.lines)[0].Unreadable? then Err(IoError)
                 else NewPin(old(console.lines)[0].text, policy)
  {
    var line := console.ReadLine();
    r := if line.Err? then Err(line.error) else NewPin(line.value, policy);
  }

  /** A new PIN, typed twice unless the helper is driven by a program. */
  function Chosen(lines: seq<Line>, machine: bool, policy: PinPolicy): Result<string, PinError> {
    var pin := Typed(lines, 0, policy);
    if pin.Err? || machine then pin else
    var confirm := Typed(Rest(lines), 0, policy);
    if confirm.Err? then confirm
    else if pin.value != confirm.value then Err(PinsDontMatch)
    else pin
  }

  method PromptNewPin(console: Console, machine: bool, policy: PinPolicy) returns (r: Result<string, PinError>)
    modifies console
    ensures r == Chosen(old(console.lines), machine, policy)
  {
    r := PromptPin(console, policy);
    if r.Ok? && !machine {
      var confirm := PromptPin(console, policy);
      if confirm.Err? {
        return confirm;
      }
      if r.value != confirm.value {
        return Err(PinsDontMatch);
      }
    }
  }

  // ---- Who may do what ----

  datatype Caller = Caller(uid: nat, euid: nat)

  predicate CanManagePin(caller: Caller, target: nat) {
    caller.uid == 0 || caller.uid == target
  }

  predicate CanAttemptPin(caller: Caller, target: nat) {
    caller.euid == 0 || caller.uid == target
  }

  // ---- What the commands do to an account ----

  function Attempts(a: Account): Option<AttemptInfo> {
    if Slot(a).None? then None else Some(FromPinData(Slot(a).value))
  }

  /** Why a command that needs an attempt stops before asking for a PIN. */
  function StopsAt(info: Option<AttemptInfo>): Option<PinError> {
    if info.None? then Some(NoPinSet) else if info.value.Locked() then Some(PinIsLocked) else None
  }

  function TestAccount(a: Account, uid: nat, lines: seq<Line>, machine: bool, policy: PinPolicy, refusal: Kind)
    : (Result<(), PinError>, Account)
  {
    if Attempts(a).None? then (Err(NoPinSet), a)
    else if Attempts(a).value.Locked() then (Err(PinIsLocked), a)
    else if Typed(lines, 0, policy).Err? then (Err(Typed(lines, 0, policy).error), a)
    else
      var (r, a') := Verify(a, uid, Typed(lines, 0, policy).value, policy.maxAttempts, refusal);
      (TestOutcome(r, machine), a')
  }

  /** An interactive `test` reports every verdict as success of the command. */
  function TestOutcome(r: Result<VerificationResult, PinError>, machine: bool): Result<(), PinError> {
    if r.Err? then Err(r.error)
    else if !machine || r.value.Success? then Ok(())
    else if r.value.Invalid? then Err(IncorrectPin(r.value.locked))
    else Err(PinIsLocked)
  }

  function SetupAccount(a: Account, uid: nat, lines: seq<Line>, machine: bool, policy: PinPolicy)
    : (Result<(), PinError>, Account)
  {
    if a.Holder? then (Err(PinAlreadySet), a)
    else if Chosen(lines, machine, policy).Err? then (Err(Chosen(lines, machine, policy).error), a)
    else Setup(a, uid, Chosen(lines, machine, policy).value, policy.maxAttempts)
  }

  /** Once the current PIN has been verified: choose a new one, delete with the current one, set up the new one. */
  function ReplaceOwnPinOf(a: Account, uid: nat, current: string, lines: seq<Line>, machine: bool, policy: PinPolicy,
                           refusal: Kind)
    : (Result<(), PinError>, Account)
  {
    if Chosen(lines, machine, policy).Err? then (Err(Chosen(lines, machine, policy).error), a)
    else
      var (deleted, a') := DeleteWithAuth(a, uid, current, policy.maxAttempts, refusal);
      if deleted.Err? then (Err(deleted.error), a')
      else if !deleted.value.Deleted? then (Err(CannotDeletePin(deleted.value)), a')
      else Setup(a', uid, Chosen(lines, machine, policy).value, policy.maxAttempts)
  }

  function ChangeOwnAccount(a: Account, uid: nat, lines: seq<Line>, machine: bool, policy: PinPolicy, refusal: Kind)
    : (Result<(), PinError>, Account)
  {
    if Attempts(a).None? then (Err(NoPinSet), a)
    else if Attempts(a).value.Locked() then (Err(PinIsLocked), a)
    else if Typed(lines, 0, policy).Err? then (Err(Typed(lines, 0, policy).error), a)
    else
      var current := Typed(lines, 0, policy).value;
      var (verified, a') := Verify(a, uid, current, policy.maxAttempts, refusal);
      if verified.Err? || !verified.value.Success? then (TestOutcome(verified, true), a')
      else ReplaceOwnPinOf(a', uid, current, Rest(lines), machine, policy, refusal)
  }

  function ChangeAccountAsRoot(a: Account, uid: nat, lines: seq<Line>, machine: bool, policy: PinPolicy)
    : (Result<(), PinError>, Account)
  {
    if Attempts(a).None? then (Err(NoPinSet), a)
    else if Chosen(lines, machine, policy).Err? then (Err(Chosen(lines, machine, policy).error), a)
    else Setup(Empty, uid, Chosen(lines, machine, policy).value, policy.maxAttempts)
  }

  predicate SaysYes(text: string) {
    Trim(text) != "" && (Trim(text)[0] == 'y' || Trim(text)[0] == 'Y')
  }

  /** The administrator's answer to the question whether to delete. */
  function Confirmation(lines: seq<Line>, machine: bool): Result<bool, PinError> {
    if machine then Ok(true)
    else if lines == [] then Ok(false)
    else if lines[0].Unreadable? then Err(IoError)
    else Ok(SaysYes(lines[0].text))
  }

  function DeleteAccount(a: Account, caller: Caller, uid: nat, lines: seq<Line>, machine: bool, policy: PinPolicy,
                         refusal: Kind)
    : (Result<(), PinError>, Account)
  {
    if Attempts(a).None? then (Err(NoPinSet), a)
    else if caller.uid == 0 then
      if Confirmation(lines, machine).Err? then (Err(Confirmation(lines, machine).error), a)
      else (Ok(()), if Confirmation(lines, machine).value then Empty else a)
    else if Attempts(a).value.Locked() then (Err(PinIsLocked), a)
    else if Typed(lines, 0, policy).Err? then (Err(Typed(lines, 0, policy).error), a)
    else
      var (r, a') := DeleteWithAuth(a, uid, Typed(lines, 0, policy).value, policy.maxAttempts, refusal);
      (if r.Err? then Err(r.error) else Ok(()), a')
  }

  // ---- Where commands may stop ----

  /** A verification whose tag read may or may not be hidden. */
  predicate AnyVerify(a: Account, a': Account, pin: string, maxAttempts: u32) {
    VerifyStage(a, a', pin, maxAttempts, false) || VerifyStage(a, a', pin, maxAttempts, true)
  }

  predicate AnyMatch(a: Account, pin: string) {
    Matches(a, FormatSeen(a, false), pin) || Matches(a, FormatSeen(a, true), pin)
  }

  /** A setup that had a PIN to set up, from this account. */
  predicate NewPinStage(a: Account, a': Account, chosen: Result<string, PinError>, maxAttempts: u32) {
    a' == a || (chosen.Ok? && SetupStage(a, a', chosen.value, maxAttempts))
  }

  /** A success that has put the chosen PIN in place. */
  predicate IsSetUp(a': Account, chosen: Result<string, PinError>, maxAttempts: u32) {
    chosen.Ok? && a' == Holder(chosen.value, Exact, 0, maxAttempts)
  }

  /**
   Replacing a PIN: the current one is verified again, and if it matches the account may be empty or on its way to the
   new PIN.
   */
  predicate ReplaceStage(a: Account, a': Account, current: string, chosen: Result<string, PinError>, maxAttempts: u32) {
    || AnyVerify(a, a', current, maxAttempts)
    || (AnyMatch(a, current) && NewPinStage(Empty, a', chosen, maxAttempts))
  }

  /** An owner's change: a verification, and if the PIN matched, a replacement from wherever that left the account. */
  ghost predicate ChangeStage(a: Account, a': Account, typed: Result<string, PinError>,
                              chosen: Result<string, PinError>, maxAttempts: u32)
  {
    || a' == a
    || (typed.Ok? && AnyVerify(a, a', typed.value, maxAttempts))
    || (typed.Ok? && AnyMatch(a, typed.value) &&
        exists b :: AnyVerify(a, b, typed.value, maxAttempts) && ReplaceStage(b, a', typed.value, chosen, maxAttempts))
  }

  /** A replacement, read off stores; success means the PIN matched again and the new one is in place. */
  predicate ReplaceLeaves(nv: Store, nv': Store, uid: nat, current: string, chosen: Result<string, PinError>,
                          maxAttempts: u32, success: bool)
  {
    && Shaped(nv, uid) && Shaped(nv', uid) && SameElsewhere(uid, nv, nv')
    && var a, a' := View(nv, uid), View(nv', uid);
       && ReplaceStage(a, a', current, chosen, maxAttempts)
       && (success ==> AnyMatch(a, current) && IsSetUp(a', chosen, maxAttempts))
  }

  /** The same, stated so that proofs open it only where they mention `ReplaceLeaves`. */
  ghost predicate Replaced(nv: Store, nv': Store, uid: nat, current: string, chosen: Result<string, PinError>,
                           maxAttempts: u32, success: bool)
  {
    forall v :: v == nv' ==> ReplaceLeaves(nv, v, uid, current, chosen, maxAttempts, success)
  }

  /** A deletion with the current PIN that may lead into the setup of the chosen one. */
  lemma ErasedThenSetUp(nv: Store, emptied: Store, nv': Store, uid: nat, current: string, chosen: string,
                        maxAttempts: u32, deleted: Result<DeleteResult, PinError>, hidden: bool, success: bool)
    requires Erased(nv, emptied, uid, current, maxAttempts, deleted == Ok(Deleted), hidden)
    requires if deleted == Ok(Deleted) then
               Shaped(emptied, uid) ==>
                 && Shaped(nv', uid) && SameElsewhere(uid, emptied, nv')
                 && SetupStage(View(emptied, uid), View(nv', uid), chosen, maxAttempts)
                 && (success ==> View(nv', uid) == Holder(chosen, Exact, 0, maxAttempts))
             else nv' == emptied && !success
    ensures Replaced(nv, nv', uid, current, Ok(chosen), maxAttempts, success)
  {
    assert DeletionLeaves(nv, emptied, uid, current, maxAttempts, deleted == Ok(Deleted), hidden);
    assert ReplaceLeaves(nv, nv', uid, current, Ok(chosen), maxAttempts, success);
  }

  lemma NothingErased(nv: Store, uid: nat, current: string, chosen: Result<string, PinError>, maxAttempts: u32)
    ensures Shaped(nv, uid) ==> Replaced(nv, nv, uid, current, chosen, maxAttempts, false)
  {
  }

  /** A verification that ends a change, or leads into a replacement. */
  lemma VerifiedThenReplaced(nv: Store, middle: Store, nv': Store, uid: nat, current: string,
                             chosen: Result<string, PinError>, maxAttempts: u32,
                             verified: Result<VerificationResult, PinError>, hidden: bool, fate: Fate, success: bool)
    requires Verified(nv, middle, uid, current, maxAttempts, verified, hidden, fate)
    requires if verified.Ok? && verified.value.Success?
             then Replaced(middle, nv', uid, current, chosen, maxAttempts, success)
             else nv' == middle && !success
    ensures ChangedByOwner(nv, nv', uid, Ok(current), chosen, maxAttempts, success)
  {
    assert VerifyLeaves(nv, middle, uid, current, maxAttempts, verified, hidden, fate);
    if verified.Ok? && verified.value.Success? {
      assert ReplaceLeaves(middle, nv', uid, current, chosen, maxAttempts, success);
      assert AnyVerify(View(nv, uid), View(middle, uid), current, maxAttempts);
    }
    assert OwnChangeLeaves(nv, nv', uid, Ok(current), chosen, maxAttempts, success);
  }

  /** An owner's change, read off stores; success means the PIN matched and the new one is in place. */
  ghost predicate OwnChangeLeaves(nv: Store, nv': Store, uid: nat, typed: Result<string, PinError>,
                                  chosen: Result<string, PinError>, maxAttempts: u32, success: bool)
  {
    && Shaped(nv, uid) && Shaped(nv', uid) && SameElsewhere(uid, nv, nv')
    && var a, a' := View(nv, uid), View(nv', uid);
       && ChangeStage(a, a', typed, chosen, maxAttempts)
       && (success ==> typed.Ok? && AnyMatch(a, typed.value) && IsSetUp(a', chosen, maxAttempts))
  }

  /** The same, stated so that proofs open it only where they mention `OwnChangeLeaves`. */
  ghost predicate ChangedByOwner(nv: Store, nv': Store, uid: nat, typed: Result<string, PinError>,
                                 chosen: Result<string, PinError>, maxAttempts: u32, success: bool)
  {
    forall v :: v == nv' ==> OwnChangeLeaves(nv, v, uid, typed, chosen, maxAttempts, success)
  }

  /** Root's change, read off stores. */
  predicate RootChangeLeaves(nv: Store, nv': Store, uid: nat, chosen: Result<string, PinError>, maxAttempts: u32,
                             success: bool)
  {
    && Shaped(nv, uid) && Shaped(nv', uid) && SameElsewhere(uid, nv, nv')
    && var a, a' := View(nv, uid), View(nv', uid);
       && (a' == a || NewPinStage(Empty, a', chosen, maxAttempts))
       && (success ==> IsSetUp(a', chosen, maxAttempts))
  }

  /** The same, stated so that proofs open it only where they mention `RootChangeLeaves`. */
  ghost predicate ChangedByRoot(nv: Store, nv': Store, uid: nat, chosen: Result<string, PinError>, maxAttempts: u32,
                                success: bool)
  {
    forall v :: v == nv' ==> RootChangeLeaves(nv, v, uid, chosen, maxAttempts, success)
  }

  lemma NothingIsAChange(nv: Store, uid: nat, typed: Result<string, PinError>, chosen: Result<string, PinError>,
                         maxAttempts: u32)
    ensures Shaped(nv, uid) ==>
              ChangedByOwner(nv, nv, uid, typed, chosen, maxAttempts, false)
                  && ChangedByRoot(nv, nv, uid, chosen, maxAttempts, false)
  {
  }

  /** Root's deletion, or an owner's. */
  predicate RemovalStage(a: Account, a': Account, caller: Caller, typed: Result<string, PinError>, maxAttempts: u32) {
    || a' == a
    || (if caller.uid == 0 then a' == Empty
        else typed.Ok? && (AnyVerify(a, a', typed.value, maxAttempts) || (AnyMatch(a, typed.value) && a' == Empty)))
  }

  /** A deletion, read off stores. */
  predicate RemovalLeaves(nv: Store, nv': Store, caller: Caller, uid: nat, typed: Result<string, PinError>,
                          maxAttempts: u32)
  {
    && Shaped(nv, uid) && Shaped(nv', uid) && SameElsewhere(uid, nv, nv')
    && RemovalStage(View(nv, uid), View(nv', uid), caller, typed, maxAttempts)
  }

  /** The same, stated so that proofs open it only where they mention `RemovalLeaves`. */
  ghost predicate Removed(nv: Store, nv': Store, caller: Caller, uid: nat, typed: Result<string, PinError>,
                          maxAttempts: u32)
  {
    forall v :: v == nv' ==> RemovalLeaves(nv, v, caller, uid, typed, maxAttempts)
  }

  lemma NothingIsARemoval(nv: Store, caller: Caller, uid: nat, typed: Result<string, PinError>, maxAttempts: u32)
    ensures Shaped(nv, uid) ==> Removed(nv, nv, caller, uid, typed, maxAttempts)
  {
  }

  /** An owner's deletion with the PIN that was typed. */
  lemma ErasedIsRemoval(nv: Store, nv': Store, caller: Caller, uid: nat, pin: string, maxAttempts: u32, success: bool,
                        hidden: bool)
    requires caller.uid != 0 && Erased(nv, nv', uid, pin, maxAttempts, success, hidden)
    ensures Removed(nv, nv', caller, uid, Ok(pin), maxAttempts)
  {
    assert DeletionLeaves(nv, nv', uid, pin, maxAttempts, success, hidden);
    assert RemovalLeaves(nv, nv', caller, uid, Ok(pin), maxAttempts);
  }

  // ---- What undisturbed commands do, read off stores ----

  /** Ask and verify, exactly as the account decides it. */
  predicate AskEnds(nv: Store, nv': Store, uid: nat, typed: Result<string, PinError>, machine: bool, maxAttempts: u32,
                    refusal: Kind, r: Result<(), PinError>)
  {
    && Shaped(nv, uid) && Shaped(nv', uid) && SameElsewhere(uid, nv, nv')
    && if typed.Err? then r == Err(typed.error) && nv' == nv
       else
         var (verified, a') := Verify(View(nv, uid), uid, typed.value, maxAttempts, refusal);
         r == TestOutcome(verified, machine) && View(nv', uid) == a'
  }

  /** The same, stated so that proofs open it only where they mention `AskEnds`. */
  ghost predicate AskedExactly(nv: Store, nv': Store, uid: nat, typed: Result<string, PinError>, machine: bool,
                               maxAttempts: u32, refusal: Kind, r: Result<(), PinError>)
  {
    forall v :: v == nv' ==> AskEnds(nv, v, uid, typed, machine, maxAttempts, refusal, r)
  }

  /** A test, exactly as the account decides it. */
  predicate TestEnds(nv: Store, nv': Store, uid: nat, lines: seq<Line>, machine: bool, policy: PinPolicy, refusal: Kind,
                     r: Result<(), PinError>)
  {
    && Shaped(nv, uid) && Shaped(nv', uid) && SameElsewhere(uid, nv, nv')
    && (r, View(nv', uid)) == TestAccount(View(nv, uid), uid, lines, machine, policy, refusal)
  }

  /** The same, stated so that proofs open it only where they mention `TestEnds`. */
  ghost predicate TestedExactly(nv: Store, nv': Store, uid: nat, lines: seq<Line>, machine: bool, policy: PinPolicy,
                                refusal: Kind, r: Result<(), PinError>)
  {
    forall v :: v == nv' ==> TestEnds(nv, v, uid, lines, machine, policy, refusal, r)
  }

  /** A replacement, exactly as the account decides it. */
  predicate ReplacementEnds(nv: Store, nv': Store, uid: nat, current: string, lines: seq<Line>, machine: bool,
                            policy: PinPolicy, refusal: Kind, r: Result<(), PinError>)
  {
    && Shaped(nv, uid) && Shaped(nv', uid) && SameElsewhere(uid, nv, nv')
    && (r, View(nv', uid)) == ReplaceOwnPinOf(View(nv, uid), uid, current, lines, machine, policy, refusal)
  }

  /** The same, stated so that proofs open it only where they mention `ReplacementEnds`. */
  ghost predicate ReplacedExactly(nv: Store, nv': Store, uid: nat, current: string, lines: seq<Line>, machine: bool,
                                  policy: PinPolicy, refusal: Kind, r: Result<(), PinError>)
  {
    forall v :: v == nv' ==> ReplacementEnds(nv, v, uid, current, lines, machine, policy, refusal, r)
  }

  /** An owner's change, exactly as the account decides it. */
  predicate OwnChangeEnds(nv: Store, nv': Store, uid: nat, lines: seq<Line>, machine: bool, policy: PinPolicy,
                          refusal: Kind, r: Result<(), PinError>)
  {
    && Shaped(nv, uid) && Shaped(nv', uid) && SameElsewhere(uid, nv, nv')
    && (r, View(nv', uid)) == ChangeOwnAccount(View(nv, uid), uid, lines, machine, policy, refusal)
  }

  /** The same, stated so that proofs open it only where they mention `OwnChangeEnds`. */
  ghost predicate ChangedByOwnerExactly(nv: Store, nv': Store, uid: nat, lines: seq<Line>, machine: bool,
                                        policy: PinPolicy, refusal: Kind, r: Result<(), PinError>)
  {
    forall v :: v == nv' ==> OwnChangeEnds(nv, v, uid, lines, machine, policy, refusal, r)
  }

  /** Root's change, exactly as the account decides it. */
  predicate RootChangeEnds(nv: Store, nv': Store, uid: nat, lines: seq<Line>, machine: bool, policy: PinPolicy,
                           r: Result<(), PinError>)
  {
    && Shaped(nv, uid) && Shaped(nv', uid) && SameElsewhere(uid, nv, nv')
    && (r, View(nv', uid)) == ChangeAccountAsRoot(View(nv, uid), uid, lines, machine, policy)
  }

  /** The same, stated so that proofs open it only where they mention `RootChangeEnds`. */
  ghost predicate ChangedByRootExactly(nv: Store, nv': Store, uid: nat, lines: seq<Line>, machine: bool,
                                       policy: PinPolicy, r: Result<(), PinError>)
  {
    forall v :: v == nv' ==> RootChangeEnds(nv, v, uid, lines, machine, policy, r)
  }

  /** A deletion, exactly as the account decides it. */
  predicate RemovalEnds(nv: Store, nv': Store, caller: Caller, uid: nat, lines: seq<Line>, machine: bool,
                        policy: PinPolicy, refusal: Kind, r: Result<(), PinError>)
  {
    && Shaped(nv, uid) && Shaped(nv', uid) && SameElsewhere(uid, nv, nv')
    && (r, View(nv', uid)) == DeleteAccount(View(nv, uid), caller, uid, lines, machine, policy, refusal)
  }

  /** The same, stated so that proofs open it only where they mention `RemovalEnds`. */
  ghost predicate RemovedExactly(nv: Store, nv': Store, caller: Caller, uid: nat, lines: seq<Line>, machine: bool,
                                 policy: PinPolicy, refusal: Kind, r: Result<(), PinError>)
  {
    forall v :: v == nv' ==> RemovalEnds(nv, v, caller, uid, lines, machine, policy, refusal, r)
  }

  lemma VerificationIsAsked(nv: Store, nv': Store, uid: nat, pin: string, machine: bool, maxAttempts: u32,
                            refusal: Kind, verified: Result<VerificationResult, PinError>)
    requires VerifiedExactly(nv, nv', uid, pin, maxAttempts, refusal, verified)
    ensures AskedExactly(nv, nv', uid, Ok(pin), machine, maxAttempts, refusal, TestOutcome(verified, machine))
  {
    assert Ends(nv, nv', uid, pin, maxAttempts, refusal, verified);
    assert AskEnds(nv, nv', uid, Ok(pin), machine, maxAttempts, refusal, TestOutcome(verified, machine));
  }

  /** A test that stops at the counters. */
  lemma StoppedTest(nv: Store, uid: nat, lines: seq<Line>, machine: bool, policy: PinPolicy, refusal: Kind)
    requires Shaped(nv, uid)
    ensures var stopped := StopsAt(Attempts(View(nv, uid)));
            stopped.Some? ==> TestedExactly(nv, nv, uid, lines, machine, policy, refusal, Err(stopped.value))
  {
  }

  /** A test that gets past the counters. */
  lemma AskedTest(nv: Store, nv': Store, uid: nat, lines: seq<Line>, machine: bool, policy: PinPolicy, refusal: Kind,
                  r: Result<(), PinError>)
    requires Shaped(nv, uid) && StopsAt(Attempts(View(nv, uid))).None?
    requires AskedExactly(nv, nv', uid, Typed(lines, 0, policy), machine, policy.maxAttempts, refusal, r)
    ensures TestedExactly(nv, nv', uid, lines, machine, policy, refusal, r)
  {
    assert AskEnds(nv, nv', uid, Typed(lines, 0, policy), machine, policy.maxAttempts, refusal, r);
    assert TestEnds(nv, nv', uid, lines, machine, policy, refusal, r);
  }

  /** Delete with the current PIN, then set up the chosen one. */
  lemma DeletedThenSetUp(nv: Store, emptied: Store, nv': Store, uid: nat, current: string, chosen: string,
                         lines: seq<Line>, machine: bool, policy: PinPolicy, refusal: Kind,
                         deleted: Result<DeleteResult, PinError>, r: Result<(), PinError>)
    requires Chosen(lines, machine, policy) == Ok(chosen)
    requires DeletedExactly(nv, emptied, uid, current, policy.maxAttempts, refusal, deleted)
    requires if deleted == Ok(Deleted) then
               Shaped(emptied, uid) ==>
                 && Shaped(nv', uid) && SameElsewhere(uid, emptied, nv')
                 && (r, View(nv', uid)) == Setup(View(emptied, uid), uid, chosen, policy.maxAttempts)
             else nv' == emptied && r == Err(if deleted.Err? then deleted.error else CannotDeletePin(deleted.value))
    ensures ReplacedExactly(nv, nv', uid, current, lines, machine, policy, refusal, r)
  {
    assert DeletionEnds(nv, emptied, uid, current, policy.maxAttempts, refusal, deleted);
    assert ReplacementEnds(nv, nv', uid, current, lines, machine, policy, refusal, r);
  }

  lemma NothingReplaced(nv: Store, uid: nat, current: string, lines: seq<Line>, machine: bool, policy: PinPolicy,
                        refusal: Kind)
    requires Shaped(nv, uid)
    ensures var chosen := Chosen(lines, machine, policy);
            chosen.Err? ==>
              ReplacedExactly(nv, nv, uid, current, lines, machine, policy, refusal, Err(chosen.error))
  {
  }

  /** Verify the current PIN, then replace it. */
  lemma VerifiedThenReplacedExactly(nv: Store, middle: Store, nv': Store, uid: nat, lines: seq<Line>, machine: bool,
                                    policy: PinPolicy, refusal: Kind, verified: Result<VerificationResult, PinError>,
                                    r: Result<(), PinError>)
    requires Shaped(nv, uid) && StopsAt(Attempts(View(nv, uid))).None? && Typed(lines, 0, policy).Ok?
    requires VerifiedExactly(nv, middle, uid, Typed(lines, 0, policy).value, policy.maxAttempts, refusal, verified)
    requires if verified.Ok? && verified.value.Success?
             then ReplacedExactly(middle, nv', uid, Typed(lines, 0, policy).value, Rest(lines), machine, policy,
                                  refusal, r)
             else nv' == middle && r == TestOutcome(verified, true)
    ensures ChangedByOwnerExactly(nv, nv', uid, lines, machine, policy, refusal, r)
  {
    var current := Typed(lines, 0, policy).value;
    assert Ends(nv, middle, uid, current, policy.maxAttempts, refusal, verified);
    if verified.Ok? && verified.value.Success? {
      assert ReplacementEnds(middle, nv', uid, current, Rest(lines), machine, policy, refusal, r);
    }
    assert OwnChangeEnds(nv, nv', uid, lines, machine, policy, refusal, r);
  }

  /** A change that stops at the counters. */
  lemma StoppedChange(nv: Store, uid: nat, lines: seq<Line>, machine: bool, policy: PinPolicy, refusal: Kind,
                      stopped: PinError)
    requires Shaped(nv, uid) && StopsAt(Attempts(View(nv, uid))) == Some(stopped)
    ensures ChangedByOwnerExactly(nv, nv, uid, lines, machine, policy, refusal, Err(stopped))
    ensures Attempts(View(nv, uid)).None? ==> ChangedByRootExactly(nv, nv, uid, lines, machine, policy, Err(stopped))
  {
  }

  /** A change that stops at an answer that is no PIN. */
  lemma UntypedChange(nv: Store, uid: nat, lines: seq<Line>, machine: bool, policy: PinPolicy, refusal: Kind)
    requires Shaped(nv, uid) && StopsAt(Attempts(View(nv, uid))).None? && Typed(lines, 0, policy).Err?
    ensures ChangedByOwnerExactly(nv, nv, uid, lines, machine, policy, refusal, Err(Typed(lines, 0, policy).error))
  {
  }

  /** A deletion that stops at the counters. */
  lemma StoppedRemoval(nv: Store, caller: Caller, uid: nat, lines: seq<Line>, machine: bool, policy: PinPolicy,
                       refusal: Kind, stopped: PinError)
    requires Shaped(nv, uid) && StopsAt(Attempts(View(nv, uid))) == Some(stopped)
    requires Attempts(View(nv, uid)).None? || caller.uid != 0
    ensures RemovedExactly(nv, nv, caller, uid, lines, machine, policy, refusal, Err(stopped))
  {
  }

  /** An owner's deletion that stops at an answer that is no PIN. */
  lemma UntypedRemoval(nv: Store, caller: Caller, uid: nat, lines: seq<Line>, machine: bool, policy: PinPolicy,
                       refusal: Kind)
    requires Shaped(nv, uid) && StopsAt(Attempts(View(nv, uid))).None? && Typed(lines, 0, policy).Err?
    requires caller.uid != 0
    ensures RemovedExactly(nv, nv, caller, uid, lines, machine, policy, refusal, Err(Typed(lines, 0, policy).error))
  {
  }

  /** Root's deletion, once the counters are known. */
  lemma RootRemoval(nv: Store, nv': Store, caller: Caller, uid: nat, lines: seq<Line>, machine: bool, policy: PinPolicy,
                    refusal: Kind, r: Result<(), PinError>)
    requires Shaped(nv, uid) && Attempts(View(nv, uid)).Some? && caller.uid == 0
    requires if Confirmation(lines, machine) == Ok(true) then
               && Shaped(nv', uid) && SameElsewhere(uid, nv, nv')
               && (r, View(nv', uid)) == DeleteAdmin(View(nv, uid), uid)
             else
               && nv' == nv
               && r == if Confirmation(lines, machine).Err? then Err(Confirmation(lines, machine).error) else Ok(())
    ensures RemovedExactly(nv, nv', caller, uid, lines, machine, policy, refusal, r)
  {
    assert RemovalEnds(nv, nv', caller, uid, lines, machine, policy, refusal, r);
  }

  /** An owner's deletion, once the counters and the PIN are known. */
  lemma OwnRemoval(nv: Store, nv': Store, caller: Caller, uid: nat, lines: seq<Line>, machine: bool, policy: PinPolicy,
                   refusal: Kind, deleted: Result<DeleteResult, PinError>)
    requires Shaped(nv, uid) && StopsAt(Attempts(View(nv, uid))).None? && caller.uid != 0
    requires Typed(lines, 0, policy).Ok?
    requires DeletedExactly(nv, nv', uid, Typed(lines, 0, policy).value, policy.maxAttempts, refusal, deleted)
    ensures RemovedExactly(nv, nv', caller, uid, lines, machine, policy, refusal,
                           if deleted.Err? then Err(deleted.error) else Ok(()))
  {
    assert DeletionEnds(nv, nv', uid, Typed(lines, 0, policy).value, policy.maxAttempts, refusal, deleted);
    assert RemovalEnds(nv, nv', caller, uid, lines, machine, policy, refusal,
                       if deleted.Err? then Err(deleted.error) else Ok(()));
  }

  // ---- The commands ----

  /** The device ran alone and undisturbed, with this user's indexes in shape. */
  ghost predicate Undisturbed(device: Device, uid: nat)
    reads device
  {
    uid <= PIN_VERSION_UID_MAX && Quiet(device.turns, device.clock) && Shaped(device.nv, uid)
  }

  twostate predicate Ran(device: Device, uid: nat, policy: PinPolicy)
    reads device
  {
    ActsFor(uid, policy.maxAttempts, old(device.World()), device.World())
  }

  /** Nobody else uses the device, with this user's indexes in shape; our own commands may fail. */
  ghost predicate Alone(device: Device, uid: nat)
    reads device
  {
    uid <= PIN_VERSION_UID_MAX && Solo(device.turns, device.clock) && Shaped(device.nv, uid)
  }

  /** The command of one turn never arrives and reads as a refusal; everything else works. */
  ghost predicate Haunted(device: Device, uid: nat, n: nat)
    reads device
  {
    uid <= PIN_VERSION_UID_MAX && Phantom(device.turns, device.clock, device.clock + n) && Shaped(device.nv, uid)
  }

  /** The command kept to this user's indexes, and kept them in shape. */
  twostate predicate Framed(device: Device, uid: nat)
    reads device
  {
    Shaped(old(device.nv), uid) && Shaped(device.nv, uid) && SameElsewhere(uid, old(device.nv), device.nv)
  }

  /** A command's effect on the account, when nothing disturbed it. */
  twostate predicate Became(device: Device, uid: nat, a': Account)
    requires uid <= PIN_VERSION_UID_MAX
    reads device
  {
    Shaped(device.nv, uid) && SameElsewhere(uid, old(device.nv), device.nv) && View(device.nv, uid) == a'
  }

  /** The fault that keeps a command from seeing its slot: of the connection at turn n, or of the read behind it. */
  function OpeningFault(turns: Schedule, n: nat): Option<Kind> {
    if !turns(n).fate.Works? then Some(turns(n).fate.kind)
    else if !turns(n + 1).fate.Works? && !IsMissing(turns(n + 1).fate.kind) then Some(turns(n + 1).fate.kind)
    else None
  }

  function Failure<T>(r: Result<T, PinError>): Option<PinError> {
    if r.Err? then Some(r.error) else None
  }

  /** Such a fault is reported, and the command changes nothing. */
  ghost predicate StopsAtFault(turns: Schedule, n: nat, nv: Store, nv': Store, failure: Option<PinError>) {
    OpeningFault(turns, n).Some? ==>
      && failure == Some(TpmError(Rc(OpeningFault(turns, n).value)))
      && (Solo(turns, n) ==> nv' == nv)
  }

  /** The same, stated so that proofs open it only where they mention `StopsAtFault`. */
  ghost predicate ReportsFault(turns: Schedule, n: nat, nv: Store, nv': Store, failure: Option<PinError>) {
    forall v :: v == nv' ==> StopsAtFault(turns, n, nv, v, failure)
  }

  /** Once the slot has been seen there was no such fault. */
  lemma NothingToReport(turns: Schedule, n: nat, nv: Store, nv': Store, failure: Option<PinError>)
    requires OpeningFault(turns, n).None?
    ensures ReportsFault(turns, n, nv, nv', failure)
  {
  }

  method NewManager(device: Device, policy: PinPolicy, ghost uid: nat) returns (m: PinManager, r: Result<(), PinError>)
    modifies device
    ensures m.device == device && m.maxAttempts == policy.maxAttempts
    ensures r.Err? ==> IsManagerError(r.error)
    ensures Ran(device, uid, policy) && device.spent == old(device.spent) && device.clock == old(device.clock) + 1
    ensures var fate := old(device.turns(device.clock)).fate;
            if fate.Works? then r.Ok? else r == Err(TpmError(Rc(fate.kind)))
    ensures old(Solo(device.turns, device.clock)) ==> device.nv == old(device.nv)
  {
    m := new PinManager(device, policy.maxAttempts);
    r := m.RestartContext(uid);
  }

  method GetAttemptInfo(m: PinManager, uid: nat) returns (r: Result<Option<AttemptInfo>, PinError>)
    modifies m.device
    ensures r.Err? ==> IsManagerError(r.error)
    ensures ActsFor(uid, m.maxAttempts, old(m.device.World()), m.device.World())
            && m.device.spent == old(m.device.spent)
    ensures r.Ok? && r.value.Some? ==>
              SlotReading(m.device.nv, uid).Ok? && SlotReading(m.device.nv, uid).value.Some? &&
              r.value.value == FromPinData(SlotReading(m.device.nv, uid).value.value)
    ensures old(Solo(m.device.turns, m.device.clock)) ==> m.device.nv == old(m.device.nv)
    ensures var fate := old(m.device.turns(m.device.clock)).fate;
            uid <= PIN_VERSION_UID_MAX && !fate.Works? ==>
              r == if IsMissing(fate.kind) then Ok(None) else Err(TpmError(Rc(fate.kind)))
    ensures old(Alone(m.device, uid)) ==>
              && m.device.clock == old(m.device.clock) + 1
              && (old(m.device.turns(m.device.clock)).fate.Works? || (r.Ok? && r.value.Some?) ==>
                    r == Ok(Attempts(View(m.device.nv, uid))))
  {
    var slot := m.GetPinSlot(uid);
    if slot.Err? {
      return Err(slot.error);
    }
    r := Ok(if slot.value.None? then None else Some(FromPinData(slot.value.value)));
  }

  /** `pinutil status`. Anybody may ask. */
  method ShowStatus(device: Device, policy: PinPolicy, user: Option<nat>)
    returns (r: Result<Option<AttemptInfo>, PinError>)
    modifies device
    ensures user.None? ==> r == Err(UserNotFound) && device.World() == old(device.World())
    ensures user.Some? ==> Ran(device, user.value, policy) && device.spent == old(device.spent)
    ensures user.Some? && old(Alone(device, user.value)) ==>
              && device.nv == old(device.nv)
              && (r.Ok? ==> device.clock == old(device.clock) + 2)
              && (r.Ok? && r.value.Some? ==> r == Ok(Attempts(View(device.nv, user.value))))
    ensures user.Some? && old(Alone(device, user.value))
            && old(device.turns(device.clock)).fate.Works? && old(device.turns(device.clock + 1)).fate.Works? ==>
              r == Ok(Attempts(View(old(device.nv), user.value)))
    ensures user.Some? && user.value <= PIN_VERSION_UID_MAX ==>
              ReportsFault(device.turns, old(device.clock), old(device.nv), device.nv, Failure(r))
  {
    if user.None? {
      return Err(UserNotFound);
    }
    ActsForIsTransitive(user.value, policy.maxAttempts);
    var m, connected := NewManager(device, policy, user.value);
    if connected.Err? {
      return Err(connected.error);
    }
    r := GetAttemptInfo(m, user.value);
  }

  /** The helper gets as far as putting this PIN to the TPM. */
  predicate IsTestable(a: Account, typed: Result<string, PinError>) {
    && a.Holder? && !Attempts(a).value.Locked()
    && typed.Ok? && ByteLen(Key(a.format, typed.value)) <= MAX_AUTH_BUFFER
  }

  /** A phantom refusal of a PIN that was never compared reads as a wrong PIN. */
  predicate GhostRefusal(nv: Store, nv': Store, uid: nat, typed: Result<string, PinError>, r: Result<(), PinError>) {
    Shaped(nv, uid) && IsTestable(View(nv, uid), typed) ==>
      nv' == nv && r == Err(IncorrectPin(ReadsSpent(nv', uid)))
  }

  /** The same, stated so that proofs open it only where they mention `GhostRefusal`. */
  ghost predicate GhostRefused(nv: Store, nv': Store, uid: nat, typed: Result<string, PinError>,
                               r: Result<(), PinError>)
  {
    forall v :: v == nv' ==> GhostRefusal(nv, v, uid, typed, r)
  }

  /** There is no such refusal where a test stops before it. */
  lemma NothingIsRefused(nv: Store, nv': Store, uid: nat, typed: Result<string, PinError>, r: Result<(), PinError>)
    requires Shaped(nv, uid) && (StopsAt(Attempts(View(nv, uid))).Some? || typed.Err?)
    ensures GhostRefused(nv, nv', uid, typed, r)
  {
  }

  /**
   A test whose own commands may fail, with the tag read at turn n: the account stays, or ends at a stage of a
   verification of the PIN that was typed. A program is told of success only if that PIN matched, and of a
   wrong PIN only by a refused guess.
   */
  predicate TestLeaves(turns: Schedule, nv: Store, nv': Store, uid: nat, typed: Result<string, PinError>, machine: bool,
                       maxAttempts: u32, r: Result<(), PinError>, n: nat)
  {
    && Shaped(nv, uid) && Shaped(nv', uid) && SameElsewhere(uid, nv, nv')
    && var a, a' := View(nv, uid), View(nv', uid);
       var format := FormatSeen(a, HidesIndex(turns(n)));
       && (a' == a || (typed.Ok? && VerifyStage(a, a', typed.value, maxAttempts, HidesIndex(turns(n)))))
       && (machine && r.Ok? ==> typed.Ok? && Matches(a, format, typed.value))
       && (r.Err? && r.error.IncorrectPin? ==>
             typed.Ok? && RefusalStage(turns(n + 2).fate, a, a', Key(format, typed.value)))
  }

  /** The same, stated so that proofs open it only where they mention `TestLeaves`. */
  ghost predicate Tested(turns: Schedule, nv: Store, nv': Store, uid: nat, typed: Result<string, PinError>,
                         machine: bool, maxAttempts: u32, r: Result<(), PinError>, n: nat)
  {
    forall v :: v == nv' ==> TestLeaves(turns, nv, v, uid, typed, machine, maxAttempts, r, n)
  }

  lemma NothingIsATest(turns: Schedule, nv: Store, uid: nat, typed: Result<string, PinError>, machine: bool,
                       maxAttempts: u32, error: PinError, n: nat)
    requires !error.IncorrectPin?
    ensures Shaped(nv, uid) ==> Tested(turns, nv, nv, uid, typed, machine, maxAttempts, Err(error), n)
  {
  }

  lemma VerificationIsTest(turns: Schedule, nv: Store, nv': Store, uid: nat, pin: string, machine: bool,
                           maxAttempts: u32, verified: Result<VerificationResult, PinError>, n: nat)
    requires Verified(nv, nv', uid, pin, maxAttempts, verified, HidesIndex(turns(n)), turns(n + 2).fate)
    requires verified.Err? ==> IsManagerError(verified.error)
    ensures Tested(turns, nv, nv', uid, Ok(pin), machine, maxAttempts, TestOutcome(verified, machine), n)
  {
    assert VerifyLeaves(nv, nv', uid, pin, maxAttempts, verified, HidesIndex(turns(n)), turns(n + 2).fate);
    assert TestLeaves(turns, nv, nv', uid, Ok(pin), machine, maxAttempts, TestOutcome(verified, machine), n);
  }

  /**
   Ask and verify from turn n on: alone it is at most one verification, a phantom refusal reads as a wrong PIN, and
   undisturbed it is what the account decides.
   */
  ghost predicate AskingEnds(turns: Schedule, n: nat, nv: Store, nv': Store, uid: nat, typed: Result<string, PinError>,
                             machine: bool, maxAttempts: u32, r: Result<(), PinError>)
  {
    uid <= PIN_VERSION_UID_MAX && Shaped(nv, uid) ==>
      && (Solo(turns, n) ==> Tested(turns, nv, nv', uid, typed, machine, maxAttempts, r, n))
      && (machine && Phantom(turns, n, n + 2) ==> GhostRefused(nv, nv', uid, typed, r))
      && (Quiet(turns, n) ==> AskedExactly(nv, nv', uid, typed, machine, maxAttempts, turns(n).refusal, r))
  }

  /** The same, stated so that proofs open it only where they mention `AskingEnds`. */
  ghost predicate AskedFrom(turns: Schedule, n: nat, nv: Store, nv': Store, uid: nat, typed: Result<string, PinError>,
                            machine: bool, maxAttempts: u32, r: Result<(), PinError>)
  {
    forall v :: v == nv' ==> AskingEnds(turns, n, nv, v, uid, typed, machine, maxAttempts, r)
  }

  /** A test is a look at the counters at turns n and n + 1, and the rest. */
  lemma OpenedThenAsked(turns: Schedule, n: nat, nv: Store, nv': Store, uid: nat, lines: seq<Line>, machine: bool,
                        policy: PinPolicy, stopped: Option<PinError>, r: Result<(), PinError>)
    requires uid <= PIN_VERSION_UID_MAX && Solo(turns, n) && Shaped(nv, uid)
    requires turns(n).fate.Works? && turns(n + 1).fate.Works? ==> stopped == StopsAt(Attempts(View(nv, uid)))
    requires if stopped.Some? then nv' == nv && r == Err(stopped.value) && !stopped.value.IncorrectPin?
             else AskedFrom(turns, n + 2, nv, nv', uid, Typed(lines, 0, policy), machine, policy.maxAttempts, r)
    ensures Tested(turns, nv, nv', uid, Typed(lines, 0, policy), machine, policy.maxAttempts, r, n + 2)
    ensures machine && Phantom(turns, n, n + 4) ==> GhostRefused(nv, nv', uid, Typed(lines, 0, policy), r)
    ensures Quiet(turns, n) ==> TestedExactly(nv, nv', uid, lines, machine, policy, turns(n).refusal, r)
  {
    var typed := Typed(lines, 0, policy);
    if stopped.Some? {
      NothingIsATest(turns, nv, uid, typed, machine, policy.maxAttempts, stopped.value, n + 2);
      if turns(n).fate.Works? && turns(n + 1).fate.Works? {
        StoppedTest(nv, uid, lines, machine, policy, turns(n).refusal);
        NothingIsRefused(nv, nv, uid, typed, r);
      }
    } else {
      assert AskingEnds(turns, n + 2, nv, nv', uid, typed, machine, policy.maxAttempts, r);
      if Quiet(turns, n) {
        AskedTest(nv, nv', uid, lines, machine, policy, turns(n).refusal, r);
      }
    }
  }

  /** The rest of a test, once the slot has been found unlocked. */
  method AskAndVerify(m: PinManager, uid: nat, policy: PinPolicy, console: Console, machine: bool)
    returns (r: Result<(), PinError>)
    requires m.maxAttempts == policy.maxAttempts
    modifies m.device, console
    ensures Ran(m.device, uid, policy) && old(m.device.spent) <= m.device.spent <= old(m.device.spent) + 1
    ensures machine && r.Ok? && old(Consistent(m.device.World())) ==>
              && old(Typed(console.lines, 0, policy)).Ok?
              && PinAccepted(old(m.device.World()), m.device.World(), uid, old(Typed(console.lines, 0, policy)).value)
    ensures old(Typed(console.lines, 0, policy)).Err? ==> m.device.spent == old(m.device.spent)
    ensures AskedFrom(m.device.turns, old(m.device.clock), old(m.device.nv), m.device.nv, uid,
                      old(Typed(console.lines, 0, policy)), machine, policy.maxAttempts, r)
    ensures old(Typed(console.lines, 0, policy)).Err? ==>
              m.device.nv == old(m.device.nv) && r == Err(old(Typed(console.lines, 0, policy)).error)
  {
    ActsForIsTransitive(uid, policy.maxAttempts);
    ghost var nv, start, alone := m.device.nv, m.device.clock, Alone(m.device, uid);
    var pin := PromptPin(console, policy);
    if pin.Err? {
      NothingIsATest(m.device.turns, nv, uid, pin, machine, policy.maxAttempts, pin.error, start);
      assert AskingEnds(m.device.turns, start, nv, nv, uid, pin, machine, policy.maxAttempts, Err(pin.error));
      return Err(pin.error);
    }
    var verified := m.VerifyPin(uid, pin.value);
    if alone {
      VerificationIsTest(m.device.turns, nv, m.device.nv, uid, pin.value, machine, policy.maxAttempts, verified, start);
    }
    match verified {
      case Err(error) => r := Err(error);
      case Ok(verdict) =>
        if !machine {
          r := Ok(());
        } else {
          match verdict
          case Success(_) => r := Ok(());
          case Invalid(locked) => r := Err(IncorrectPin(locked));
          case LockedOut => r := Err(PinIsLocked);
        }
    }
    if alone && Quiet(m.device.turns, start) {
      VerificationIsAsked(nv, m.device.nv, uid, pin.value, machine, policy.maxAttempts, m.device.turns(start).refusal,
                          verified);
    }
    assert AskingEnds(m.device.turns, start, nv, m.device.nv, uid, pin, machine, policy.maxAttempts, r);
  }

  /** Connect, and look at the counters. */
  method OpenUnlocked(device: Device, policy: PinPolicy, uid: nat) returns (m: PinManager, stopped: Option<PinError>)
    modifies device
    ensures m.device == device && m.maxAttempts == policy.maxAttempts
    ensures Ran(device, uid, policy) && device.spent == old(device.spent)
    ensures stopped.Some? ==> !stopped.value.IncorrectPin?
    ensures old(Alone(device, uid)) ==>
              device.nv == old(device.nv) && (stopped.None? ==> device.clock == old(device.clock) + 2)
    ensures old(Alone(device, uid))
            && old(device.turns(device.clock)).fate.Works? && old(device.turns(device.clock + 1)).fate.Works? ==>
              stopped == StopsAt(Attempts(View(device.nv, uid)))
    ensures uid <= PIN_VERSION_UID_MAX ==>
              && ReportsFault(device.turns, old(device.clock), old(device.nv), device.nv, stopped)
              && (stopped.None? ==> OpeningFault(device.turns, old(device.clock)).None?)
  {
    ActsForIsTransitive(uid, policy.maxAttempts);
    var connected: Result<(), PinError>;
    m, connected := NewManager(device, policy, uid);
    if connected.Err? {
      return m, Some(connected.error);
    }
    var info := GetAttemptInfo(m, uid);
    stopped := if info.Err? then Some(info.error) else StopsAt(info.value);
  }

  /** `pinutil test`, for a caller who may attempt it. */
  method TestPermitted(device: Device, policy: PinPolicy, uid: nat, console: Console, machine: bool)
    returns (r: Result<(), PinError>)
    modifies device, console
    ensures Ran(device, uid, policy) && old(device.spent) <= device.spent <= old(device.spent) + 1
    ensures machine && r.Ok? && old(Consistent(device.World())) ==>
              && old(Typed(console.lines, 0, policy)).Ok?
              && PinAccepted(old(device.World()), device.World(), uid, old(Typed(console.lines, 0, policy)).value)
    ensures old(Typed(console.lines, 0, policy)).Err? ==> device.spent == old(device.spent)
    ensures old(Alone(device, uid)) ==>
              Tested(device.turns, old(device.nv), device.nv, uid, old(Typed(console.lines, 0, policy)), machine,
                     policy.maxAttempts, r, old(device.clock) + 2)
    ensures machine && old(Haunted(device, uid, 4)) ==>
              GhostRefused(old(device.nv), device.nv, uid, old(Typed(console.lines, 0, policy)), r)
    ensures old(Undisturbed(device, uid)) ==>
              TestedExactly(old(device.nv), device.nv, uid, old(console.lines), machine, policy,
                            old(device.turns(device.clock)).refusal, r)
    ensures uid <= PIN_VERSION_UID_MAX ==>
              ReportsFault(device.turns, old(device.clock), old(device.nv), device.nv, Failure(r))
  {
    ActsForIsTransitive(uid, policy.maxAttempts);
    ghost var start, lines, alone := device.World(), console.lines, Alone(device, uid);
    var m, stopped := OpenUnlocked(device, policy, uid);
    ghost var asking := device.World();
    if stopped.Some? {
      r := Err(stopped.value);
    } else {
      r := AskAndVerify(m, uid, policy, console, machine);
      if uid <= PIN_VERSION_UID_MAX {
        NothingToReport(device.turns, start.clock, start.nv, device.nv, Failure(r));
      }
      ActsForOpens(uid, policy.maxAttempts, start, asking);
      if machine && r.Ok? && Consistent(start) {
        PinAcceptanceWidens(start, asking, device.World(), device.World(), uid, Typed(lines, 0, policy).value);
      }
    }
    if alone {
      OpenedThenAsked(device.turns, start.clock, start.nv, device.nv, uid, lines, machine, policy, stopped, r);
    }
  }

  /** `pinutil test`. */
  method TestPin(device: Device, policy: PinPolicy, user: Option<nat>, caller: Caller, console: Console, machine: bool)
    returns (r: Result<(), PinError>)
    modifies device, console
    ensures user.None? ==> r == Err(UserNotFound) && device.World() == old(device.World())
    ensures user.Some? ==> Ran(device, user.value, policy) && old(device.spent) <= device.spent <= old(device.spent) + 1
    ensures user.Some? && caller.euid != 0 && caller.uid != user.value ==>
              r == Err(PermissionDenied) && device.World() == old(device.World())
    ensures user.Some? && machine && r.Ok? && old(Consistent(device.World())) ==>
              && old(Typed(console.lines, 0, policy)).Ok?
              && PinAccepted(old(device.World()), device.World(), user.value,
                             old(Typed(console.lines, 0, policy)).value)
    ensures user.Some? && old(Typed(console.lines, 0, policy)).Err? ==> device.spent == old(device.spent)
    ensures user.Some? && old(Alone(device, user.value)) ==>
              Tested(device.turns, old(device.nv), device.nv, user.value, old(Typed(console.lines, 0, policy)), machine,
                     policy.maxAttempts, r, old(device.clock) + 2)
    ensures user.Some? && (caller.euid == 0 || caller.uid == user.value) && machine
            && old(Haunted(device, user.value, 4)) ==>
              GhostRefused(old(device.nv), device.nv, user.value, old(Typed(console.lines, 0, policy)), r)
    ensures user.Some? && (caller.euid == 0 || caller.uid == user.value) && old(Undisturbed(device, user.value)) ==>
              TestedExactly(old(device.nv), device.nv, user.value, old(console.lines), machine, policy,
                            old(device.turns(device.clock)).refusal, r)
    ensures user.Some? && user.value <= PIN_VERSION_UID_MAX && (caller.euid == 0 || caller.uid == user.value) ==>
              ReportsFault(device.turns, old(device.clock), old(device.nv), device.nv, Failure(r))
  {
    if user.None? {
      return Err(UserNotFound);
    }
    var uid := user.value;
    if !CanAttemptPin(caller, uid) {
      NothingIsATest(device.turns, device.nv, uid, Typed(console.lines, 0, policy), machine, policy.maxAttempts,
                     PermissionDenied, device.clock + 2);
      return Err(PermissionDenied);
    }
    r := TestPermitted(device, policy, uid, console, machine);
  }

  /** Connect, and make sure that there is no PIN. */
  method OpenFree(device: Device, policy: PinPolicy, uid: nat) returns (m: PinManager, stopped: Option<PinError>)
    modifies device
    ensures m.device == device && m.maxAttempts == policy.maxAttempts
    ensures Ran(device, uid, policy) && device.spent == old(device.spent)
    ensures old(Alone(device, uid)) ==> device.nv == old(device.nv)
    ensures old(Alone(device, uid))
            && old(device.turns(device.clock)).fate.Works? && old(device.turns(device.clock + 1)).fate.Works? ==>
              stopped == if View(device.nv, uid).Holder? then Some(PinAlreadySet) else None
    ensures uid <= PIN_VERSION_UID_MAX ==>
              && (stopped.None? ==> device.clock == old(device.clock) + 2)
              && ReportsFault(device.turns, old(device.clock), old(device.nv), device.nv, stopped)
              && (stopped.None? ==> OpeningFault(device.turns, old(device.clock)).None?)
  {
    ActsForIsTransitive(uid, policy.maxAttempts);
    var connected: Result<(), PinError>;
    m, connected := NewManager(device, policy, uid);
    if connected.Err? {
      return m, Some(connected.error);
    }
    var attempts := m.GetAttemptCount(uid);
    if attempts.Ok? && attempts.value.Some? {
      return m, Some(PinAlreadySet);
    }
    stopped := if attempts.Err? && !attempts.error.NotProvisioned? then Some(attempts.error) else None;
  }

  /** `pinutil setup`. */
  method SetupPin(device: Device, policy: PinPolicy, user: Option<nat>, caller: Caller, console: Console, machine: bool)
    returns (r: Result<(), PinError>)
    modifies device, console
    ensures user.None? ==> r == Err(UserNotFound) && device.World() == old(device.World())
    ensures user.Some? ==> Ran(device, user.value, policy) && device.spent == old(device.spent)
    ensures user.Some? && caller.uid != 0 && caller.uid != user.value ==>
              r == Err(PermissionDenied) && device.World() == old(device.World())
    ensures user.Some? && old(Alone(device, user.value)) ==>
              && Framed(device, user.value)
              && var chosen := old(Chosen(console.lines, machine, policy));
                 && NewPinStage(View(old(device.nv), user.value), View(device.nv, user.value), chosen,
                                policy.maxAttempts)
                 && (r.Ok? ==> IsSetUp(View(device.nv, user.value), chosen, policy.maxAttempts))
    ensures user.Some? && (caller.uid == 0 || caller.uid == user.value) && old(Undisturbed(device, user.value)) ==>
              var (result, a') := SetupAccount(View(old(device.nv), user.value), user.value, old(console.lines),
                                               machine, policy);
              r == result && Became(device, user.value, a')
    ensures user.Some? && (caller.uid == 0 || caller.uid == user.value) && old(Alone(device, user.value))
            && SlotOf(user.value) !in old(device.nv)
            && old(Chosen(console.lines, machine, policy)).Ok?
            && Fits(old(Chosen(console.lines, machine, policy)).value) ==>
              Recovers(device.turns, old(device.clock), old(device.clock) + 9, device.nv, user.value, r)
    ensures user.Some? && user.value <= PIN_VERSION_UID_MAX && (caller.uid == 0 || caller.uid == user.value) ==>
              ReportsFault(device.turns, old(device.clock), old(device.nv), device.nv, Failure(r))
  {
    if user.None? {
      return Err(UserNotFound);
    }
    var uid := user.value;
    if !CanManagePin(caller, uid) {
      return Err(PermissionDenied);
    }
    ActsForIsTransitive(uid, policy.maxAttempts);
    ghost var start := device.World();
    var m, stopped := OpenFree(device, policy, uid);
    if stopped.Some? {
      return Err(stopped.value);
    }
    var pin := PromptNewPin(console, machine, policy);
    if pin.Err? {
      return Err(pin.error);
    }
    r := m.SetupPin(uid, pin.value);
    RecoversLater(device.turns, start.clock, start.clock + 2, 7, device.nv, uid, r);
  }

  /** The rest of an owner's change, after the current PIN has been verified once. */
  method ReplaceOwnPin(m: PinManager, uid: nat, current: string, policy: PinPolicy, console: Console, machine: bool)
    returns (r: Result<(), PinError>)
    requires m.maxAttempts == policy.maxAttempts
    modifies m.device, console
    ensures Ran(m.device, uid, policy) && old(m.device.spent) <= m.device.spent <= old(m.device.spent) + 1
    ensures r.Ok? && old(Consistent(m.device.World())) ==>
              PinAccepted(old(m.device.World()), m.device.World(), uid, current)
    ensures old(Alone(m.device, uid)) ==>
              Replaced(old(m.device.nv), m.device.nv, uid, current, old(Chosen(console.lines, machine, policy)),
                       policy.maxAttempts, r.Ok?)
    ensures old(Undisturbed(m.device, uid)) ==>
              ReplacedExactly(old(m.device.nv), m.device.nv, uid, current, old(console.lines), machine, policy,
                              old(m.device.turns(m.device.clock)).refusal, r)
  {
    ActsForIsTransitive(uid, policy.maxAttempts);
    ghost var start, lines := m.device.World(), console.lines;
    ghost var alone, undisturbed := Alone(m.device, uid), Undisturbed(m.device, uid);
    ghost var refusal, chosen := m.device.turns(start.clock).refusal, Chosen(console.lines, machine, policy);
    NothingErased(start.nv, uid, current, chosen, policy.maxAttempts);
    var restarted := m.RestartContext(uid);
    if restarted.Err? {
      return restarted;
    }
    var pin := PromptNewPin(console, machine, policy);
    if pin.Err? {
      if undisturbed {
        NothingReplaced(start.nv, uid, current, lines, machine, policy, refusal);
      }
      return Err(pin.error);
    }
    ghost var before := m.device.World();
    var deleted := m.DeletePinWithAuth(uid, current);
    ghost var emptied := m.device.World();
    if deleted.Err? {
      r := Err(deleted.error);
    } else if !deleted.value.Deleted? {
      r := Err(CannotDeletePin(deleted.value));
    } else {
      r := m.SetupPin(uid, pin.value);
      if Consistent(start) {
        ActsForOpens(uid, policy.maxAttempts, start, before);
        ActsForOpens(uid, policy.maxAttempts, emptied, m.device.World());
        PinAcceptanceWidens(start, before, emptied, m.device.World(), uid, current);
      }
    }
    if alone {
      ErasedThenSetUp(start.nv, emptied.nv, m.device.nv, uid, current, pin.value, policy.maxAttempts, deleted,
                      HidesIndex(m.device.turns(before.clock)), r.Ok?);
    }
    if undisturbed {
      DeletedThenSetUp(start.nv, emptied.nv, m.device.nv, uid, current, pin.value, lines, machine, policy, refusal,
                       deleted, r);
    }
  }

  /** The rest of an owner's change, after the current PIN has been typed on the first of these lines. */
  method VerifyAndReplace(m: PinManager, uid: nat, current: string, policy: PinPolicy, console: Console, machine: bool,
                          ghost lines: seq<Line>)
    returns (r: Result<(), PinError>)
    requires m.maxAttempts == policy.maxAttempts
    requires Typed(lines, 0, policy) == Ok(current) && console.lines == Rest(lines)
    modifies m.device, console
    ensures Ran(m.device, uid, policy) && old(m.device.spent) <= m.device.spent <= old(m.device.spent) + 2
    ensures r.Ok? && old(Consistent(m.device.World())) ==>
              PinAccepted(old(m.device.World()), m.device.World(), uid, current)
    ensures old(Alone(m.device, uid)) ==>
              ChangedByOwner(old(m.device.nv), m.device.nv, uid, Ok(current), Chosen(Rest(lines), machine, policy),
                             policy.maxAttempts, r.Ok?)
    ensures old(Undisturbed(m.device, uid)) && StopsAt(old(Attempts(View(m.device.nv, uid)))).None? ==>
              ChangedByOwnerExactly(old(m.device.nv), m.device.nv, uid, lines, machine, policy,
                                    old(m.device.turns(m.device.clock)).refusal, r)
  {
    ActsForIsTransitive(uid, policy.maxAttempts);
    ghost var start, alone := m.device.World(), Alone(m.device, uid);
    ghost var undisturbed := Undisturbed(m.device, uid) && StopsAt(Attempts(View(start.nv, uid))).None?;
    ghost var refusal := m.device.turns(start.clock).refusal;
    ghost var hidden, guessing := HidesIndex(m.device.turns(start.clock)), m.device.turns(start.clock + 2).fate;
    var verified := m.VerifyPin(uid, current);
    ghost var middle := m.device.World();
    if alone {
      VerifiedKeepsShape(start.nv, middle.nv, uid, current, policy.maxAttempts, verified, hidden, guessing);
    }
    if verified.Err? || !verified.value.Success? {
      r := TestOutcome(verified, true);
    } else {
      r := ReplaceOwnPin(m, uid, current, policy, console, machine);
      if r.Ok? && Consistent(start) {
        ActsForOpens(uid, policy.maxAttempts, start, middle);
        PinAcceptanceWidens(start, middle, m.device.World(), m.device.World(), uid, current);
      }
    }
    if alone {
      VerifiedThenReplaced(start.nv, middle.nv, m.device.nv, uid, current, Chosen(Rest(lines), machine, policy),
                           policy.maxAttempts, verified, hidden, guessing, r.Ok?);
    }
    if undisturbed {
      VerifiedThenReplacedExactly(start.nv, middle.nv, m.device.nv, uid, lines, machine, policy, refusal, verified, r);
    }
  }

  /** The owner's half of `pinutil change`, once the slot has been found unlocked. */
  method ChangeOwnPin(m: PinManager, uid: nat, policy: PinPolicy, console: Console, machine: bool)
    returns (r: Result<(), PinError>)
    requires m.maxAttempts == policy.maxAttempts
    modifies m.device, console
    ensures Ran(m.device, uid, policy) && old(m.device.spent) <= m.device.spent <= old(m.device.spent) + 2
    ensures r.Ok? && old(Consistent(m.device.World())) ==>
              && old(Typed(console.lines, 0, policy)).Ok?
              && PinAccepted(old(m.device.World()), m.device.World(), uid, old(Typed(console.lines, 0, policy)).value)
    ensures old(Alone(m.device, uid)) ==>
              ChangedByOwner(old(m.device.nv), m.device.nv, uid, old(Typed(console.lines, 0, policy)),
                             old(Chosen(Rest(console.lines), machine, policy)), policy.maxAttempts, r.Ok?)
    ensures old(Undisturbed(m.device, uid)) && old(Attempts(View(m.device.nv, uid))).Some? &&
            !old(Attempts(View(m.device.nv, uid))).value.Locked() ==>
              ChangedByOwnerExactly(old(m.device.nv), m.device.nv, uid, old(console.lines), machine, policy,
                                    old(m.device.turns(m.device.clock)).refusal, r)
  {
    ghost var nv, lines := m.device.nv, console.lines;
    ghost var undisturbed := Undisturbed(m.device, uid) && StopsAt(Attempts(View(nv, uid))).None?;
    var current := PromptPin(console, policy);
    if current.Err? {
      NothingIsAChange(nv, uid, current, Chosen(Rest(lines), machine, policy), policy.maxAttempts);
      if undisturbed {
        UntypedChange(nv, uid, lines, machine, policy, m.device.turns(m.device.clock).refusal);
      }
      return Err(current.error);
    }
    r := VerifyAndReplace(m, uid, current.value, policy, console, machine, lines);
  }

  /** The administrator's half of `pinutil change`. */
  method ChangePinAsRoot(m: PinManager, uid: nat, policy: PinPolicy, console: Console, machine: bool)
    returns (r: Result<(), PinError>)
    requires m.maxAttempts == policy.maxAttempts
    modifies m.device, console
    ensures Ran(m.device, uid, policy) && m.device.spent == old(m.device.spent)
    ensures old(Alone(m.device, uid)) ==>
              ChangedByRoot(old(m.device.nv), m.device.nv, uid, old(Chosen(console.lines, machine, policy)),
                            policy.maxAttempts, r.Ok?)
    ensures old(Undisturbed(m.device, uid)) && old(Attempts(View(m.device.nv, uid))).Some? ==>
              ChangedByRootExactly(old(m.device.nv), m.device.nv, uid, old(console.lines), machine, policy, r)
  {
    ActsForIsTransitive(uid, policy.maxAttempts);
    var pin := PromptNewPin(console, machine, policy);
    if pin.Err? {
      return Err(pin.error);
    }
    r := m.DeletePinAdmin(uid);
    if r.Ok? {
      r := m.SetupPin(uid, pin.value);
    }
  }

  /** Connect, look at the counters, and connect again. */
  method OpenExisting(device: Device, policy: PinPolicy, uid: nat)
    returns (m: PinManager, r: Result<AttemptInfo, PinError>)
    modifies device
    ensures m.device == device && m.maxAttempts == policy.maxAttempts
    ensures Ran(device, uid, policy) && device.spent == old(device.spent)
    ensures old(Alone(device, uid)) ==> device.nv == old(device.nv)
    ensures old(device.clock) <= device.clock
    ensures old(Undisturbed(device, uid)) ==>
              var info := Attempts(View(device.nv, uid));
              r == if info.None? then Err(NoPinSet) else Ok(info.value)
    ensures uid <= PIN_VERSION_UID_MAX ==>
              && ReportsFault(device.turns, old(device.clock), old(device.nv), device.nv, Failure(r))
              && (r.Ok? ==> OpeningFault(device.turns, old(device.clock)).None?)
  {
    ActsForIsTransitive(uid, policy.maxAttempts);
    var connected: Result<(), PinError>;
    m, connected := NewManager(device, policy, uid);
    if connected.Err? {
      return m, Err(connected.error);
    }
    var info := GetAttemptInfo(m, uid);
    if info.Err? {
      return m, Err(info.error);
    }
    if info.value.None? {
      return m, Err(NoPinSet);
    }
    var restarted := m.RestartContext(uid);
    r := if restarted.Err? then Err(restarted.error) else Ok(info.value.value);
  }

  /** `pinutil change`. */
  method ChangePin(device: Device, policy: PinPolicy, user: Option<nat>, caller: Caller, console: Console,
                   machine: bool)
    returns (r: Result<(), PinError>)
    modifies device, console
    ensures user.None? ==> r == Err(UserNotFound) && device.World() == old(device.World())
    ensures user.Some? ==> Ran(device, user.value, policy) && old(device.spent) <= device.spent <= old(device.spent) + 2
    ensures user.Some? && caller.uid == 0 ==> device.spent == old(device.spent)
    ensures user.Some? && caller.uid != 0 && caller.uid != user.value ==>
              r == Err(PermissionDenied) && device.World() == old(device.World())
    ensures user.Some? && caller.uid != 0 && r.Ok? && old(Consistent(device.World())) ==>
              && old(Typed(console.lines, 0, policy)).Ok?
              && PinAccepted(old(device.World()), device.World(), user.value,
                             old(Typed(console.lines, 0, policy)).value)
    ensures user.Some? && old(Alone(device, user.value)) ==>
              var typed, own := old(Typed(console.lines, 0, policy)), old(Chosen(Rest(console.lines), machine, policy));
              var chosen := old(Chosen(console.lines, machine, policy));
              if caller.uid == 0 then ChangedByRoot(old(device.nv), device.nv, user.value, chosen, policy.maxAttempts,
                                                    r.Ok?)
              else ChangedByOwner(old(device.nv), device.nv, user.value, typed, own, policy.maxAttempts, r.Ok?)
    ensures user.Some? && (caller.uid == 0 || caller.uid == user.value) && old(Undisturbed(device, user.value)) ==>
              if caller.uid == 0
              then ChangedByRootExactly(old(device.nv), device.nv, user.value, old(console.lines), machine, policy, r)
              else ChangedByOwnerExactly(old(device.nv), device.nv, user.value, old(console.lines), machine, policy,
                                         old(device.turns(device.clock)).refusal, r)
    ensures user.Some? && user.value <= PIN_VERSION_UID_MAX && (caller.uid == 0 || caller.uid == user.value) ==>
              ReportsFault(device.turns, old(device.clock), old(device.nv), device.nv, Failure(r))
  {
    if user.None? {
      return Err(UserNotFound);
    }
    var uid := user.value;
    if caller.uid == 0 {
      NothingIsAChange(device.nv, uid, Err(NoPinSet), Chosen(console.lines, machine, policy), policy.maxAttempts);
    } else {
      NothingIsAChange(device.nv, uid, Typed(console.lines, 0, policy), Chosen(Rest(console.lines), machine, policy),
                       policy.maxAttempts);
    }
    if !CanManagePin(caller, uid) {
      return Err(PermissionDenied);
    }
    ActsForIsTransitive(uid, policy.maxAttempts);
    ghost var nv, lines, undisturbed := device.nv, console.lines, Undisturbed(device, uid);
    ghost var refusal := device.turns(device.clock).refusal;
    var m, info := OpenExisting(device, policy, uid);
    if info.Err? {
      if undisturbed {
        StoppedChange(nv, uid, lines, machine, policy, refusal, info.error);
      }
      return Err(info.error);
    }
    if caller.uid != 0 {
      if info.value.Locked() {
        if undisturbed {
          StoppedChange(nv, uid, lines, machine, policy, refusal, PinIsLocked);
        }
        return Err(PinIsLocked);
      }
      ghost var asked := device.World();
      r := ChangeOwnPin(m, uid, policy, console, machine);
      ActsForOpens(uid, policy.maxAttempts, old(device.World()), asked);
      if r.Ok? && old(Consistent(device.World())) {
        PinAcceptanceWidens(old(device.World()), asked, device.World(), device.World(), uid,
                            old(Typed(console.lines, 0, policy)).value);
      }
    } else {
      r := ChangePinAsRoot(m, uid, policy, console, machine);
    }
  }

  method Confirm(console: Console, machine: bool) returns (r: Result<bool, PinError>)
    modifies console
    ensures r == Confirmation(old(console.lines), machine)
  {
    if machine {
      return Ok(true);
    }
    var answer := console.ReadLine();
    r := if answer.Err? then Err(answer.error) else Ok(SaysYes(answer.value));
  }

  /** The administrator's half of `pinutil delete`. */
  method DeletePinAsRoot(m: PinManager, caller: Caller, uid: nat, policy: PinPolicy, console: Console, machine: bool)
    returns (r: Result<(), PinError>)
    requires m.maxAttempts == policy.maxAttempts && caller.uid == 0
    modifies m.device, console
    ensures Ran(m.device, uid, policy) && m.device.spent == old(m.device.spent)
    ensures old(Alone(m.device, uid)) ==>
              Removed(old(m.device.nv), m.device.nv, caller, uid, old(Typed(console.lines, 0, policy)),
                      policy.maxAttempts)
    ensures old(Undisturbed(m.device, uid)) && old(Attempts(View(m.device.nv, uid))).Some? ==>
              RemovedExactly(old(m.device.nv), m.device.nv, caller, uid, old(console.lines), machine, policy,
                             old(m.device.turns(m.device.clock)).refusal, r)
  {
    ActsForIsTransitive(uid, policy.maxAttempts);
    ghost var nv, lines, alone := m.device.nv, console.lines, Alone(m.device, uid);
    ghost var undisturbed := Undisturbed(m.device, uid) && Attempts(View(nv, uid)).Some?;
    ghost var refusal := m.device.turns(m.device.clock).refusal;
    var confirmed := Confirm(console, machine);
    if confirmed.Err? {
      r := Err(confirmed.error);
    } else if !confirmed.value {
      r := Ok(());
    } else {
      r := m.DeletePinAdmin(uid);
    }
    if alone {
      assert RemovalLeaves(nv, m.device.nv, caller, uid, Typed(lines, 0, policy), policy.maxAttempts);
    }
    if undisturbed {
      RootRemoval(nv, m.device.nv, caller, uid, lines, machine, policy, refusal, r);
    }
  }

  /** The owner's half of `pinutil delete`, once the slot has been found unlocked. */
  method DeleteOwnPin(m: PinManager, caller: Caller, uid: nat, policy: PinPolicy, console: Console, ghost machine: bool)
    returns (r: Result<(), PinError>)
    requires m.maxAttempts == policy.maxAttempts && caller.uid != 0
    modifies m.device, console
    ensures Ran(m.device, uid, policy) && old(m.device.spent) <= m.device.spent <= old(m.device.spent) + 1
    ensures old(Alone(m.device, uid)) ==>
              Removed(old(m.device.nv), m.device.nv, caller, uid, old(Typed(console.lines, 0, policy)),
                      policy.maxAttempts)
    ensures old(Undisturbed(m.device, uid)) && StopsAt(old(Attempts(View(m.device.nv, uid)))).None? ==>
              RemovedExactly(old(m.device.nv), m.device.nv, caller, uid, old(console.lines), machine, policy,
                             old(m.device.turns(m.device.clock)).refusal, r)
  {
    ActsForIsTransitive(uid, policy.maxAttempts);
    ghost var start, lines, alone := m.device.World(), console.lines, Alone(m.device, uid);
    ghost var undisturbed := Undisturbed(m.device, uid) && StopsAt(Attempts(View(start.nv, uid))).None?;
    ghost var refusal := m.device.turns(start.clock).refusal;
    var pin := PromptPin(console, policy);
    if pin.Err? {
      NothingIsARemoval(start.nv, caller, uid, pin, policy.maxAttempts);
      if undisturbed {
        UntypedRemoval(start.nv, caller, uid, lines, machine, policy, refusal);
      }
      return Err(pin.error);
    }
    var deleted := m.DeletePinWithAuth(uid, pin.value);
    if alone {
      ErasedIsRemoval(start.nv, m.device.nv, caller, uid, pin.value, policy.maxAttempts, deleted == Ok(Deleted),
                      HidesIndex(m.device.turns(start.clock)));
    }
    if undisturbed {
      OwnRemoval(start.nv, m.device.nv, caller, uid, lines, machine, policy, refusal, deleted);
    }
    r := if deleted.Err? then Err(deleted.error) else Ok(());
  }

  /** `pinutil delete`. An owner's wrong PIN is not an error of the command. */
  method DeletePin(device: Device, policy: PinPolicy, user: Option<nat>, caller: Caller, console: Console,
                   machine: bool)
    returns (r: Result<(), PinError>)
    modifies device, console
    ensures user.None? ==> r == Err(UserNotFound) && device.World() == old(device.World())
    ensures user.Some? ==> Ran(device, user.value, policy) && old(device.spent) <= device.spent <= old(device.spent) + 1
    ensures user.Some? && caller.uid != 0 && caller.uid != user.value ==>
              r == Err(PermissionDenied) && device.World() == old(device.World())
    ensures user.Some? && old(Alone(device, user.value)) ==>
              Removed(old(device.nv), device.nv, caller, user.value, old(Typed(console.lines, 0, policy)),
                      policy.maxAttempts)
    ensures user.Some? && (caller.uid == 0 || caller.uid == user.value) && old(Undisturbed(device, user.value)) ==>
              RemovedExactly(old(device.nv), device.nv, caller, user.value, old(console.lines), machine, policy,
                             old(device.turns(device.clock)).refusal, r)
    ensures user.Some? && user.value <= PIN_VERSION_UID_MAX && (caller.uid == 0 || caller.uid == user.value) ==>
              ReportsFault(device.turns, old(device.clock), old(device.nv), device.nv, Failure(r))
  {
    if user.None? {
      return Err(UserNotFound);
    }
    var uid := user.value;
    if caller.uid != 0 && caller.uid != uid {
      return Err(PermissionDenied);
    }
    ActsForIsTransitive(uid, policy.maxAttempts);
    ghost var nv, lines, undisturbed := device.nv, console.lines, Undisturbed(device, uid);
    ghost var refusal := device.turns(device.clock).refusal;
    NothingIsARemoval(nv, caller, uid, Typed(lines, 0, policy), policy.maxAttempts);
    var m, connected := NewManager(device, policy, uid);
    if connected.Err? {
      return connected;
    }
    var info := GetAttemptInfo(m, uid);
    if info.Err? {
      return Err(info.error);
    }
    if info.value.None? {
      if undisturbed {
        StoppedRemoval(nv, caller, uid, lines, machine, policy, refusal, NoPinSet);
      }
      return Err(NoPinSet);
    }
    if caller.uid != 0 && info.value.value.Locked() {
      if undisturbed {
        StoppedRemoval(nv, caller, uid, lines, machine, policy, refusal, PinIsLocked);
      }
      return Err(PinIsLocked);
    }
    if caller.uid == 0 {
      r := DeletePinAsRoot(m, caller, uid, policy, console, machine);
    } else {
      r := DeleteOwnPin(m, caller, uid, policy, console, machine);
    }
  }
}
