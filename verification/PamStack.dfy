/**
 The PAM stack rewriting of the NixOS module (flake.nix): an inline stack of `sufficient` methods becomes a
 decision substack, a master-key stage and the keyring rules, over a small interpreter of PAM control values.
 */
module PamStack {
  import opened Wrappers

  // ---- Stacks and how PAM runs them ----

  datatype Control = Required | Requisite | Sufficient | Optional

  datatype Invocation = Invocation(path: string, args: seq<string>)

  datatype Line =
    | Call(name: string, control: Control, module_: Invocation)
    | Substack(name: string, lines: seq<Line>)

  datatype Outcome = Success | Ignore | Failure

  datatype Action = Ok | Done | Skip | Bad | Die

  datatype Verdict = Undecided | Positive | Negative

  /** Where a stack stands: the verdict so far, whether it stopped early, the modules it ran. */
  datatype Progress = Progress(verdict: Verdict, stopped: bool, ran: seq<string>)

  function ActionOf(control: Control, outcome: Outcome): Action {
    match (control, outcome)
    case (Required, Success) => Action.Ok
    case (Requisite, Success) => Action.Ok
    case (Optional, Success) => Action.Ok
    case (Sufficient, Success) => Done
    case (Required, Failure) => Bad
    case (Requisite, Failure) => Die
    case (_, _) => Skip
  }

  /** A success counts only while nothing has failed. */
  function Judge(action: Action, verdict: Verdict): Verdict {
    match action
    case Skip => verdict
    case Ok => if verdict.Negative? then Negative else Positive
    case Done => if verdict.Negative? then Negative else Positive
    case Bad => Negative
    case Die => Negative
  }

  /** One line. A substack shares its parent's verdict, but stopping it does not stop the parent. */
  function RunLine(line: Line, outcomes: Invocation -> Outcome, verdict: Verdict): Progress
    decreases line
  {
    match line
    case Call(name, control, module_) =>
      var action := ActionOf(control, outcomes(module_));
      var judged := Judge(action, verdict);
      Progress(judged, action.Die? || (action.Done? && judged.Positive?), [name])
    case Substack(_, lines) => Run(lines, outcomes, verdict).(stopped := false)
  }

  /**
   The control values, by what the module returns: a success counts unless something failed before, and after a
   `sufficient` one the stack is done; a failure counts for `required` and ends the stack for `requisite`.
   */
  lemma ControlsDecide(name: string, control: Control, module_: Invocation, outcomes: Invocation -> Outcome,
                       verdict: Verdict)
    ensures var end := RunLine(Call(name, control, module_), outcomes, verdict);
            && end.ran == [name]
            && match outcomes(module_)
               case Ignore => end.verdict == verdict && !end.stopped
               case Success =>
                 && end.verdict == (if verdict.Negative? then Negative else Positive)
                 && (end.stopped <==> control.Sufficient? && !verdict.Negative?)
               case Failure =>
                 && end.verdict == (if control.Required? || control.Requisite? then Negative else verdict)
                 && (end.stopped <==> control.Requisite?)
  {
  }

  function Then(first: Progress, second: Progress): Progress {
    second.(ran := first.ran + second.ran)
  }

  function Run(lines: seq<Line>, outcomes: Invocation -> Outcome, verdict: Verdict): Progress
    decreases lines
  {
    if lines == [] then Progress(verdict, false, [])
    else
      var first := RunLine(lines[0], outcomes, verdict);
      if first.stopped then first else Then(first, Run(lines[1..], outcomes, first.verdict))
  }

  /** Authentication succeeds when the stack ends with a success and no failure. */
  predicate Grants(lines: seq<Line>, outcomes: Invocation -> Outcome) {
    Run(lines, outcomes, Undecided).verdict.Positive?
  }

  // ---- A service's rules ----

  /** The step a rule takes: a module, or the decision substack. */
  datatype Step = Module(control: Control, module_: Invocation) | Decision

  /** `enable` is left at its default, true, or set. */
  datatype Rule = Rule(step: Step, enable: Option<bool>, order: int)

  type Rules = map<string, Rule>

  datatype MasterKeyService = MasterKeyService(denyAnchorRule: string, successRules: seq<string>,
                                               postAuthRules: seq<string>)

  datatype MasterKeyOptions = MasterKeyOptions(control: Control, fallbackDenyOrder: int, module_: Invocation)

  const DECIDE := "pinpamMasterKeyDecide"
  const MASTER_KEY := "pinpamMasterKey"
  const PAM_DENY := "pam_deny.so"

  predicate Enabled(rule: Rule) {
    rule.enable != Some(false)
  }

  /** A stack that holds exactly the enabled rules, by ascending order; ties may fall either way. */
  ghost predicate Renders(rules: Rules, stack: seq<string>) {
    && (forall i | 0 <= i < |stack| :: stack[i] in rules && Enabled(rules[stack[i]]))
    && (forall name | name in rules && Enabled(rules[name]) :: name in stack)
    && (forall i, j | 0 <= i < j < |stack| :: stack[i] != stack[j] && rules[stack[i]].order <= rules[stack[j]].order)
  }

  function LineOf(name: string, rule: Rule, decision: seq<Line>): Line {
    match rule.step
    case Module(control, module_) => Call(name, control, module_)
    case Decision => Substack(name, decision)
  }

  function Lines(rules: Rules, stack: seq<string>, decision: seq<Line>): (lines: seq<Line>)
    requires forall i | 0 <= i < |stack| :: stack[i] in rules
    ensures |lines| == |stack|
    ensures forall i | 0 <= i < |stack| :: lines[i] == LineOf(stack[i], rules[stack[i]], decision)
  {
    if stack == [] then [] else [LineOf(stack[0], rules[stack[0]], decision)] + Lines(rules, stack[1..], decision)
  }

  // ---- What the module generates ----

  /** `lib.unique`: the first occurrences, in order. */
  function Unique(names: seq<string>): (unique: seq<string>)
    ensures forall name :: name in unique <==> name in names
    ensures forall i, j | 0 <= i < j < |unique| :: unique[i] != unique[j]
  {
    if names == [] then []
    else
      var front, last := Unique(names[..|names| - 1]), names[|names| - 1];
      assert names == names[..|names| - 1] + [last];
      if last in front then front else front + [last]
  }

  function IndexOf(names: seq<string>, name: string): (index: nat)
    requires name in names
    ensures index < |names| && names[index] == name && name !in names[..index]
  {
    if names[0] == name then 0 else 1 + IndexOf(names[1..], name)
  }

  function DenyAnchorOrder(rules: Rules, service: MasterKeyService, options: MasterKeyOptions): int {
    if service.denyAnchorRule in rules then rules[service.denyAnchorRule].order else options.fallbackDenyOrder
  }

  /**
   A keyring rule moves behind the master-key stage; a name that is absent, or that nobody enabled, becomes a disabled
   stub.
   */
  function Moved(rules: Rules, name: string, order: int): Rule {
    if name in rules then Rule(rules[name].step, Some(rules[name].enable == Some(true)), order)
    else Rule(Module(Optional, Invocation(PAM_DENY, [])), Some(false), order)
  }

  /** What becomes of a rule, for a service whose deny stands at this order. */
  function Overridden(rules: Rules, service: MasterKeyService, anchor: int, name: string): Rule
    requires name in rules || name in service.postAuthRules
  {
    var post := Unique(service.postAuthRules);
    if name in post then Moved(rules, name, anchor - 30 + 1 + IndexOf(post, name))
    else if name in service.successRules || name == service.denyAnchorRule then rules[name].(enable := Some(false))
    else rules[name]
  }

  /** `mkMasterKeyService` merged over the rules that other modules define. */
  function Generated(rules: Rules, service: MasterKeyService, options: MasterKeyOptions): Rules {
    var anchor := DenyAnchorOrder(rules, service, options);
    (map name | name in rules.Keys + (set n | n in service.postAuthRules) :: Overridden(rules, service, anchor, name))
    [DECIDE := Rule(Decision, None, anchor - 40)]
    [MASTER_KEY := Rule(Module(options.control, options.module_), None, anchor - 30)]
  }

  function InsertByOrder(rules: Rules, name: string, names: seq<string>): (inserted: seq<string>)
    requires name in rules && forall other | other in names :: other in rules
    ensures multiset(inserted) == multiset(names) + multiset{name}
    ensures forall other | other in inserted :: other == name || other in names
  {
    if names == [] then [name]
    else if rules[name].order <= rules[names[0]].order then [name] + names
    else
      assert names == [names[0]] + names[1..];
      [names[0]] + InsertByOrder(rules, name, names[1..])
  }

  /** `lib.sort` by order, which keeps ties as they were. */
  function SortByOrder(rules: Rules, names: seq<string>): (sorted: seq<string>)
    requires forall name | name in names :: name in rules
    ensures multiset(sorted) == multiset(names)
    ensures forall name :: name in sorted <==> name in names
  {
    if names == [] then []
    else
      assert names == [names[0]] + names[1..];
      var sorted := InsertByOrder(rules, names[0], SortByOrder(rules, names[1..]));
      assert forall name :: name in sorted <==> name in multiset(sorted);
      assert forall name :: name in names <==> name in multiset(names);
      sorted
  }

  predicate SortedByOrder(rules: Rules, names: seq<string>)
    requires forall name | name in names :: name in rules
  {
    forall i, j | 0 <= i < j < |names| :: rules[names[i]].order <= rules[names[j]].order
  }

  lemma {:induction false} InsertIsSorted(rules: Rules, name: string, names: seq<string>)
    requires name in rules && forall other | other in names :: other in rules
    requires SortedByOrder(rules, names)
    ensures SortedByOrder(rules, InsertByOrder(rules, name, names))
  {
    if names != [] && rules[name].order > rules[names[0]].order {
      InsertIsSorted(rules, name, names[1..]);
      var tail := InsertByOrder(rules, name, names[1..]);
      assert forall other | other in tail :: rules[names[0]].order <= rules[other].order;
    }
  }

  lemma {:induction false} SortSorts(rules: Rules, names: seq<string>)
    requires forall name | name in names :: name in rules
    ensures SortedByOrder(rules, SortByOrder(rules, names))
  {
    if names != [] {
      SortSorts(rules, names[1..]);
      InsertIsSorted(rules, names[0], SortByOrder(rules, names[1..]));
    }
  }

  function KeepNamed(names: seq<string>, rules: Rules): (kept: seq<string>)
    ensures forall name :: name in kept <==> name in names && name in rules
    ensures (forall i, j | 0 <= i < j < |names| :: names[i] != names[j]) ==>
              forall i, j | 0 <= i < j < |kept| :: kept[i] != kept[j]
  {
    if names == [] then []
    else
      assert names == [names[0]] + names[1..];
      (if names[0] in rules then [names[0]] else []) + KeepNamed(names[1..], rules)
  }

  function PresentSuccessRules(rules: Rules, service: MasterKeyService): seq<string> {
    SortByOrder(rules, KeepNamed(Unique(service.successRules), rules))
  }

  /** The names stand in the order in which this list has them first. */
  ghost predicate InListOrder(names: seq<string>, list: seq<string>) {
    && (forall name | name in names :: name in list)
    && forall i, j | 0 <= i < j < |names| :: IndexOf(list, names[i]) < IndexOf(list, names[j])
  }

  lemma {:induction false} IndexInPrefix(front: seq<string>, back: seq<string>, name: string)
    requires name in front
    ensures IndexOf(front + back, name) == IndexOf(front, name)
  {
    if front[0] != name {
      assert (front + back)[1..] == front[1..] + back;
      IndexInPrefix(front[1..], back, name);
    }
  }

  lemma {:induction false} UniqueKeepsOrder(names: seq<string>)
    ensures InListOrder(Unique(names), names)
  {
    if names != [] {
      var front, last := names[..|names| - 1], names[|names| - 1];
      var unique := Unique(front);
      assert names == front + [last];
      UniqueKeepsOrder(front);
      forall i, j | 0 <= i < j < |Unique(names)|
        ensures IndexOf(names, Unique(names)[i]) < IndexOf(names, Unique(names)[j])
      {
        IndexInPrefix(front, [last], unique[i]);
        if j < |unique| {
          IndexInPrefix(front, [last], unique[j]);
        } else {
          assert last !in front && IndexOf(names, last) >= |front|;
        }
      }
    }
  }

  lemma {:induction false} KeepNamedKeepsOrder(names: seq<string>, rules: Rules)
    requires forall i, j | 0 <= i < j < |names| :: names[i] != names[j]
    ensures InListOrder(KeepNamed(names, rules), names)
  {
    if names != [] {
      var rest, kept := KeepNamed(names[1..], rules), KeepNamed(names, rules);
      KeepNamedKeepsOrder(names[1..], rules);
      assert names == [names[0]] + names[1..] && names[0] !in names[1..];
      assert kept == (if names[0] in rules then [names[0]] else []) + rest;
      forall i, j | 0 <= i < j < |kept|
        ensures IndexOf(names, kept[i]) < IndexOf(names, kept[j])
      {
        assert kept[j] in rest && kept[j] != names[0];
      }
    }
  }

  /** By order, and where the orders are the same by their places in the list. */
  predicate Precedes(rules: Rules, list: seq<string>, a: string, b: string)
    requires a in rules && b in rules && a in list && b in list
  {
    rules[a].order < rules[b].order || (rules[a].order == rules[b].order && IndexOf(list, a) < IndexOf(list, b))
  }

  ghost predicate IsStablySorted(rules: Rules, names: seq<string>, list: seq<string>)
    requires forall name | name in names :: name in rules && name in list
  {
    forall i, j | 0 <= i < j < |names| :: Precedes(rules, list, names[i], names[j])
  }

  lemma PrependIsStable(rules: Rules, first: string, names: seq<string>, list: seq<string>)
    requires first in rules && first in list && forall other | other in names :: other in rules && other in list
    requires IsStablySorted(rules, names, list)
    requires forall other | other in names :: Precedes(rules, list, first, other)
    ensures IsStablySorted(rules, [first] + names, list)
  {
    var whole := [first] + names;
    forall i, j | 0 <= i < j < |whole|
      ensures Precedes(rules, list, whole[i], whole[j])
    {
      assert whole[j] == names[j - 1] && names[j - 1] in names;
      assert i > 0 ==> whole[i] == names[i - 1];
    }
  }

  /** A name that comes before all others in the list goes before those of the same order. */
  lemma {:induction false} InsertIsStable(rules: Rules, name: string, names: seq<string>, list: seq<string>)
    requires name in rules && name in list && forall other | other in names :: other in rules && other in list
    requires IsStablySorted(rules, names, list)
    requires forall other | other in names :: IndexOf(list, name) < IndexOf(list, other)
    ensures IsStablySorted(rules, InsertByOrder(rules, name, names), list)
  {
    if names == [] {
    } else if rules[name].order <= rules[names[0]].order {
      forall other | other in names
        ensures Precedes(rules, list, name, other)
      {
        var k :| 0 <= k < |names| && names[k] == other;
        assert k > 0 ==> Precedes(rules, list, names[0], names[k]);
      }
      PrependIsStable(rules, name, names, list);
    } else {
      var tail := InsertByOrder(rules, name, names[1..]);
      InsertIsStable(rules, name, names[1..], list);
      forall other | other in tail
        ensures Precedes(rules, list, names[0], other)
      {
        if other != name {
          var k :| 0 < k < |names| && names[k] == other;
          assert Precedes(rules, list, names[0], names[k]);
        }
      }
      PrependIsStable(rules, names[0], tail, list);
    }
  }

  lemma {:induction false} SortIsStable(rules: Rules, names: seq<string>, list: seq<string>)
    requires forall name | name in names :: name in rules
    requires InListOrder(names, list)
    ensures forall name | name in SortByOrder(rules, names) :: name in list
    ensures IsStablySorted(rules, SortByOrder(rules, names), list)
  {
    if names != [] {
      SortIsStable(rules, names[1..], list);
      forall other | other in names[1..]
        ensures IndexOf(list, names[0]) < IndexOf(list, other)
      {
        var k :| 0 < k < |names| && names[k] == other;
      }
      InsertIsStable(rules, names[0], SortByOrder(rules, names[1..]), list);
    }
  }

  /** The substack's methods: by ascending order, and as listed where the orders are the same. */
  lemma MethodsAreInOrder(rules: Rules, service: MasterKeyService)
    ensures var names := PresentSuccessRules(rules, service);
            && (forall name :: name in names <==> name in service.successRules && name in rules)
            && IsStablySorted(rules, names, service.successRules)
  {
    var unique := Unique(service.successRules);
    var kept := KeepNamed(unique, rules);
    UniqueKeepsOrder(service.successRules);
    KeepNamedKeepsOrder(unique, rules);
    forall i, j | 0 <= i < j < |kept|
      ensures IndexOf(service.successRules, kept[i]) < IndexOf(service.successRules, kept[j])
    {
      assert kept[i] in kept && kept[j] in kept;
      var m, n := IndexOf(unique, kept[i]), IndexOf(unique, kept[j]);
      assert unique[m] == kept[i] && unique[n] == kept[j];
    }
    assert InListOrder(kept, service.successRules);
    SortIsStable(rules, kept, service.successRules);
  }

  function MethodLines(rules: Rules, names: seq<string>): (lines: seq<Line>)
    requires forall name | name in names :: name in rules && rules[name].step.Module?
    ensures |lines| == |names|
    ensures forall i | 0 <= i < |names| :: lines[i] == Call(names[i], Sufficient, rules[names[i]].step.module_)
  {
    if names == [] then []
    else [Call(names[0], Sufficient, rules[names[0]].step.module_)] + MethodLines(rules, names[1..])
  }

  /** `mkMasterKeySubstackText`: every listed method, then a deny. The deny carries the anchor's name. */
  function DecisionLines(rules: Rules, service: MasterKeyService): seq<Line>
    requires forall name | name in service.successRules && name in rules :: rules[name].step.Module?
  {
    MethodLines(rules, PresentSuccessRules(rules, service))
    + [Call(service.denyAnchorRule, Requisite, Invocation(PAM_DENY, []))]
  }

  // ---- Running stacks of methods and bystanders ----

  predicate IsMethod(line: Line, listed: seq<string>) {
    line.Call? && line.control.Sufficient? && line.name in listed
  }

  /** A line that can neither end its stack nor fail it. */
  predicate IsBystander(line: Line, listed: seq<string>, outcomes: Invocation -> Outcome) {
    line.Call? && line.name !in listed && (line.control.Optional? || outcomes(line.module_).Ignore?)
  }

  function Names(lines: seq<Line>): seq<string> {
    seq(|lines|, i requires 0 <= i < |lines| => lines[i].name)
  }

  function MethodsOf(lines: seq<Line>, listed: seq<string>): (methods: seq<Line>)
    ensures forall line :: line in methods <==> line in lines && line.name in listed
  {
    if lines == [] then []
    else
      assert lines == [lines[0]] + lines[1..];
      (if lines[0].name in listed then [lines[0]] else []) + MethodsOf(lines[1..], listed)
  }

  /** The listed names among those that ran. */
  function Tried(ran: seq<string>, listed: seq<string>): seq<string> {
    if ran == [] then [] else (if ran[0] in listed then [ran[0]] else []) + Tried(ran[1..], listed)
  }

  lemma {:induction false} TriedAppend(left: seq<string>, right: seq<string>, listed: seq<string>)
    ensures Tried(left + right, listed) == Tried(left, listed) + Tried(right, listed)
  {
    if left == [] {
      assert left + right == right;
    } else {
      assert (left + right)[0] == left[0] && (left + right)[1..] == left[1..] + right;
      TriedAppend(left[1..], right, listed);
      var here := if left[0] in listed then [left[0]] else [];
      assert here + (Tried(left[1..], listed) + Tried(right, listed))
             == here + Tried(left[1..], listed) + Tried(right, listed);
    }
  }

  lemma {:induction false} RunAppend(left: seq<Line>, right: seq<Line>, outcomes: Invocation -> Outcome,
                                     verdict: Verdict)
    ensures var first := Run(left, outcomes, verdict);
            Run(left + right, outcomes, verdict) ==
            if first.stopped then first else Then(first, Run(right, outcomes, first.verdict))
  {
    if left == [] {
      assert left + right == right;
      var whole := Run(right, outcomes, verdict);
      assert [] + whole.ran == whole.ran;
    } else {
      assert (left + right)[0] == left[0] && (left + right)[1..] == left[1..] + right;
      var first := RunLine(left[0], outcomes, verdict);
      if !first.stopped {
        RunAppend(left[1..], right, outcomes, first.verdict);
        var second := Run(left[1..], outcomes, first.verdict);
        var third := Run(right, outcomes, second.verdict);
        assert first.ran + (second.ran + third.ran) == (first.ran + second.ran) + third.ran;
      }
    }
  }

  lemma {:induction false} BystandersKeepTheVerdict(lines: seq<Line>, listed: seq<string>,
                                                    outcomes: Invocation -> Outcome, verdict: Verdict)
    requires forall line | line in lines :: IsBystander(line, listed, outcomes)
    ensures var end := Run(lines, outcomes, verdict);
            !end.stopped && end.ran == Names(lines) && Tried(end.ran, listed) == []
            && (end.verdict.Negative? <==> verdict.Negative?) && (verdict.Positive? ==> end.verdict.Positive?)
  {
    if lines != [] {
      assert IsBystander(lines[0], listed, outcomes);
      BystandersKeepTheVerdict(lines[1..], listed, outcomes, RunLine(lines[0], outcomes, verdict).verdict);
      assert Names(lines) == [lines[0].name] + Names(lines[1..]);
    }
  }

  /** A run among bystanders and the run of the methods alone come to the same. */
  predicate Agree(mixed: Progress, pure: Progress, listed: seq<string>) {
    && mixed.stopped == pure.stopped && !mixed.verdict.Negative? && !pure.verdict.Negative?
    && (mixed.stopped ==> mixed.verdict.Positive? && pure.verdict.Positive?)
    && Tried(mixed.ran, listed) == pure.ran
  }

  lemma AgreeStep(mixed: Progress, pure: Progress, listed: seq<string>, name: string)
    requires Agree(mixed, pure, listed)
    ensures Agree(mixed.(ran := [name] + mixed.ran), if name in listed then pure.(ran := [name] + pure.ran) else pure,
                  listed)
  {
    assert ([name] + mixed.ran)[1..] == mixed.ran;
  }

  lemma BystanderIsSkipped(line: Line, rest: seq<Line>, listed: seq<string>, outcomes: Invocation -> Outcome,
                           verdict: Verdict, alone: Verdict)
    requires line.name !in listed && IsBystander(line, listed, outcomes)
    requires Agree(Run(rest, outcomes, RunLine(line, outcomes, verdict).verdict),
                   Run(MethodsOf(rest, listed), outcomes, alone), listed)
    ensures Agree(Run([line] + rest, outcomes, verdict), Run(MethodsOf([line] + rest, listed), outcomes, alone), listed)
  {
    var mixed := Run(rest, outcomes, RunLine(line, outcomes, verdict).verdict);
    var pure := Run(MethodsOf(rest, listed), outcomes, alone);
    assert Run([line] + rest, outcomes, verdict) == mixed.(ran := [line.name] + mixed.ran) by {
      RunCallFirst(line, rest, outcomes, verdict);
    }
    assert MethodsOf([line] + rest, listed) == MethodsOf(rest, listed) by {
      MethodsOfCons(line, rest, listed);
    }
    AgreeStep(mixed, pure, listed, line.name);
  }

  lemma MethodIsTried(line: Line, rest: seq<Line>, listed: seq<string>, outcomes: Invocation -> Outcome,
                      verdict: Verdict, alone: Verdict)
    requires line.name in listed && IsMethod(line, listed) && !verdict.Negative? && !alone.Negative?
    requires var first := RunLine(line, outcomes, verdict);
             !first.stopped ==>
               Agree(Run(rest, outcomes, first.verdict),
                     Run(MethodsOf(rest, listed), outcomes, RunLine(line, outcomes, alone).verdict), listed)
    ensures Agree(Run([line] + rest, outcomes, verdict), Run(MethodsOf([line] + rest, listed), outcomes, alone), listed)
  {
    MethodsOfCons(line, rest, listed);
    RunCallFirst(line, rest, outcomes, verdict);
    RunCallFirst(line, MethodsOf(rest, listed), outcomes, alone);
    if !RunLine(line, outcomes, verdict).stopped {
      AgreeStep(Run(rest, outcomes, RunLine(line, outcomes, verdict).verdict),
                Run(MethodsOf(rest, listed), outcomes, RunLine(line, outcomes, alone).verdict), listed, line.name);
    }
  }

  /** Between methods, bystanders change neither which methods are tried nor what comes of it. */
  lemma {:induction false} BystandersAreSkipped(lines: seq<Line>, listed: seq<string>, outcomes: Invocation -> Outcome,
                                                verdict: Verdict, alone: Verdict)
    requires forall line | line in lines :: IsMethod(line, listed) || IsBystander(line, listed, outcomes)
    requires !verdict.Negative? && !alone.Negative?
    ensures Agree(Run(lines, outcomes, verdict), Run(MethodsOf(lines, listed), outcomes, alone), listed)
  {
    if lines != [] {
      var line, rest := lines[0], lines[1..];
      assert line in lines && lines == [line] + rest;
      var first := RunLine(line, outcomes, verdict);
      if line.name !in listed {
        assert IsBystander(line, listed, outcomes);
        BystandersAreSkipped(rest, listed, outcomes, first.verdict, alone);
        BystanderIsSkipped(line, rest, listed, outcomes, verdict, alone);
      } else {
        assert IsMethod(line, listed);
        if !first.stopped {
          BystandersAreSkipped(rest, listed, outcomes, first.verdict, RunLine(line, outcomes, alone).verdict);
        }
        MethodIsTried(line, rest, listed, outcomes, verdict, alone);
      }
    }
  }

  lemma MethodsOfCons(line: Line, rest: seq<Line>, listed: seq<string>)
    ensures MethodsOf([line] + rest, listed) ==
            if line.name in listed then [line] + MethodsOf(rest, listed) else MethodsOf(rest, listed)
  {
    assert ([line] + rest)[1..] == rest;
  }

  lemma RunCallFirst(line: Line, rest: seq<Line>, outcomes: Invocation -> Outcome, verdict: Verdict)
    requires line.Call?
    ensures var first, whole := RunLine(line, outcomes, verdict), Run([line] + rest, outcomes, verdict);
            if first.stopped then whole == first
            else var second := Run(rest, outcomes, first.verdict);
                 whole == second.(ran := [line.name] + second.ran)
  {
    assert ([line] + rest)[1..] == rest;
  }

  predicate SomeSucceeds(methods: seq<Line>, outcomes: Invocation -> Outcome) {
    exists line | line in methods :: line.Call? && outcomes(line.module_).Success?
  }

  lemma {:induction false} FirstSuccessStops(methods: seq<Line>, listed: seq<string>, outcomes: Invocation -> Outcome,
                                             verdict: Verdict)
    requires forall line | line in methods :: IsMethod(line, listed)
    requires !verdict.Negative?
    ensures Run(methods, outcomes, verdict).stopped <==> SomeSucceeds(methods, outcomes)
  {
    if methods != [] {
      assert methods == [methods[0]] + methods[1..];
      assert IsMethod(methods[0], listed);
      var first := RunLine(methods[0], outcomes, verdict);
      if !first.stopped {
        FirstSuccessStops(methods[1..], listed, outcomes, first.verdict);
      }
    }
  }

  /** An inline stack: methods among bystanders, a required deny, more bystanders. */
  lemma InlineDecides(before: seq<Line>, deny: Line, after: seq<Line>, listed: seq<string>,
                      outcomes: Invocation -> Outcome)
    requires forall line | line in before :: IsMethod(line, listed) || IsBystander(line, listed, outcomes)
    requires forall line | line in after :: IsBystander(line, listed, outcomes)
    requires deny.Call? && deny.control.Required? && outcomes(deny.module_).Failure? && deny.name !in listed
    ensures var end := Run(before + [deny] + after, outcomes, Undecided);
            && (end.verdict.Positive? <==> SomeSucceeds(MethodsOf(before, listed), outcomes))
            && (end.verdict.Positive? ==> end == Run(before, outcomes, Undecided))
            && Tried(end.ran, listed) == Run(MethodsOf(before, listed), outcomes, Undecided).ran
  {
    var first := Run(before, outcomes, Undecided);
    RunAppend(before, [deny] + after, outcomes, Undecided);
    assert before + [deny] + after == before + ([deny] + after);
    BystandersAreSkipped(before, listed, outcomes, Undecided, Undecided);
    FirstSuccessStops(MethodsOf(before, listed), listed, outcomes, Undecided);
    assert ([deny] + after)[1..] == after;
    BystandersKeepTheVerdict(after, listed, outcomes, Negative);
    if !first.stopped {
      var second := Run([deny] + after, outcomes, first.verdict);
      assert second.ran == [deny.name] + Run(after, outcomes, Negative).ran;
      TriedAppend(first.ran, second.ran, listed);
    }
  }

  /** The decision substack: the methods, then the deny that ends it when none succeeded. */
  lemma SubstackDecides(methods: seq<Line>, deny: Line, listed: seq<string>, outcomes: Invocation -> Outcome,
                        verdict: Verdict)
    requires forall line | line in methods :: IsMethod(line, listed)
    requires deny.Call? && deny.control.Requisite? && outcomes(deny.module_).Failure? && deny.name !in listed
    requires !verdict.Negative?
    ensures var inner := Run(methods + [deny], outcomes, verdict);
            && inner.verdict == (if SomeSucceeds(methods, outcomes) then Positive else Negative)
            && inner.ran == Run(methods + [deny], outcomes, Undecided).ran
            && Tried(inner.ran, listed) == Run(methods, outcomes, Undecided).ran
  {
    RunAppend(methods, [deny], outcomes, verdict);
    RunAppend(methods, [deny], outcomes, Undecided);
    FirstSuccessStops(methods, listed, outcomes, verdict);
    MethodsStandAlone(methods, listed, outcomes, verdict);
    TriedAppend(Run(methods, outcomes, Undecided).ran, [deny.name], listed);
    assert Tried([deny.name], listed) == [];
  }

  /** A substack that decides the same after some bystanders as it would alone is one stage among them. */
  lemma SubstackIsAStage(before: seq<Line>, name: string, decision: seq<Line>, after: seq<Line>, listed: seq<string>,
                         outcomes: Invocation -> Outcome)
    requires forall line | line in before :: IsBystander(line, listed, outcomes)
    requires forall line | line in after :: IsBystander(line, listed, outcomes)
    requires var there, alone := Run(decision, outcomes, Run(before, outcomes, Undecided).verdict),
             Run(decision, outcomes, Undecided);
             there.verdict == alone.verdict && there.ran == alone.ran && !alone.verdict.Undecided?
    ensures var decided, end := Run(decision, outcomes, Undecided),
            Run(before + ([Substack(name, decision)] + after), outcomes, Undecided);
            end.verdict == decided.verdict && end.ran == Names(before) + (decided.ran + Names(after))
  {
    var first := Run(before, outcomes, Undecided);
    RunAppend(before, [Substack(name, decision)] + after, outcomes, Undecided);
    BystandersKeepTheVerdict(before, listed, outcomes, Undecided);
    RunSubstackFirst(name, decision, after, outcomes, first.verdict);
    BystandersKeepTheVerdict(after, listed, outcomes, Run(decision, outcomes, Undecided).verdict);
  }

  lemma RunSubstackFirst(name: string, decision: seq<Line>, after: seq<Line>, outcomes: Invocation -> Outcome,
                         verdict: Verdict)
    ensures var decided := Run(decision, outcomes, verdict);
            Run([Substack(name, decision)] + after, outcomes, verdict)
                == Then(decided, Run(after, outcomes, decided.verdict))
  {
    assert ([Substack(name, decision)] + after)[1..] == after;
  }

  /** A generated stack: bystanders, the decision, more bystanders. Every stage runs, whatever is decided. */
  lemma GeneratedDecides(before: seq<Line>, name: string, methods: seq<Line>, deny: Line, after: seq<Line>,
                         listed: seq<string>, outcomes: Invocation -> Outcome)
    requires forall line | line in before :: IsBystander(line, listed, outcomes)
    requires forall line | line in after :: IsBystander(line, listed, outcomes)
    requires forall line | line in methods :: IsMethod(line, listed)
    requires deny.Call? && deny.control.Requisite? && outcomes(deny.module_).Failure? && deny.name !in listed
    ensures var end := Run(before + ([Substack(name, methods + [deny])] + after), outcomes, Undecided);
            && (end.verdict.Positive? <==> SomeSucceeds(methods, outcomes))
            && end.ran == Names(before) + (Run(methods + [deny], outcomes, Undecided).ran + Names(after))
            && Tried(end.ran, listed) == Run(methods, outcomes, Undecided).ran
  {
    var decision := methods + [deny];
    BystandersKeepTheVerdict(before, listed, outcomes, Undecided);
    BystandersKeepTheVerdict(after, listed, outcomes, Undecided);
    SubstackDecides(methods, deny, listed, outcomes, Run(before, outcomes, Undecided).verdict);
    SubstackDecides(methods, deny, listed, outcomes, Undecided);
    SubstackIsAStage(before, name, decision, after, listed, outcomes);
    var ran := Run(decision, outcomes, Undecided).ran;
    TriedAppend(Names(before), ran + Names(after), listed);
    TriedAppend(ran, Names(after), listed);
  }

  /** What earlier bystanders made of the verdict does not matter to the methods. */
  lemma MethodsStandAlone(methods: seq<Line>, listed: seq<string>, outcomes: Invocation -> Outcome, verdict: Verdict)
    requires forall line | line in methods :: IsMethod(line, listed)
    requires !verdict.Negative?
    ensures var after, alone := Run(methods, outcomes, verdict), Run(methods, outcomes, Undecided);
            after.stopped == alone.stopped && !after.verdict.Negative? && !alone.verdict.Negative?
            && (after.stopped ==> after.verdict.Positive?) && after.ran == alone.ran == Tried(alone.ran, listed)
  {
    OnlyMethods(methods, listed);
    BystandersAreSkipped(methods, listed, outcomes, verdict, Undecided);
    BystandersAreSkipped(methods, listed, outcomes, Undecided, verdict);
    BystandersAreSkipped(methods, listed, outcomes, Undecided, Undecided);
  }

  lemma {:induction false} OnlyMethods(methods: seq<Line>, listed: seq<string>)
    requires forall line | line in methods :: IsMethod(line, listed)
    ensures MethodsOf(methods, listed) == methods
  {
    if methods != [] {
      assert methods == [methods[0]] + methods[1..];
      assert methods[0] in methods;
      OnlyMethods(methods[1..], listed);
    }
  }

  // ---- The services the rewriting is for ----

  /** Enabled rules: the listed `sufficient` methods, optional rules outside that list, and a deny that comes last. */
  ghost predicate Supported(rules: Rules, service: MasterKeyService) {
    var deny := service.denyAnchorRule;
    && (forall name | name in rules :: rules[name].step.Module?)
    && (forall name | name in rules || name in service.successRules || name in service.postAuthRules ::
         name != DECIDE && name != MASTER_KEY)
    && (forall name | name in service.successRules :: name !in service.postAuthRules)
    && deny in rules && Enabled(rules[deny]) && rules[deny].step.control.Required?
       && rules[deny].step.module_.path == PAM_DENY
    && deny !in service.successRules && deny !in service.postAuthRules
    && forall name | name in rules && Enabled(rules[name]) && name != deny ::
         if name in service.successRules
         then rules[name].step.control.Sufficient? && rules[name].order < rules[deny].order
         else rules[name].step.control.Optional?
  }

  /** `pam_deny` fails and the master-key module ignores; every other module may do anything. */
  ghost predicate PamWorld(options: MasterKeyOptions, outcomes: Invocation -> Outcome) {
    && (forall module_: Invocation | module_.path == PAM_DENY :: outcomes(module_).Failure?)
    && outcomes(options.module_).Ignore?
  }

  predicate Listed(rules: Rules, service: MasterKeyService, name: string) {
    name in service.successRules && name in rules && rules[name].step.Module?
  }

  /** Some enabled method succeeds. */
  predicate MethodSucceeds(rules: Rules, service: MasterKeyService, outcomes: Invocation -> Outcome) {
    exists name | name in service.successRules ::
        Listed(rules, service, name) && Enabled(rules[name]) && outcomes(rules[name].step.module_).Success?
  }

  /** Some listed method succeeds, enabled or not. */
  predicate CopySucceeds(rules: Rules, service: MasterKeyService, outcomes: Invocation -> Outcome) {
    exists name | name in service.successRules ::
        Listed(rules, service, name) && outcomes(rules[name].step.module_).Success?
  }

  function Inline(rules: Rules, stack: seq<string>): seq<Line>
    requires forall i | 0 <= i < |stack| :: stack[i] in rules
  {
    Lines(rules, stack, [])
  }

  function Layout(rules: Rules, service: MasterKeyService, stack: seq<string>): seq<Line>
    requires forall i | 0 <= i < |stack| :: stack[i] in rules
    requires forall name | name in service.successRules && name in rules :: rules[name].step.Module?
  {
    Lines(rules, stack, DecisionLines(rules, service))
  }

  function MethodLine(rules: Rules, name: string): Line
    requires name in rules && rules[name].step.Module?
  {
    Call(name, Sufficient, rules[name].step.module_)
  }

  /** These lines are the listed methods among these rules. */
  ghost predicate AreTheMethods(methods: seq<Line>, rules: Rules, service: MasterKeyService, onlyEnabled: bool) {
    && (forall line | line in methods ::
          line.Call? && Listed(rules, service, line.name) && line == MethodLine(rules, line.name)
          && (onlyEnabled ==> Enabled(rules[line.name])))
    && forall name | Listed(rules, service, name) && (onlyEnabled ==> Enabled(rules[name])) ::
         MethodLine(rules, name) in methods
  }

  lemma MethodsSucceed(methods: seq<Line>, rules: Rules, service: MasterKeyService, outcomes: Invocation -> Outcome)
    ensures AreTheMethods(methods, rules, service, true) ==>
              (SomeSucceeds(methods, outcomes) <==> MethodSucceeds(rules, service, outcomes))
    ensures AreTheMethods(methods, rules, service, false) ==>
              (SomeSucceeds(methods, outcomes) <==> CopySucceeds(rules, service, outcomes))
  {
    forall name | Listed(rules, service, name) && MethodLine(rules, name) in methods
        && outcomes(rules[name].step.module_).Success?
      ensures SomeSucceeds(methods, outcomes)
    {
      var line := MethodLine(rules, name);
      assert line in methods && line.Call?;
    }
  }

  lemma InlineLine(rules: Rules, service: MasterKeyService, options: MasterKeyOptions, stack: seq<string>, d: nat,
                   i: nat, outcomes: Invocation -> Outcome)
    requires Supported(rules, service) && Renders(rules, stack) && PamWorld(options, outcomes)
    requires d < |stack| && stack[d] == service.denyAnchorRule && i < |stack| && i != d
    ensures var line := Inline(rules, stack)[i];
            && line.Call? && line.name == stack[i]
            && (IsBystander(line, service.successRules, outcomes) || (i < d && IsMethod(line, service.successRules)))
  {
    assert stack[i] != stack[d] && Enabled(rules[stack[i]]);
    assert d < i ==> rules[stack[d]].order <= rules[stack[i]].order;
  }

  /** Before the deny, methods and optional rules; after it, optional rules. */
  lemma InlineShape(rules: Rules, service: MasterKeyService, options: MasterKeyOptions, stack: seq<string>, d: nat,
                    outcomes: Invocation -> Outcome)
    returns (before: seq<Line>, deny: Line, after: seq<Line>)
    requires Supported(rules, service) && Renders(rules, stack) && PamWorld(options, outcomes)
    requires d < |stack| && stack[d] == service.denyAnchorRule
    ensures Inline(rules, stack) == before + [deny] + after && before == Inline(rules, stack)[..d]
    ensures forall line | line in before ::
              IsMethod(line, service.successRules) || IsBystander(line, service.successRules, outcomes)
    ensures forall line | line in after :: IsBystander(line, service.successRules, outcomes)
    ensures deny.Call? && deny.control.Required? && outcomes(deny.module_).Failure?
            && deny.name !in service.successRules
    ensures forall i | 0 <= i < d :: before[i].Call? && before[i].name == stack[i]
  {
    var lines := Inline(rules, stack);
    before, deny, after := lines[..d], lines[d], lines[d + 1..];
    forall i | 0 <= i < |lines| && i != d
      ensures lines[i].Call? && lines[i].name == stack[i]
      ensures IsBystander(lines[i], service.successRules, outcomes)
              || (i < d && IsMethod(lines[i], service.successRules))
    {
      InlineLine(rules, service, options, stack, d, i, outcomes);
    }
  }

  lemma EnabledMethodIsInline(rules: Rules, service: MasterKeyService, stack: seq<string>, d: nat, name: string)
    requires Supported(rules, service) && Renders(rules, stack)
    requires d < |stack| && stack[d] == service.denyAnchorRule
    requires Listed(rules, service, name) && Enabled(rules[name])
    ensures MethodLine(rules, name) in Inline(rules, stack)[..d]
  {
    var i :| 0 <= i < |stack| && stack[i] == name;
    assert i < d;
    assert Inline(rules, stack)[..d][i] == MethodLine(rules, name);
  }

  lemma InlineMethods(rules: Rules, service: MasterKeyService, stack: seq<string>, d: nat)
    requires Supported(rules, service) && Renders(rules, stack)
    requires d < |stack| && stack[d] == service.denyAnchorRule
    ensures AreTheMethods(MethodsOf(Inline(rules, stack)[..d], service.successRules), rules, service, true)
  {
    var lines := Inline(rules, stack);
    forall line | line in MethodsOf(lines[..d], service.successRules)
      ensures line.Call? && Listed(rules, service, line.name) && line == MethodLine(rules, line.name)
              && Enabled(rules[line.name])
    {
      var i :| 0 <= i < d && line == lines[i];
      assert stack[i] != stack[d] && Enabled(rules[stack[i]]);
    }
    forall name | Listed(rules, service, name) && Enabled(rules[name])
      ensures MethodLine(rules, name) in MethodsOf(lines[..d], service.successRules)
    {
      EnabledMethodIsInline(rules, service, stack, d, name);
    }
  }

  /** The inline stack grants exactly when an enabled method succeeds, and then runs nothing from the deny on. */
  lemma InlineGrants(rules: Rules, service: MasterKeyService, options: MasterKeyOptions, stack: seq<string>, d: nat,
                     outcomes: Invocation -> Outcome)
    requires Supported(rules, service) && Renders(rules, stack) && PamWorld(options, outcomes)
    requires d < |stack| && stack[d] == service.denyAnchorRule
    ensures Grants(Inline(rules, stack), outcomes) <==> MethodSucceeds(rules, service, outcomes)
    ensures Tried(Run(Inline(rules, stack), outcomes, Undecided).ran, service.successRules)
         == Run(MethodsOf(Inline(rules, stack)[..d], service.successRules), outcomes, Undecided).ran
    ensures Grants(Inline(rules, stack), outcomes) ==>
              Run(Inline(rules, stack), outcomes, Undecided) == Run(Inline(rules, stack)[..d], outcomes, Undecided)
  {
    var before, deny, after := InlineShape(rules, service, options, stack, d, outcomes);
    InlineDecides(before, deny, after, service.successRules, outcomes);
    assert SomeSucceeds(MethodsOf(before, service.successRules), outcomes) <==>
           MethodSucceeds(rules, service, outcomes) by {
      InlineMethods(rules, service, stack, d);
      MethodsSucceed(MethodsOf(before, service.successRules), rules, service, outcomes);
    }
  }

  // ---- The generated service ----

  /** A rule that no list names, and that is neither the deny nor one of the two new stages. */
  predicate IsUnlisted(service: MasterKeyService, name: string) {
    && name !in service.successRules && name !in service.postAuthRules
    && name != service.denyAnchorRule && name != DECIDE && name != MASTER_KEY
  }

  /** What the rewriting makes of one rule. */
  ghost predicate Rewritten(rules: Rules, service: MasterKeyService, options: MasterKeyOptions, out: Rules,
                            name: string)
  {
    && (Listed(rules, service, name) <==> Listed(out, service, name))
    && (Listed(out, service, name) ==> out[name].step == rules[name].step && out[name].order == rules[name].order)
    && (name in service.successRules && name in out ==> out[name].step.Module?)
    && (name in out && Enabled(out[name]) && name != DECIDE ==>
          name !in service.successRules && name != service.denyAnchorRule && out[name].step.Module?
          && (out[name].step.control.Optional? || out[name].step.module_ == options.module_))
    && (name in service.postAuthRules ==>
          name in out && MASTER_KEY in out
              && out[name].order == out[MASTER_KEY].order + 1 + IndexOf(Unique(service.postAuthRules), name)
          && (Enabled(out[name]) <==> name in rules && rules[name].enable == Some(true)))
  }

  /** Methods and deny disabled, keyring rules behind the master-key stage, the decision before it. */
  ghost predicate Rewrites(rules: Rules, service: MasterKeyService, options: MasterKeyOptions, out: Rules) {
    && DECIDE in out && MASTER_KEY in out && Enabled(out[DECIDE]) && Enabled(out[MASTER_KEY])
    && out[DECIDE].step.Decision? && out[DECIDE].order < out[MASTER_KEY].order
    && forall name :: Rewritten(rules, service, options, out, name)
  }

  /**
   The rewritten rules, name by name, for any service whose lists and deny have nothing in common: methods and deny are
   switched off and otherwise stay, keyring rules keep their step and their switch and get the places behind the
   master-key stage, the two new stages stand forty and thirty before the deny, and every other rule stays as it was.
   */
  ghost predicate IsRewriting(rules: Rules, service: MasterKeyService, options: MasterKeyOptions, out: Rules) {
    var anchor := if service.denyAnchorRule in rules then rules[service.denyAnchorRule].order
                  else options.fallbackDenyOrder;
    && DECIDE in out && out[DECIDE] == Rule(Decision, None, anchor - 40)
    && MASTER_KEY in out && out[MASTER_KEY] == Rule(Module(options.control, options.module_), None, anchor - 30)
    && forall name | name != DECIDE && name != MASTER_KEY :: IsRewritten(rules, service, out, anchor, name)
  }

  ghost predicate IsRewritten(rules: Rules, service: MasterKeyService, out: Rules, anchor: int, name: string) {
    && (name in out <==> name in rules || name in service.postAuthRules)
    && (name in rules && IsUnlisted(service, name) ==> out[name] == rules[name])
    && (name in rules && (name in service.successRules || name == service.denyAnchorRule) ==>
          out[name] == rules[name].(enable := Some(false)))
    && (name in service.postAuthRules ==>
          var place := anchor - 29 + IndexOf(Unique(service.postAuthRules), name);
          out[name] == if name in rules then Rule(rules[name].step, Some(rules[name].enable == Some(true)), place)
                       else Rule(Module(Optional, Invocation("pam_deny.so", [])), Some(false), place))
  }

  /** The lists, the deny and the two new stages name different rules. */
  ghost predicate ListsAreApart(service: MasterKeyService) {
    && (forall name | name in service.successRules :: name !in service.postAuthRules)
    && service.denyAnchorRule !in service.successRules && service.denyAnchorRule !in service.postAuthRules
    && forall name | name in service.successRules || name in service.postAuthRules || name == service.denyAnchorRule ::
         name != DECIDE && name != MASTER_KEY
  }

  lemma GeneratedEntry(rules: Rules, service: MasterKeyService, options: MasterKeyOptions, name: string)
    requires ListsAreApart(service) && name != DECIDE && name != MASTER_KEY
    ensures IsRewritten(rules, service, Generated(rules, service, options), DenyAnchorOrder(rules, service, options),
                        name)
  {
    GeneratedIsOverridden(rules, service, options, name);
  }

  lemma GeneratedIsOverridden(rules: Rules, service: MasterKeyService, options: MasterKeyOptions, name: string)
    requires name != DECIDE && name != MASTER_KEY
    ensures var out := Generated(rules, service, options);
            && (name in out <==> name in rules || name in service.postAuthRules)
            && (name in out ==> out[name] == Overridden(rules, service, DenyAnchorOrder(rules, service, options), name))
  {
  }

  lemma GeneratedIsRewriting(rules: Rules, service: MasterKeyService, options: MasterKeyOptions)
    requires ListsAreApart(service)
    ensures IsRewriting(rules, service, options, Generated(rules, service, options))
  {
    forall name | name != DECIDE && name != MASTER_KEY
      ensures IsRewritten(rules, service, Generated(rules, service, options), DenyAnchorOrder(rules, service, options),
                          name)
    {
      GeneratedEntry(rules, service, options, name);
    }
  }

  lemma UnlistedStays(rules: Rules, service: MasterKeyService, options: MasterKeyOptions, name: string)
    requires Supported(rules, service) && name in rules && IsUnlisted(service, name)
    ensures var out := Generated(rules, service, options); name in out && out[name] == rules[name]
  {
    assert ListsAreApart(service);
    GeneratedEntry(rules, service, options, name);
  }

  /** Every enabled rule outside the lists is rendered as it was. */
  lemma UnlistedRulesAreRendered(rules: Rules, service: MasterKeyService, options: MasterKeyOptions, stack: seq<string>,
                                 name: string)
    requires Supported(rules, service) && Renders(Generated(rules, service, options), stack)
    requires name in rules && Enabled(rules[name]) && IsUnlisted(service, name)
    ensures name in stack && LineOf(name, rules[name], []) in GeneratedLayout(rules, service, options, stack)
  {
    UnlistedStays(rules, service, options, name);
    var i :| 0 <= i < |stack| && stack[i] == name;
    var line := GeneratedLayout(rules, service, options, stack)[i];
    assert line == LineOf(name, rules[name], GeneratedDecision(rules, service, options));
  }

  /** And it runs, whatever the modules do. */
  lemma UnlistedRulesRun(rules: Rules, service: MasterKeyService, options: MasterKeyOptions, stack: seq<string>,
                         name: string, outcomes: Invocation -> Outcome)
    requires Supported(rules, service) && PamWorld(options, outcomes)
    requires Renders(Generated(rules, service, options), stack)
    requires name in rules && Enabled(rules[name]) && IsUnlisted(service, name)
    ensures name in Run(GeneratedLayout(rules, service, options, stack), outcomes, Undecided).ran
  {
    UnlistedRulesAreRendered(rules, service, options, stack, name);
    var d, m := StagesAreRendered(rules, service, options, stack);
    StagesRunInOrder(rules, service, options, stack, d, m, outcomes);
    OthersAreAround(stack, d, name, Run(GeneratedDecision(rules, service, options), outcomes, Undecided).ran);
  }

  lemma OthersAreAround(stack: seq<string>, d: nat, name: string, middle: seq<string>)
    requires d < |stack| && name in stack && stack[d] != name
    ensures name in stack[..d] + (middle + stack[d + 1..])
  {
    var i :| 0 <= i < |stack| && stack[i] == name;
    assert if i < d then stack[..d][i] == name else stack[d + 1..][i - d - 1] == name;
  }

  lemma StagesAreRendered(rules: Rules, service: MasterKeyService, options: MasterKeyOptions, stack: seq<string>)
    returns (d: nat, m: nat)
    requires Renders(Generated(rules, service, options), stack)
    ensures d < |stack| && stack[d] == DECIDE && m < |stack| && stack[m] == MASTER_KEY
  {
    var out := Generated(rules, service, options);
    assert DECIDE in out && Enabled(out[DECIDE]) && MASTER_KEY in out && Enabled(out[MASTER_KEY]);
    d :| 0 <= d < |stack| && stack[d] == DECIDE;
    m :| 0 <= m < |stack| && stack[m] == MASTER_KEY;
  }

  lemma GeneratedRule(rules: Rules, service: MasterKeyService, options: MasterKeyOptions, name: string)
    requires Supported(rules, service)
    ensures Rewritten(rules, service, options, Generated(rules, service, options), name)
  {
    if name !in service.postAuthRules && name in rules
        && (name in service.successRules || name == service.denyAnchorRule) {
      assert !Enabled(Generated(rules, service, options)[name]);
    }
  }

  lemma GeneratedRewrites(rules: Rules, service: MasterKeyService, options: MasterKeyOptions)
    requires Supported(rules, service)
    ensures Rewrites(rules, service, options, Generated(rules, service, options))
  {
    forall name
      ensures Rewritten(rules, service, options, Generated(rules, service, options), name)
    {
      GeneratedRule(rules, service, options, name);
    }
  }

  lemma ListedIsCopied(rules: Rules, service: MasterKeyService, options: MasterKeyOptions, out: Rules, name: string)
    requires Rewrites(rules, service, options, out) && Listed(rules, service, name)
    requires forall name | name in service.successRules && name in out :: out[name].step.Module?
    ensures MethodLine(rules, name) in MethodLines(out, PresentSuccessRules(out, service))
  {
    var names := PresentSuccessRules(out, service);
    assert Rewritten(rules, service, options, out, name);
    assert name in names;
    var i :| 0 <= i < |names| && names[i] == name;
    assert MethodLines(out, names)[i] == MethodLine(rules, name);
  }

  lemma DecisionMethods(rules: Rules, service: MasterKeyService, options: MasterKeyOptions, out: Rules)
    requires Rewrites(rules, service, options, out)
    requires forall name | name in service.successRules && name in out :: out[name].step.Module?
    ensures AreTheMethods(MethodLines(out, PresentSuccessRules(out, service)), rules, service, false)
    ensures forall line | line in MethodLines(out, PresentSuccessRules(out, service)) ::
              IsMethod(line, service.successRules)
  {
    var names := PresentSuccessRules(out, service);
    var methods := MethodLines(out, names);
    forall name | Listed(rules, service, name)
      ensures MethodLine(rules, name) in methods
    {
      ListedIsCopied(rules, service, options, out, name);
    }
    forall line | line in methods
      ensures line.Call? && Listed(rules, service, line.name) && line == MethodLine(rules, line.name)
    {
      var i :| 0 <= i < |methods| && methods[i] == line;
      assert names[i] in names;
      assert Rewritten(rules, service, options, out, names[i]);
    }
  }

  lemma LayoutLine(rules: Rules, service: MasterKeyService, options: MasterKeyOptions, out: Rules, stack: seq<string>,
                   i: nat, decision: seq<Line>, outcomes: Invocation -> Outcome)
    requires Rewrites(rules, service, options, out) && Renders(out, stack) && PamWorld(options, outcomes)
    requires i < |stack| && stack[i] != DECIDE
    ensures IsBystander(Lines(out, stack, decision)[i], service.successRules, outcomes)
    ensures Lines(out, stack, decision)[i].name == stack[i]
  {
    assert Rewritten(rules, service, options, out, stack[i]);
  }

  lemma Around(lines: seq<Line>, stack: seq<string>, d: nat, listed: seq<string>, outcomes: Invocation -> Outcome)
    requires d < |lines| == |stack|
    requires forall i | 0 <= i < |lines| && i != d ::
               IsBystander(lines[i], listed, outcomes) && lines[i].name == stack[i]
    ensures lines == lines[..d] + ([lines[d]] + lines[d + 1..])
    ensures forall line | line in lines[..d] :: IsBystander(line, listed, outcomes)
    ensures forall line | line in lines[d + 1..] :: IsBystander(line, listed, outcomes)
    ensures Names(lines[..d]) == stack[..d] && Names(lines[d + 1..]) == stack[d + 1..]
  {
  }

  /** Beside the decision, the generated parent holds only rules that cannot decide anything. */
  lemma LayoutShape(rules: Rules, service: MasterKeyService, options: MasterKeyOptions, out: Rules, stack: seq<string>,
                    d: nat, decision: seq<Line>, outcomes: Invocation -> Outcome)
    requires Rewrites(rules, service, options, out) && Renders(out, stack) && PamWorld(options, outcomes)
    requires d < |stack| && stack[d] == DECIDE
    ensures var lines := Lines(out, stack, decision);
            && lines == lines[..d] + ([Substack(DECIDE, decision)] + lines[d + 1..])
            && (forall line | line in lines[..d] :: IsBystander(line, service.successRules, outcomes))
            && (forall line | line in lines[d + 1..] :: IsBystander(line, service.successRules, outcomes))
            && Names(lines[..d]) == stack[..d] && Names(lines[d + 1..]) == stack[d + 1..]
  {
    var lines := Lines(out, stack, decision);
    forall i | 0 <= i < |lines| && i != d
      ensures IsBystander(lines[i], service.successRules, outcomes) && lines[i].name == stack[i]
    {
      assert stack[i] != stack[d];
      LayoutLine(rules, service, options, out, stack, i, decision, outcomes);
    }
    assert lines[d] == Substack(DECIDE, decision);
    Around(lines, stack, d, service.successRules, outcomes);
  }

  /** The generated layout grants exactly when a copied method succeeds. Whatever is decided, every stage runs. */
  lemma LayoutGrants(rules: Rules, service: MasterKeyService, options: MasterKeyOptions, out: Rules, stack: seq<string>,
                     d: nat, outcomes: Invocation -> Outcome)
    requires Rewrites(rules, service, options, out) && Renders(out, stack) && PamWorld(options, outcomes)
    requires service.denyAnchorRule !in service.successRules
    requires d < |stack| && stack[d] == DECIDE
    requires forall name | name in service.successRules && name in out :: out[name].step.Module?
    ensures var end := Run(Layout(out, service, stack), outcomes, Undecided);
            && (end.verdict.Positive? <==> CopySucceeds(rules, service, outcomes))
            && end.ran == stack[..d] + (Run(DecisionLines(out, service), outcomes, Undecided).ran + stack[d + 1..])
            && Tried(end.ran, service.successRules)
               == Run(MethodLines(out, PresentSuccessRules(out, service)), outcomes, Undecided).ran
  {
    var methods := MethodLines(out, PresentSuccessRules(out, service));
    var deny := Call(service.denyAnchorRule, Requisite, Invocation(PAM_DENY, []));
    assert DecisionLines(out, service) == methods + [deny];
    var lines := Lines(out, stack, methods + [deny]);
    LayoutShape(rules, service, options, out, stack, d, methods + [deny], outcomes);
    DecisionMethods(rules, service, options, out);
    assert outcomes(deny.module_).Failure?;
    GeneratedDecides(lines[..d], DECIDE, methods, deny, lines[d + 1..], service.successRules, outcomes);
    MethodsSucceed(methods, rules, service, outcomes);
  }

  // ---- What the rewriting promises ----

  ghost function GeneratedDecision(rules: Rules, service: MasterKeyService, options: MasterKeyOptions): seq<Line>
    requires Supported(rules, service)
  {
    GeneratedRewrites(rules, service, options);
    var out := Generated(rules, service, options);
    assert forall name | name in service.successRules && name in out :: Rewritten(rules, service, options, out, name);
    DecisionLines(out, service)
  }

  ghost function GeneratedLayout(rules: Rules, service: MasterKeyService, options: MasterKeyOptions, stack: seq<string>)
    : seq<Line>
    requires Supported(rules, service) && Renders(Generated(rules, service, options), stack)
  {
    Lines(Generated(rules, service, options), stack, GeneratedDecision(rules, service, options))
  }

  /** Both stacks, for one behaviour of the modules. */
  lemma BothGrant(rules: Rules, service: MasterKeyService, options: MasterKeyOptions, before: seq<string>,
                  after: seq<string>, outcomes: Invocation -> Outcome)
    requires Supported(rules, service) && PamWorld(options, outcomes)
    requires Renders(rules, before) && Renders(Generated(rules, service, options), after)
    ensures Grants(Inline(rules, before), outcomes) <==> MethodSucceeds(rules, service, outcomes)
    ensures Grants(GeneratedLayout(rules, service, options, after), outcomes) <==>
              CopySucceeds(rules, service, outcomes)
  {
    GeneratedRewrites(rules, service, options);
    var out := Generated(rules, service, options);
    var d :| 0 <= d < |before| && before[d] == service.denyAnchorRule;
    InlineGrants(rules, service, options, before, d, outcomes);
    var e :| 0 <= e < |after| && after[e] == DECIDE;
    assert forall name | name in service.successRules && name in out :: Rewritten(rules, service, options, out, name);
    LayoutGrants(rules, service, options, out, after, e, outcomes);
  }

  /** The module a listed rule runs can succeed only where an enabled listed rule runs it too. */
  ghost predicate IsStray(rules: Rules, service: MasterKeyService, options: MasterKeyOptions, name: string) {
    && Listed(rules, service, name)
    && rules[name].step.module_.path != PAM_DENY && rules[name].step.module_ != options.module_
    && forall other | Listed(rules, service, other) && Enabled(rules[other]) ::
         rules[other].step.module_ != rules[name].step.module_
  }

  /**
   The generated layout grants exactly when the inline stack does, whatever the modules do, if and only if
   no listed rule is a method that was switched off: such a rule is copied into the decision all the same.
   */
  lemma DecisionIsKept(rules: Rules, service: MasterKeyService, options: MasterKeyOptions, before: seq<string>,
                       after: seq<string>)
    requires Supported(rules, service) && options.module_.path != PAM_DENY
    requires Renders(rules, before) && Renders(Generated(rules, service, options), after)
    ensures (forall outcomes: Invocation -> Outcome | PamWorld(options, outcomes) ::
               Grants(Inline(rules, before), outcomes)
                   == Grants(GeneratedLayout(rules, service, options, after), outcomes))
            <==> forall name :: !IsStray(rules, service, options, name)
  {
    if name :| IsStray(rules, service, options, name) {
      var outcomes := StrayCanSucceed(rules, service, options, name);
      BothGrant(rules, service, options, before, after, outcomes);
    } else {
      forall outcomes: Invocation -> Outcome | PamWorld(options, outcomes)
        ensures Grants(Inline(rules, before), outcomes)
                == Grants(GeneratedLayout(rules, service, options, after), outcomes)
      {
        BothGrant(rules, service, options, before, after, outcomes);
        CopiesAddNothing(rules, service, options, outcomes);
      }
    }
  }

  lemma StrayCanSucceed(rules: Rules, service: MasterKeyService, options: MasterKeyOptions, name: string)
    returns (outcomes: Invocation -> Outcome)
    requires IsStray(rules, service, options, name) && options.module_.path != PAM_DENY
    ensures PamWorld(options, outcomes) && CopySucceeds(rules, service, outcomes)
            && !MethodSucceeds(rules, service, outcomes)
  {
    var module_ := rules[name].step.module_;
    outcomes := (other: Invocation) => if other == module_ then Success else if other == options.module_
        then Ignore else Failure;
  }

  /** A service that lists `ldap` while LDAP is switched off: the rewriting lets LDAP log users in again. */
  lemma ListedButSwitchedOff(options: MasterKeyOptions) returns (rules: Rules, service: MasterKeyService)
    requires options.module_ == Invocation("libpinpam_master_key.so", [])
    ensures Supported(rules, service) && IsStray(rules, service, options, "ldap")
  {
    service := MasterKeyService("deny", ["pinpam", "ldap"], ["kwallet"]);
    rules := map[
      "pinpam" := Rule(Module(Sufficient, Invocation("libpinpam.so", [])), None, 11050),
      "ldap" := Rule(Module(Sufficient, Invocation("pam_ldap.so", [])), Some(false), 11200),
      "kwallet" := Rule(Module(Optional, Invocation("pam_kwallet5.so", [])), Some(true), 12000),
      "deny" := Rule(Module(Required, Invocation(PAM_DENY, [])), None, 13700)];
    assert DECIDE[6] == 'M' && MASTER_KEY[6] == 'M';
    assert |DECIDE| == 21 && |MASTER_KEY| == 15;
    assert "libpinpam.so"[3] != "pam_ldap.so"[3] && "pam_ldap.so"[4] != PAM_DENY[4];
    assert |"pam_ldap.so"| != |"libpinpam_master_key.so"|;
    assert forall name | name in service.successRules :: name == "pinpam" || name == "ldap";
    assert forall name | name in service.postAuthRules :: name == "kwallet";
    assert "kwallet"[0] != "pinpam"[0] && "kwallet"[0] != "ldap"[0] && "deny"[0] != "pinpam"[0]
           && "ldap"[0] != "deny"[0];
  }

  lemma CopiesAddNothing(rules: Rules, service: MasterKeyService, options: MasterKeyOptions,
                         outcomes: Invocation -> Outcome)
    requires PamWorld(options, outcomes) && forall name :: !IsStray(rules, service, options, name)
    ensures MethodSucceeds(rules, service, outcomes) <==> CopySucceeds(rules, service, outcomes)
  {
    if CopySucceeds(rules, service, outcomes) {
      var name :|
        name in service.successRules && Listed(rules, service, name) && outcomes(rules[name].step.module_).Success?;
      assert !IsStray(rules, service, options, name);
    }
  }

  /** Within the inline stack, a success skips every rule behind the deny: the keyrings there never see it. */
  lemma InlineSkipsKeyrings(rules: Rules, service: MasterKeyService, options: MasterKeyOptions, stack: seq<string>,
                            d: nat, k: nat, outcomes: Invocation -> Outcome)
    requires Supported(rules, service) && Renders(rules, stack) && PamWorld(options, outcomes)
    requires d < k < |stack| && stack[d] == service.denyAnchorRule
    requires Grants(Inline(rules, stack), outcomes)
    ensures stack[k] !in Run(Inline(rules, stack), outcomes, Undecided).ran
  {
    InlineGrants(rules, service, options, stack, d, outcomes);
    var before, _, _ := InlineShape(rules, service, options, stack, d, outcomes);
    assert forall i | 0 <= i < d :: before[i].name == stack[i] != stack[k];
    OnlyCallsRun(before, outcomes, Undecided, stack[k]);
  }

  lemma {:induction false} OnlyCallsRun(lines: seq<Line>, outcomes: Invocation -> Outcome, verdict: Verdict,
                                        name: string)
    requires forall i | 0 <= i < |lines| :: lines[i].Call? && lines[i].name != name
    ensures name !in Run(lines, outcomes, verdict).ran
  {
    if lines != [] {
      OnlyCallsRun(lines[1..], outcomes, RunLine(lines[0], outcomes, verdict).verdict, name);
    }
  }

  /**
   Every run of the generated layout: the decision, then the master-key stage, then each keyring rule that was switched
   on, in the listed order.
   */
  lemma StagesRunInOrder(rules: Rules, service: MasterKeyService, options: MasterKeyOptions, stack: seq<string>, d: nat,
                         m: nat, outcomes: Invocation -> Outcome)
    requires Supported(rules, service) && PamWorld(options, outcomes)
    requires Renders(Generated(rules, service, options), stack)
    requires d < |stack| && stack[d] == DECIDE && m < |stack| && stack[m] == MASTER_KEY
    ensures d < m
    ensures Run(GeneratedLayout(rules, service, options, stack), outcomes, Undecided).ran
         == stack[..d] + (Run(GeneratedDecision(rules, service, options), outcomes, Undecided).ran + stack[d + 1..])
    ensures forall name | name in service.postAuthRules ::
              (name in stack <==> name in rules && rules[name].enable == Some(true)) && name !in stack[..m]
  {
    var out := Generated(rules, service, options);
    GeneratedRewrites(rules, service, options);
    assert forall name | name in service.successRules && name in out :: Rewritten(rules, service, options, out, name);
    LayoutGrants(rules, service, options, out, stack, d, outcomes);
    assert out[stack[d]].order < out[stack[m]].order;
    forall name | name in service.postAuthRules
      ensures name in stack <==> name in rules && rules[name].enable == Some(true)
      ensures name !in stack[..m]
    {
      assert Rewritten(rules, service, options, out, name);
      assert forall i | 0 <= i < m :: out[stack[i]].order <= out[stack[m]].order < out[name].order;
    }
  }

  /** The keyring rules run in the order in which they are listed. */
  lemma KeyringsRunAsListed(rules: Rules, service: MasterKeyService, options: MasterKeyOptions, out: Rules,
                            stack: seq<string>, i: nat, j: nat)
    requires Rewrites(rules, service, options, out) && Renders(out, stack)
    requires i < j < |stack| && stack[i] in service.postAuthRules && stack[j] in service.postAuthRules
    ensures IndexOf(service.postAuthRules, stack[i]) < IndexOf(service.postAuthRules, stack[j])
  {
    assert Rewritten(rules, service, options, out, stack[i]);
    assert Rewritten(rules, service, options, out, stack[j]);
    assert stack[i] != stack[j] && out[stack[i]].order <= out[stack[j]].order;
    var unique := Unique(service.postAuthRules);
    UniqueKeepsOrder(service.postAuthRules);
    assert unique[IndexOf(unique, stack[i])] == stack[i] && unique[IndexOf(unique, stack[j])] == stack[j];
  }

  // ---- The same methods, in the same order ----

  function OrderOf(rules: Rules, line: Line): int {
    if line.name in rules then rules[line.name].order else 0
  }

  /** Strictly ascending, so that no two methods could change places. */
  predicate Ascending(lines: seq<Line>, rules: Rules) {
    forall i, j | 0 <= i < j < |lines| :: OrderOf(rules, lines[i]) < OrderOf(rules, lines[j])
  }

  ghost predicate OrdersAreDistinct(rules: Rules, service: MasterKeyService) {
    forall a, b | Listed(rules, service, a) && Listed(rules, service, b) && a != b :: rules[a].order != rules[b].order
  }

  lemma FirstIsLeast(left: seq<Line>, right: seq<Line>, rules: Rules)
    requires Ascending(left, rules) && Ascending(right, rules) && left != [] && right != []
    requires left[0] in right && right[0] in left
    ensures left[0] == right[0]
  {
    var i :| 0 <= i < |right| && right[i] == left[0];
    var j :| 0 <= j < |left| && left[j] == right[0];
    assert OrderOf(rules, right[0]) <= OrderOf(rules, right[i]);
    assert OrderOf(rules, left[0]) <= OrderOf(rules, left[j]);
  }

  lemma RestHasTheOthers(lines: seq<Line>, rules: Rules, line: Line)
    requires Ascending(lines, rules) && lines != []
    ensures line in lines[1..] <==> line in lines && line != lines[0]
  {
    assert lines == [lines[0]] + lines[1..];
  }

  lemma {:induction false} AscendingIsUnique(left: seq<Line>, right: seq<Line>, rules: Rules)
    requires Ascending(left, rules) && Ascending(right, rules)
    requires forall line :: line in left <==> line in right
    ensures left == right
  {
    assert left != [] ==> left[0] in right;
    assert right != [] ==> right[0] in left;
    if left != [] {
      FirstIsLeast(left, right, rules);
      forall line
        ensures line in left[1..] <==> line in right[1..]
      {
        RestHasTheOthers(left, rules, line);
        RestHasTheOthers(right, rules, line);
      }
      AscendingIsUnique(left[1..], right[1..], rules);
      assert left == [left[0]] + left[1..] && right == [right[0]] + right[1..];
    }
  }

  lemma {:induction false} MethodsStayAscending(lines: seq<Line>, listed: seq<string>, rules: Rules)
    requires forall i, j | 0 <= i < j < |lines| && lines[i].name in listed && lines[j].name in listed ::
               OrderOf(rules, lines[i]) < OrderOf(rules, lines[j])
    ensures Ascending(MethodsOf(lines, listed), rules)
  {
    if lines != [] {
      var methods := MethodsOf(lines[1..], listed);
      MethodsStayAscending(lines[1..], listed, rules);
      if lines[0].name in listed {
        assert MethodsOf(lines, listed) == [lines[0]] + methods;
        forall j | 0 <= j < |methods|
          ensures OrderOf(rules, lines[0]) < OrderOf(rules, methods[j])
        {
          assert methods[j] in lines[1..];
          var k :| 0 < k < |lines| && lines[k] == methods[j];
        }
      }
    }
  }

  lemma CopiesAscend(rules: Rules, service: MasterKeyService, options: MasterKeyOptions, out: Rules)
    requires Rewrites(rules, service, options, out) && OrdersAreDistinct(rules, service)
    requires forall name | name in service.successRules && name in out :: out[name].step.Module?
    ensures Ascending(MethodLines(out, PresentSuccessRules(out, service)), rules)
  {
    var kept := KeepNamed(Unique(service.successRules), out);
    var names := SortByOrder(out, kept);
    SortSorts(out, kept);
    assert multiset(names) == multiset(kept);
    DistinctIsKept(kept, names);
    forall i, j | 0 <= i < j < |names|
      ensures names[i] in rules && names[j] in rules && rules[names[i]].order < rules[names[j]].order
    {
      assert names[i] in names && names[j] in names;
      assert Rewritten(rules, service, options, out, names[i]);
      assert Rewritten(rules, service, options, out, names[j]);
      assert out[names[i]].order <= out[names[j]].order;
    }
  }

  lemma {:induction false} CountInDistinct(names: seq<string>, name: string)
    requires forall i, j | 0 <= i < j < |names| :: names[i] != names[j]
    ensures multiset(names)[name] <= 1
  {
    if names != [] {
      CountInDistinct(names[1..], name);
      assert names == [names[0]] + names[1..];
      if name == names[0] {
        assert name !in names[1..];
        assert name !in multiset(names[1..]);
      }
    }
  }

  lemma DistinctIsKept(names: seq<string>, permuted: seq<string>)
    requires forall i, j | 0 <= i < j < |names| :: names[i] != names[j]
    requires multiset(permuted) == multiset(names)
    ensures forall i, j | 0 <= i < j < |permuted| :: permuted[i] != permuted[j]
  {
    forall i, j | 0 <= i < j < |permuted|
      ensures permuted[i] != permuted[j]
    {
      CountInDistinct(names, permuted[i]);
      assert permuted == permuted[..j] + [permuted[j]] + permuted[j + 1..];
      assert multiset(permuted) == multiset(permuted[..j]) + multiset{permuted[j]} + multiset(permuted[j + 1..]);
      assert permuted[..j][i] == permuted[i];
      assert multiset(permuted[..j])[permuted[i]] >= 1;
    }
  }

  /**
   With every listed rule enabled and no two at the same order, the generated layout tries the very methods
   the inline stack tries, in the same order, and stops at the same one.
   */
  lemma SameMethodsAreTried(rules: Rules, service: MasterKeyService, options: MasterKeyOptions, before: seq<string>,
                            after: seq<string>, outcomes: Invocation -> Outcome)
    requires Supported(rules, service) && PamWorld(options, outcomes) && OrdersAreDistinct(rules, service)
    requires forall name | Listed(rules, service, name) :: Enabled(rules[name])
    requires Renders(rules, before) && Renders(Generated(rules, service, options), after)
    ensures Tried(Run(Inline(rules, before), outcomes, Undecided).ran, service.successRules)
         == Tried(Run(GeneratedLayout(rules, service, options, after), outcomes, Undecided).ran, service.successRules)
  {
    GeneratedRewrites(rules, service, options);
    var listed, out := service.successRules, Generated(rules, service, options);
    var d :| 0 <= d < |before| && before[d] == service.denyAnchorRule;
    InlineGrants(rules, service, options, before, d, outcomes);
    var e :| 0 <= e < |after| && after[e] == DECIDE;
    assert forall name | name in listed && name in out :: Rewritten(rules, service, options, out, name);
    LayoutGrants(rules, service, options, out, after, e, outcomes);
    var inline, copied := MethodsOf(Inline(rules, before)[..d], listed),
        MethodLines(out, PresentSuccessRules(out, service));
    InlineMethodsAscend(rules, service, before, d);
    CopiesAscend(rules, service, options, out);
    InlineMethods(rules, service, before, d);
    DecisionMethods(rules, service, options, out);
    AscendingIsUnique(inline, copied, rules);
  }

  lemma InlineMethodsAscend(rules: Rules, service: MasterKeyService, stack: seq<string>, d: nat)
    requires Supported(rules, service) && Renders(rules, stack) && OrdersAreDistinct(rules, service)
    requires d < |stack|
    ensures Ascending(MethodsOf(Inline(rules, stack)[..d], service.successRules), rules)
  {
    var lines := Inline(rules, stack)[..d];
    forall i, j | 0 <= i < j < |lines| && lines[i].name in service.successRules && lines[j].name in service.successRules
      ensures OrderOf(rules, lines[i]) < OrderOf(rules, lines[j])
    {
      assert lines[i].name == stack[i] && lines[j].name == stack[j];
      assert stack[i] != stack[j] && rules[stack[i]].order <= rules[stack[j]].order;
      assert Listed(rules, service, stack[i]) && Listed(rules, service, stack[j]);
    }
    MethodsStayAscending(lines, service.successRules, rules);
  }
}