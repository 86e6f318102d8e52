/**
 The part of a TPM 2.0 that pinpam relies on: NV indexes of type PinFail and ordinary
 NV indexes, driven one atomic command at a time.

 Rules taken from the TPM 2.0 Library, revision 01.38: Part 1 (PIN Fail indexes), section 13.3 of Part 2
 (TPMS_NV_PIN_COUNTER_PARAMETERS), and sections 23.20, 31.3, 31.4, 31.7 and 31.13 of Part 3.
 */
module Tpm {
  import opened PinCodec
  import opened PinErrors
  import opened Text

  datatype Entry =
    | PinFail(auth: string, ownerWrite: bool, written: bool, count: u32, limit: u32)
    | Ordinary(written: bool, data: seq<u8>)

  type Store = map<nat, Entry>

  /** An authorization value may not be longer than the SHA-256 name algorithm's digest. */
  const MAX_AUTH_LEN := 32

  datatype Command =
    | Session                                                  // sessions and reconnection: no NV effect
    | ReadPublic(index: nat)
    | DefinePin(index: nat, auth: string, ownerWrite: bool)
    | DefineOrdinary(index: nat, size: nat)
    | Undefine(index: nat)
    | WriteUnwritten(index: nat, payload: Payload)             // under PolicyNvWritten(false)
    | WriteOwner(index: nat, payload: Payload)
    | ReadOwner(index: nat)
    | ReadAuth(index: nat, auth: string)

  datatype Reply = Answer(payload: Payload) | Fail(kind: Kind)

  const DONE := Answer(Raw([]))

  function DataOf(entry: Entry): Payload {
    if entry.PinFail? then Counters(entry.count, entry.limit) else Raw(entry.data)
  }

  /** A new ordinary index reads as all ones once something has been written to it. */
  function Blank(size: nat): seq<u8> {
    seq(size, _ => 255)
  }

  /** The command compares an authorization value with a counter that still has attempts left. */
  predicate Compares(nv: Store, c: Command) {
    c.ReadAuth? && c.index in nv && nv[c.index].PinFail? && nv[c.index].written
    && nv[c.index].count < nv[c.index].limit
  }

  predicate Accepts(nv: Store, c: Command) {
    Compares(nv, c) && c.auth == nv[c.index].auth
  }

  predicate Rejects(nv: Store, c: Command) {
    Compares(nv, c) && c.auth != nv[c.index].auth
  }

  /** The write replaces the two counters of a PinFail index. */
  predicate WritesCounters(nv: Store, c: Command) {
    && (c.WriteUnwritten? || c.WriteOwner?)
    && c.payload.Counters? && c.index in nv && nv[c.index].PinFail?
    && (if c.WriteUnwritten? then !nv[c.index].written else nv[c.index].ownerWrite)
  }

  predicate WritesData(nv: Store, c: Command) {
    c.WriteOwner? && c.payload.Raw? && c.index in nv && nv[c.index].Ordinary?
    && |c.payload.bytes| <= |nv[c.index].data|
  }

  /** The store after a command the TPM has executed. */
  function After(nv: Store, c: Command): Store {
    match c
    case DefinePin(i, auth, ownerWrite) =>
      if i !in nv && ByteLen(auth) <= MAX_AUTH_LEN then nv[i := PinFail(auth, ownerWrite, false, 0, 0)] else nv
    case DefineOrdinary(i, size) =>
      if i !in nv then nv[i := Ordinary(false, Blank(size))] else nv
    case Undefine(i) =>
      nv - {i}
    case WriteUnwritten(i, p) =>
      if WritesCounters(nv, c) then nv[i := nv[i].(written := true, count := p.count, limit := p.limit)] else nv
    case WriteOwner(i, p) =>
      if WritesCounters(nv, c) then nv[i := nv[i].(written := true, count := p.count, limit := p.limit)]
      else if WritesData(nv, c) then nv[i := Ordinary(true, p.bytes + nv[i].data[|p.bytes|..])]
      else nv
    case ReadAuth(i, auth) =>
      if Accepts(nv, c) then nv[i := nv[i].(count := 0)]
      else if Rejects(nv, c) then nv[i := nv[i].(count := nv[i].count + 1)]
      else nv
    case Session => nv
    case ReadPublic(_) => nv
    case ReadOwner(_) => nv
  }

  /**
   What the TPM answers. `refusal` is the code it gives for an authorization value it will not
   look at because the counter is spent: real TPMs and simulators differ there.
   */
  function ReplyTo(nv: Store, c: Command, refusal: Kind): Reply {
    match c
    case Session => DONE
    case ReadPublic(i) => if i in nv then DONE else Fail(Handle)
    case DefinePin(i, auth, _) => if i !in nv && ByteLen(auth) <= MAX_AUTH_LEN then DONE else Fail(OtherRc)
    case DefineOrdinary(i, _) => if i !in nv then DONE else Fail(OtherRc)
    case Undefine(i) => if i in nv then DONE else Fail(Handle)
    case WriteUnwritten(i, _) =>
      if WritesCounters(nv, c) then DONE else Fail(if i in nv then OtherRc else Handle)
    case WriteOwner(i, _) =>
      if WritesCounters(nv, c) || WritesData(nv, c) then DONE else Fail(if i in nv then OtherRc else Handle)
    case ReadOwner(i) =>
      if i !in nv then Fail(Handle)
      else if !nv[i].written then Fail(NvUninitialized)
      else Answer(DataOf(nv[i]))
    case ReadAuth(i, auth) =>
      if i !in nv then Fail(Handle)
      else if nv[i].Ordinary? then Fail(OtherRc)
      else if !nv[i].written then Fail(NvUninitialized)
      else if Accepts(nv, c) then Answer(Counters(0, nv[i].limit))
      else if Rejects(nv, c) then Fail(BadAuth)
      else Fail(refusal)
  }

  // ---- Histories ----

  /** One command the TPM executed, sent by the process under study or by any other. */
  datatype Step = Step(mine: bool, command: Command)

  /** The store a TPM that started empty holds after a history. */
  function Replay(h: seq<Step>): Store {
    if h == [] then map[] else After(Replay(h[..|h| - 1]), h[|h| - 1].command)
  }

  /** The store just before step j. */
  function Before(h: seq<Step>, j: nat): Store
    requires j <= |h|
  {
    Replay(h[..j])
  }

  predicate AcceptsAt(h: seq<Step>, j: nat, index: nat)
    requires j < |h|
  {
    Accepts(Before(h, j), h[j].command) && h[j].command.index == index
  }

  predicate RejectsAt(h: seq<Step>, j: nat, index: nat)
    requires j < |h|
  {
    Rejects(Before(h, j), h[j].command) && h[j].command.index == index
  }

  predicate UndefinedIn(h: seq<Step>, lo: nat, hi: nat, index: nat)
    requires lo <= hi <= |h|
  {
    exists k :: lo <= k < hi && h[k].command == Undefine(index)
  }

  predicate AcceptedIn(h: seq<Step>, lo: nat, hi: nat, index: nat)
    requires lo <= hi <= |h|
  {
    exists k :: lo <= k < hi && AcceptsAt(h, k, index)
  }

  /** How many guesses the TPM compared and rejected in [lo, hi). */
  function Rejections(h: seq<Step>, lo: nat, hi: nat, index: nat): nat
    requires lo <= hi <= |h|
    decreases hi
  {
    if lo == hi then 0
    else Rejections(h, lo, hi - 1, index) + if RejectsAt(h, hi - 1, index) then 1 else 0
  }

  /** A slot in the form pinpam creates, already written: no command can rewrite its counters. */
  predicate Sealed(nv: Store, index: nat) {
    index in nv && nv[index].PinFail? && nv[index].written && !nv[index].ownerWrite
  }

  predicate SlotLocked(nv: Store, index: nat) {
    Sealed(nv, index) && nv[index].count >= nv[index].limit
  }

  lemma BeforeNext(h: seq<Step>, j: nat)
    requires j < |h|
    ensures Before(h, j + 1) == After(Before(h, j), h[j].command)
  {
    assert h[..j + 1][..j] == h[..j];
  }

  /**
   Conservation: between two instants without an undefine or an accepted guess of the slot,
   whatever commands anybody sends, the secret and the limit stay and the counter grows by exactly the number
   of guesses compared and rejected, never passing the limit.
   */
  lemma {:induction false} CounterIsConserved(h: seq<Step>, lo: nat, hi: nat, index: nat)
    requires lo <= hi <= |h|
    requires Sealed(Before(h, lo), index)
    requires !UndefinedIn(h, lo, hi, index) && !AcceptedIn(h, lo, hi, index)
    ensures Sealed(Before(h, hi), index)
    ensures Before(h, hi)[index].auth == Before(h, lo)[index].auth
    ensures Before(h, hi)[index].limit == Before(h, lo)[index].limit
    ensures Before(h, hi)[index].count == Before(h, lo)[index].count + Rejections(h, lo, hi, index)
    ensures Before(h, lo)[index].count <= Before(h, lo)[index].limit ==>
              Before(h, hi)[index].count <= Before(h, hi)[index].limit
  {
    if lo < hi {
      CounterIsConserved(h, lo, hi - 1, index);
      BeforeNext(h, hi - 1);
      assert !AcceptsAt(h, hi - 1, index);
      assert h[hi - 1].command != Undefine(index);
    }
  }

  /** Once spent, a counter only stops refusing after the slot has been undefined. */
  lemma {:induction false} SpentSlotStaysLocked(h: seq<Step>, lo: nat, hi: nat, index: nat)
    requires lo <= hi <= |h|
    requires SlotLocked(Before(h, lo), index)
    requires !UndefinedIn(h, lo, hi, index)
    ensures !AcceptedIn(h, lo, hi, index) && Rejections(h, lo, hi, index) == 0
    ensures index in Before(h, hi) && Before(h, hi)[index] == Before(h, lo)[index]
  {
    if lo < hi {
      SpentSlotStaysLocked(h, lo, hi - 1, index);
      BeforeNext(h, hi - 1);
      assert h[hi - 1].command != Undefine(index);
    }
  }

  /** Lockout at command level: no guess is accepted on a spent slot before somebody undefines it. */
  lemma AcceptanceNeedsUndefine(h: seq<Step>, lo: nat, j: nat, index: nat)
    requires lo <= j < |h|
    requires SlotLocked(Before(h, lo), index)
    requires AcceptsAt(h, j, index)
    ensures UndefinedIn(h, lo, j, index)
  {
    if !UndefinedIn(h, lo, j, index) {
      SpentSlotStaysLocked(h, lo, j, index);
    }
  }

  /** The slot's policy is what makes that true: an index its owner may write can be unlocked without undefining it. */
  lemma OwnerWritableSlotCanBeUnlocked()
    ensures exists h: seq<Step>, lo: nat, j: nat, index: nat | lo <= j < |h| ::
              && index in Before(h, lo) && Before(h, lo)[index].PinFail? && Before(h, lo)[index].written
              && Before(h, lo)[index].count >= Before(h, lo)[index].limit
              && AcceptsAt(h, j, index) && !UndefinedIn(h, lo, j, index)
  {
    var c0, c1 := DefinePin(7, "1234", true), WriteUnwritten(7, Counters(3, 3));
    var c2, c3 := WriteOwner(7, Counters(0, 3)), ReadAuth(7, "1234");
    var h := [Step(false, c0), Step(false, c1), Step(false, c2), Step(false, c3)];
    assert ByteLen("1234") == 4 by {
      assert "1234"[1..] == "234" && "234"[1..] == "34" && "34"[1..] == "4" && "4"[1..] == "";
    }
    BeforeNext(h, 0);
    BeforeNext(h, 1);
    BeforeNext(h, 2);
    assert Before(h, 2)[7].count >= Before(h, 2)[7].limit;
    assert AcceptsAt(h, 3, 7) && !UndefinedIn(h, 2, 3, 7);
  }

  // ---- Running against a schedule ----

  /** What becomes of a command: it works, it never reaches the TPM, or its answer is lost on the way back. */
  datatype Fate = Works | Dropped(kind: Kind) | Lost(kind: Kind)

  /**
   One turn of the schedule: commands other processes get in first, the code this TPM uses to refuse a
   spent slot, and the fate of our command. A run stopped at some point is one whose
   later commands are all dropped.
   */
  datatype Turn = Turn(others: seq<Command>, refusal: Kind, fate: Fate)

  type Schedule = nat -> Turn

  /** `spent` counts the authorization values we have put to the TPM. */
  datatype World = World(nv: Store, history: seq<Step>, clock: nat, spent: nat)

  /** The history explains the store. Stated this way, the history is only replayed where a proof mentions it. */
  ghost predicate Consistent(w: World) {
    forall h :: h == w.history ==> w.nv == Replay(h)
  }

  /** `later` continues `w`: the history is kept and still explains the store. */
  ghost predicate Continues(w: World, later: World) {
    w.history <= later.history && (Consistent(w) ==> Consistent(later))
  }

  function Perform(w: World, mine: bool, c: Command): (later: World)
    ensures Continues(w, later)
  {
    assert (w.history + [Step(mine, c)])[..|w.history|] == w.history;
    World(After(w.nv, c), w.history + [Step(mine, c)], w.clock, w.spent + if mine && c.ReadAuth? then 1 else 0)
  }

  function Interfere(w: World, others: seq<Command>): (later: World)
    ensures Continues(w, later) && later.clock == w.clock && later.spent == w.spent
    ensures forall i | |w.history| <= i < |later.history| :: !later.history[i].mine
    decreases |others|
  {
    if others == [] then w else Interfere(Perform(w, false, others[0]), others[1..])
  }

  /** Send one command under a schedule. */
  function Exec(turns: Schedule, w: World, c: Command): (r: (Reply, World)) {
    var turn := turns(w.clock);
    var ready := Interfere(w, turn.others);
    match turn.fate
    case Works => (ReplyTo(ready.nv, c, turn.refusal), Perform(ready, true, c).(clock := w.clock + 1))
    case Dropped(kind) => (Fail(kind), ready.(clock := w.clock + 1))
    case Lost(kind) => (Fail(kind), Perform(ready, true, c).(clock := w.clock + 1))
  }
}
