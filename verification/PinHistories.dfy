/**
 What holds in every history that pinpam's own commands can produce, however many pinpam
 processes run at once and wherever they are stopped.
 */
module PinHistories {
  import opened PinCodec
  import opened PinIndex
  import opened Tpm
  import opened PinContracts
  import opened Accounts

  /** A command pinpam sends for some user under some policy. */
  ghost predicate PinpamCommand(c: Command) {
    exists uid: nat, maxAttempts: u32 :: uid <= PIN_VERSION_UID_MAX && Repertoire(c, uid, maxAttempts)
  }

  ghost predicate PinpamHistory(h: seq<Step>) {
    forall i :: 0 <= i < |h| ==> PinpamCommand(h[i].command)
  }

  /** Each single command, of this user or another, keeps a user's indexes in shape. */
  lemma CommandKeepsShape(nv: Store, c: Command, owner: nat, maxAttempts: u32, uid: nat)
    requires uid <= PIN_VERSION_UID_MAX && owner <= PIN_VERSION_UID_MAX
    requires Repertoire(c, owner, maxAttempts) && Shaped(nv, uid)
    ensures Shaped(After(nv, c), uid)
  {
    if owner == uid && TagShaped(nv, uid) {
      TagWrites(nv, uid);
    }
  }

  /**
   In every reachable state each user's slot is absent, half defined, or sealed with its counter at most its limit.
   */
  lemma {:induction false} ReachableStoresAreShaped(h: seq<Step>, uid: nat)
    requires PinpamHistory(h) && uid <= PIN_VERSION_UID_MAX
    ensures Shaped(Replay(h), uid)
    ensures SlotOf(uid) in Replay(h) && Replay(h)[SlotOf(uid)].written ==> Sealed(Replay(h), SlotOf(uid))
  {
    if h != [] {
      var c := h[|h| - 1].command;
      ReachableStoresAreShaped(h[..|h| - 1], uid);
      assert PinpamCommand(c);
      var owner: nat, maxAttempts: u32 :| owner <= PIN_VERSION_UID_MAX && Repertoire(c, owner, maxAttempts);
      CommandKeepsShape(Replay(h[..|h| - 1]), c, owner, maxAttempts, uid);
    }
  }

  /** The command gives the slot a fresh counter: its first write, or an accepted guess. */
  predicate Resets(nv: Store, c: Command, index: nat) {
    && (c.ReadAuth? || c.WriteUnwritten?) && c.index == index
    && (Accepts(nv, c) || WritesCounters(nv, c))
  }

  predicate ResetsAt(h: seq<Step>, j: nat, index: nat)
    requires j < |h|
  {
    Resets(Before(h, j), h[j].command, index)
  }

  /** The position in h[..hi] right after the last reset of the slot; 0 if there is none. */
  function LastReset(h: seq<Step>, hi: nat, index: nat): (lo: nat)
    requires hi <= |h|
    ensures lo <= hi
    ensures lo > 0 ==> ResetsAt(h, lo - 1, index)
    ensures forall k | lo <= k < hi :: !ResetsAt(h, k, index)
  {
    if hi == 0 || ResetsAt(h, hi - 1, index) then hi else LastReset(h, hi - 1, index)
  }

  /** Only a reset seals a slot, and it does so with a counter of zero. */
  lemma SealComesFromReset(nv: Store, c: Command, uid: nat)
    requires PinpamCommand(c) && uid <= PIN_VERSION_UID_MAX
    ensures Sealed(After(nv, c), SlotOf(uid)) ==> Resets(nv, c, SlotOf(uid)) || Sealed(nv, SlotOf(uid))
    ensures Sealed(After(nv, c), SlotOf(uid)) ==> c != Undefine(SlotOf(uid))
    ensures Sealed(After(nv, c), SlotOf(uid)) && Resets(nv, c, SlotOf(uid)) ==> After(nv, c)[SlotOf(uid)].count == 0
  {
    var owner: nat, maxAttempts: u32 :| owner <= PIN_VERSION_UID_MAX && Repertoire(c, owner, maxAttempts);
  }

  lemma {:induction false} SealedSinceReset(h: seq<Step>, uid: nat, lo: nat, hi: nat)
    requires PinpamHistory(h) && uid <= PIN_VERSION_UID_MAX && lo <= hi <= |h|
    requires forall k | lo <= k < hi :: !ResetsAt(h, k, SlotOf(uid))
    requires Sealed(Before(h, hi), SlotOf(uid))
    ensures Sealed(Before(h, lo), SlotOf(uid)) && !UndefinedIn(h, lo, hi, SlotOf(uid))
  {
    if lo < hi {
      BeforeNext(h, hi - 1);
      assert PinpamCommand(h[hi - 1].command) && !ResetsAt(h, hi - 1, SlotOf(uid));
      SealComesFromReset(Before(h, hi - 1), h[hi - 1].command, uid);
      SealedSinceReset(h, uid, lo, hi - 1);
    }
  }

  /** Since the last reset the slot has been sealed, and nobody undefined it or was accepted. */
  lemma QuietSinceReset(h: seq<Step>, uid: nat, hi: nat)
    requires PinpamHistory(h) && uid <= PIN_VERSION_UID_MAX && hi <= |h|
    requires Sealed(Before(h, hi), SlotOf(uid))
    ensures var slot, lo := SlotOf(uid), LastReset(h, hi, SlotOf(uid));
            Sealed(Before(h, lo), slot) && !UndefinedIn(h, lo, hi, slot) && !AcceptedIn(h, lo, hi, slot)
  {
    var lo := LastReset(h, hi, SlotOf(uid));
    SealedSinceReset(h, uid, lo, hi);
    if AcceptedIn(h, lo, hi, SlotOf(uid)) {
      var k :| lo <= k < hi && AcceptsAt(h, k, SlotOf(uid));
      assert ResetsAt(h, k, SlotOf(uid));
    }
  }

  lemma StartsEmpty(h: seq<Step>)
    ensures Before(h, 0) == map[]
  {
    assert h[..0] == [];
  }

  lemma ZeroAtReset(h: seq<Step>, uid: nat, lo: nat)
    requires PinpamHistory(h) && uid <= PIN_VERSION_UID_MAX && 0 < lo <= |h|
    requires ResetsAt(h, lo - 1, SlotOf(uid)) && Sealed(Before(h, lo), SlotOf(uid))
    ensures Before(h, lo)[SlotOf(uid)].count == 0
  {
    BeforeNext(h, lo - 1);
    assert PinpamCommand(h[lo - 1].command);
    SealComesFromReset(Before(h, lo - 1), h[lo - 1].command, uid);
  }

  /**
   Exact accounting: at every instant of every history a written slot's counter is the number of guesses the
   TPM has compared and rejected since the later of setup and last success, it never passes the limit, and the limit and
   the secret are still those of that moment.
   */
  lemma ExactAccounting(h: seq<Step>, uid: nat, hi: nat)
    requires PinpamHistory(h) && uid <= PIN_VERSION_UID_MAX && hi <= |h|
    requires Sealed(Before(h, hi), SlotOf(uid))
    ensures var slot, lo := SlotOf(uid), LastReset(h, hi, SlotOf(uid));
            && lo > 0 && Sealed(Before(h, lo), slot)
            && Before(h, hi)[slot].count == Rejections(h, lo, hi, slot)
            && Before(h, hi)[slot].count <= Before(h, hi)[slot].limit
            && Before(h, hi)[slot].limit == Before(h, lo)[slot].limit
            && Before(h, hi)[slot].auth == Before(h, lo)[slot].auth
  {
    var slot, lo := SlotOf(uid), LastReset(h, hi, SlotOf(uid));
    QuietSinceReset(h, uid, hi);
    StartsEmpty(h);
    ZeroAtReset(h, uid, lo);
    CounterIsConserved(h, lo, hi, slot);
  }
}
