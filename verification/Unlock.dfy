/** Timed unlocking of keys, locking, and expiry, in every interleaving. */
module Unlock {

  type Address = nat

  /** Identity of one decryption: the record put into the unlocked map and its key. */
  type RecId = nat

  type WaiterId = nat

  /** `timed` records have an abort channel; `closes` counts how often it was closed. */
  datatype Record = Record(addr: Address, timed: bool, closes: nat)

  /** An expiry in flight, started for a timed unlock or by Lock. */
  datatype Waiter = Waiter(addr: Address, rec: RecId, byLock: bool)

  datatype State = State(unlocked: map<Address, RecId>, records: map<RecId, Record>,
                         waiters: map<WaiterId, Waiter>, zeroed: set<RecId>, used: set<RecId>)
  {
    function Rec(r: RecId): Record {
      if r in records then records[r] else Record(0, false, 0)
    }
  }

  /** Each step runs under the keystore's mutex, except Abort, which only reads a closed channel. */
  datatype Step =
    | TimedUnlock(addr: Address, id: RecId, timed: bool, waiter: WaiterId)
    | Lock(addr: Address, waiter: WaiterId)
    | Abort(waiter: WaiterId)
    | Fire(waiter: WaiterId)

  const INITIAL := State(map[], map[], map[], {}, {})

  /** Keys, records and timers are fresh; the abort case is ready once its channel is closed, which a nil one never is. */
  predicate Enabled(s: State, step: Step) {
    match step
    case TimedUnlock(_, id, _, waiter) => id !in s.used && waiter !in s.waiters
    case Lock(_, waiter) => waiter !in s.waiters
    case Abort(w) => w in s.waiters && s.Rec(s.waiters[w].rec).closes > 0
    case Fire(w) => w in s.waiters
  }

  function Do(s: State, step: Step): State
    requires Enabled(s, step)
  {
    match step
    case TimedUnlock(addr, id, timed, waiter) =>
      if addr in s.unlocked && !s.Rec(s.unlocked[addr]).timed then
        // unlocked indefinitely already: the fresh key is wiped and nothing else changes
        s.(zeroed := s.zeroed + {id}, used := s.used + {id})
      else
        var closed := if addr in s.unlocked then
            var r := s.Rec(s.unlocked[addr]);
            s.records[s.unlocked[addr] := r.(closes := r.closes + 1)]
          else s.records;
        State(s.unlocked[addr := id], closed[id := Record(addr, timed, 0)],
              if timed then s.waiters[waiter := Waiter(addr, id, false)] else s.waiters,
              s.zeroed, s.used + {id})
    case Lock(addr, waiter) =>
      if addr in s.unlocked then s.(waiters := s.waiters[waiter := Waiter(addr, s.unlocked[addr], true)]) else s
    case Abort(w) => s.(waiters := s.waiters - {w})
    case Fire(w) =>
      var x := s.waiters[w];
      if x.addr in s.unlocked && s.unlocked[x.addr] == x.rec then
        s.(unlocked := s.unlocked - {x.addr}, waiters := s.waiters - {w}, zeroed := s.zeroed + {x.rec})
      else s.(waiters := s.waiters - {w})
  }

  ghost predicate Legal(steps: seq<Step>)
    decreases |steps|, 0
  {
    steps == [] || (Legal(steps[..|steps| - 1]) && Enabled(After(steps[..|steps| - 1]), steps[|steps| - 1]))
  }

  ghost function After(steps: seq<Step>): State
    requires Legal(steps)
    decreases |steps|, 1
  {
    if steps == [] then INITIAL else Do(After(steps[..|steps| - 1]), steps[|steps| - 1])
  }

  // ---------- The invariant ----------

  ghost predicate RecordOk(s: State, r: RecId) {
    r in s.records ==>
      && s.records[r].closes <= 1
      && r in s.used
      && (s.records[r].closes > 0 ==> s.records[r].timed && r !in s.zeroed)
  }

  /** An unlocked address has its own record, never aborted, with a key that was not wiped. */
  ghost predicate UnlockedOk(s: State, a: Address) {
    a in s.unlocked ==>
      var r := s.unlocked[a];
      r in s.records && s.records[r].addr == a && s.records[r].closes == 0 && r !in s.zeroed
  }

  ghost predicate WaiterOk(s: State, w: WaiterId) {
    w in s.waiters ==>
      var x := s.waiters[w];
      x.rec in s.records && s.records[x.rec].addr == x.addr && (!x.byLock ==> s.records[x.rec].timed)
  }

  /** `r` is the unlock that its address is held under. */
  ghost predicate Held(s: State, r: RecId) {
    r in s.records && s.records[r].addr in s.unlocked && s.unlocked[s.records[r].addr] == r
  }

  /** Every decrypted key is held, was wiped, or belongs to a timed unlock that a newer one replaced. */
  ghost predicate KeyOk(s: State, r: RecId) {
    r in s.used ==> Held(s, r) || r in s.zeroed || s.Rec(r).closes == 1
  }

  /** A timed unlock that is held has its expiry under way. */
  ghost predicate TimerOk(s: State, r: RecId) {
    Held(s, r) && s.records[r].timed ==> exists w :: Expires(s, w, r)
  }

  ghost predicate Expires(s: State, w: WaiterId, r: RecId) {
    w in s.waiters && s.waiters[w].rec == r && !s.waiters[w].byLock
  }

  ghost predicate Inv(s: State) {
    && (forall r :: RecordOk(s, r))
    && (forall a :: UnlockedOk(s, a))
    && (forall w :: WaiterOk(s, w))
    && (forall r :: KeyOk(s, r))
    && (forall r :: TimerOk(s, r))
    && s.zeroed <= s.used
  }

  lemma KeyStepOk(s: State, step: Step, r: RecId)
    requires Inv(s) && Enabled(s, step)
    ensures KeyOk(Do(s, step), r)
  {
    assert KeyOk(s, r) && RecordOk(s, r);
    if Held(s, r) {
      assert UnlockedOk(s, s.records[r].addr);
    }
    if step.TimedUnlock? && step.addr in s.unlocked {
      assert UnlockedOk(s, step.addr) && RecordOk(s, s.unlocked[step.addr]);
    }
  }

  lemma TimerStepOk(s: State, step: Step, r: RecId)
    requires Inv(s) && Enabled(s, step)
    ensures TimerOk(Do(s, step), r)
  {
    var t := Do(s, step);
    assert TimerOk(s, r) && RecordOk(s, r);
    if Held(t, r) && t.records[r].timed {
      if Held(s, r) {
        assert UnlockedOk(s, s.records[r].addr);
        var w :| Expires(s, w, r);
        assert WaiterOk(s, w);
        assert Expires(t, w, r);
      } else {
        assert step.TimedUnlock? && step.id == r && Expires(t, step.waiter, r);
      }
    }
  }

  lemma StepKeeps(s: State, step: Step)
    requires Inv(s) && Enabled(s, step)
    ensures Inv(Do(s, step))
  {
    var t := Do(s, step);
    forall r ensures RecordOk(t, r) {
      assert RecordOk(s, r);
      if step.TimedUnlock? {
        assert UnlockedOk(s, step.addr);
      }
      if step.Fire? {
        assert UnlockedOk(s, s.waiters[step.waiter].addr);
      }
    }
    forall a ensures UnlockedOk(t, a) {
      assert UnlockedOk(s, a);
      OneRecordPerAddress(s, step, a);
    }
    forall w ensures WaiterOk(t, w) {
      assert WaiterOk(s, w);
      if step.Lock? {
        assert UnlockedOk(s, step.addr);
      }
      if step.TimedUnlock? {
        assert RecordOk(s, step.id);
      }
    }
    forall r ensures KeyOk(t, r) {
      KeyStepOk(s, step, r);
    }
    forall r ensures TimerOk(t, r) {
      TimerStepOk(s, step, r);
    }
    if step.Fire? {
      assert WaiterOk(s, step.waiter) && RecordOk(s, s.waiters[step.waiter].rec);
    }
  }

  /** What a step closes or wipes belongs to the address it concerns, so that other addresses keep their records. */
  lemma OneRecordPerAddress(s: State, step: Step, a: Address)
    requires Inv(s) && Enabled(s, step)
    ensures UnlockedOk(Do(s, step), a)
  {
    assert UnlockedOk(s, a);
    match step
    case TimedUnlock(addr, id, _, _) =>
      assert UnlockedOk(s, addr) && RecordOk(s, id);
      if a in s.unlocked {
        assert RecordOk(s, s.unlocked[a]);
      }
    case Fire(w) => assert WaiterOk(s, w);
    case _ =>
  }

  lemma {:induction false} AlwaysInv(steps: seq<Step>)
    requires Legal(steps)
    ensures Inv(After(steps))
  {
    if steps != [] {
      AlwaysInv(steps[..|steps| - 1]);
      StepKeeps(After(steps[..|steps| - 1]), steps[|steps| - 1]);
    }
  }

  // ---------- Every interleaving ----------

  /** No abort channel is ever closed twice. */
  lemma ClosedAtMostOnce(steps: seq<Step>, r: RecId)
    requires Legal(steps) && r in After(steps).records
    ensures After(steps).records[r].closes <= 1
  {
    AlwaysInv(steps);
    assert RecordOk(After(steps), r);
  }

  /** No key in the unlocked map was wiped. */
  lemma HeldKeysIntact(steps: seq<Step>, a: Address)
    requires Legal(steps) && a in After(steps).unlocked
    ensures After(steps).unlocked[a] !in After(steps).zeroed
  {
    AlwaysInv(steps);
    assert UnlockedOk(After(steps), a);
  }

  /**
   * In every run a key that is no longer held was wiped, except exactly the keys of timed unlocks
   * that newer ones replaced.
   */
  lemma KeysAccountedFor(steps: seq<Step>, r: RecId)
    requires Legal(steps) && r in After(steps).used
    ensures var s := After(steps);
      !Held(s, r) && r !in s.zeroed <==> s.Rec(r).closes == 1
  {
    var s := After(steps);
    AlwaysInv(steps);
    assert KeyOk(s, r) && RecordOk(s, r);
    if r in s.records {
      assert UnlockedOk(s, s.records[r].addr);
    }
  }

  /** A timed unlock is held only while an expiry for it is under way. */
  lemma TimedUnlockExpires(steps: seq<Step>, r: RecId)
    requires Legal(steps) && Held(After(steps), r) && After(steps).records[r].timed
    ensures exists w :: Expires(After(steps), w, r)
  {
    AlwaysInv(steps);
    assert TimerOk(After(steps), r);
  }

  /**
   * An unlock ends only by an expiry started for itself, or when its address is unlocked again and
   * it was timed; in particular a stale expiry never removes a newer unlock.
   */
  lemma WhatEndsAnUnlock(steps: seq<Step>, step: Step, a: Address)
    requires Legal(steps) && Enabled(After(steps), step) && a in After(steps).unlocked
    ensures var s, t, r := After(steps), Do(After(steps), step), After(steps).unlocked[a];
      r in s.records &&
      (a !in t.unlocked || t.unlocked[a] != r ==>
        || (step.Fire? && s.waiters[step.waiter].rec == r && (!s.records[r].timed ==> s.waiters[step.waiter].byLock))
        || (step.TimedUnlock? && step.addr == a && s.records[r].timed))
  {
    var s := After(steps);
    AlwaysInv(steps);
    assert UnlockedOk(s, a);
    if step.Fire? {
      assert WaiterOk(s, step.waiter);
    }
  }

  /** No Lock of `r` is under way. */
  ghost predicate NoLockPending(s: State, r: RecId) {
    forall w :: w in s.waiters && s.waiters[w].rec == r ==> !s.waiters[w].byLock
  }

  /** Without Lock an indefinite unlock stays, whatever else happens. */
  lemma {:induction false} IndefiniteStays(before: seq<Step>, more: seq<Step>, a: Address)
    requires Legal(before) && Legal(before + more) && a in After(before).unlocked
    requires var s := After(before);
      s.unlocked[a] in s.records && !s.records[s.unlocked[a]].timed && NoLockPending(s, s.unlocked[a])
    requires forall i :: 0 <= i < |more| ==> !(more[i].Lock? && more[i].addr == a)
    ensures var s, t, r := After(before), After(before + more), After(before).unlocked[a];
      && a in t.unlocked && t.unlocked[a] == r
      && r in t.records && !t.records[r].timed && NoLockPending(t, r)
    decreases more
  {
    if more == [] {
      assert before + more == before;
    } else {
      var init, last := more[..|more| - 1], more[|more| - 1];
      var all := before + more;
      assert all[..|all| - 1] == before + init && all[|all| - 1] == last;
      IndefiniteStays(before, init, a);
      StaysOneStep(before + init, last, a);
    }
  }

  lemma StaysOneStep(steps: seq<Step>, step: Step, a: Address)
    requires Legal(steps) && Enabled(After(steps), step) && a in After(steps).unlocked
    requires var s := After(steps);
      s.unlocked[a] in s.records && !s.records[s.unlocked[a]].timed && NoLockPending(s, s.unlocked[a])
    requires !(step.Lock? && step.addr == a)
    ensures var t, r := Do(After(steps), step), After(steps).unlocked[a];
      && a in t.unlocked && t.unlocked[a] == r
      && r in t.records && !t.records[r].timed && NoLockPending(t, r)
  {
    var s := After(steps);
    var r := s.unlocked[a];
    AlwaysInv(steps);
    WhatEndsAnUnlock(steps, step, a);
    assert RecordOk(s, r) && UnlockedOk(s, a);
    if step.Lock? {
      assert UnlockedOk(s, step.addr);
    }
  }

  /** `r` was issued and is not in the unlocked map. */
  ghost predicate Gone(s: State, r: RecId) {
    r in s.used && forall a :: a in s.unlocked ==> s.unlocked[a] != r
  }

  lemma StaysGone(s: State, step: Step, r: RecId)
    requires Gone(s, r) && Enabled(s, step)
    ensures Gone(Do(s, step), r)
  {
  }

  /** An expiry that has run its course, however it ended, leaves its own unlock gone. */
  lemma ExpiryDrops(steps: seq<Step>, step: Step)
    requires Legal(steps) && Enabled(After(steps), step) && (step.Fire? || step.Abort?)
    ensures Gone(Do(After(steps), step), After(steps).waiters[step.waiter].rec)
  {
    var s := After(steps);
    var x := s.waiters[step.waiter];
    AlwaysInv(steps);
    assert WaiterOk(s, step.waiter) && RecordOk(s, x.rec);
    forall a | a in Do(s, step).unlocked ensures Do(s, step).unlocked[a] != x.rec {
      assert UnlockedOk(s, a);
    }
  }

  /** Once Lock has returned, the unlock it saw is never in the map again, in any continuation. */
  lemma {:induction false} LockedForGood(steps: seq<Step>, step: Step, more: seq<Step>)
    requires Legal(steps) && Enabled(After(steps), step) && (step.Fire? || step.Abort?)
    requires Legal(steps + [step] + more)
    ensures Gone(After(steps + [step] + more), After(steps).waiters[step.waiter].rec)
    decreases more
  {
    var all := steps + [step] + more;
    if more == [] {
      assert all[..|all| - 1] == steps && all[|all| - 1] == step;
      ExpiryDrops(steps, step);
    } else {
      assert all[..|all| - 1] == steps + [step] + more[..|more| - 1] && all[|all| - 1] == more[|more| - 1];
      LockedForGood(steps, step, more[..|more| - 1]);
      StaysGone(After(all[..|all| - 1]), all[|all| - 1], After(steps).waiters[step.waiter].rec);
    }
  }

  /** An expiry leaves its address unlocked exactly if the address is held under another record when it ends. */
  lemma ExpiryLeavesUnlocked(steps: seq<Step>, step: Step)
    requires Legal(steps) && Enabled(After(steps), step) && (step.Fire? || step.Abort?)
    ensures var s := After(steps);
      var x := s.waiters[step.waiter];
      x.addr in Do(s, step).unlocked <==> x.addr in s.unlocked && s.unlocked[x.addr] != x.rec
  {
    var s := After(steps);
    AlwaysInv(steps);
    assert WaiterOk(s, step.waiter) && UnlockedOk(s, s.waiters[step.waiter].addr);
  }

  /** Step `i` unlocked `a` under the record that `a` is held under now. */
  ghost predicate Installed(mid: seq<Step>, i: nat, a: Address, s: State) {
    i < |mid| && mid[i].TimedUnlock? && mid[i].addr == a && a in s.unlocked && s.unlocked[a] == mid[i].id
  }

  /** What an address is held under was there before, or was installed since. */
  lemma {:induction false} HeldSince(before: seq<Step>, mid: seq<Step>, a: Address)
    requires Legal(before) && Legal(before + mid) && a in After(before + mid).unlocked
    ensures var s, t := After(before), After(before + mid);
      (a in s.unlocked && t.unlocked[a] == s.unlocked[a]) || exists i :: Installed(mid, i, a, t)
    decreases mid
  {
    if mid == [] {
      assert before + mid == before;
    } else {
      var all, init, last := before + mid, mid[..|mid| - 1], mid[|mid| - 1];
      assert all[..|all| - 1] == before + init && all[|all| - 1] == last;
      var u, t := After(before + init), After(all);
      if a in u.unlocked && u.unlocked[a] == t.unlocked[a] {
        HeldSince(before, init, a);
        if i :| Installed(init, i, a, u) {
          assert Installed(mid, i, a, t);
        }
      } else {
        assert Installed(mid, |mid| - 1, a, t);
      }
    }
  }

  lemma {:induction false} LegalPrefix(steps: seq<Step>, n: nat)
    requires Legal(steps) && n <= |steps|
    ensures Legal(steps[..n]) && After(steps[..n]).used <= After(steps).used
    decreases |steps| - n
  {
    if n == |steps| {
      assert steps[..n] == steps;
    } else {
      LegalPrefix(steps[..|steps| - 1], n);
      assert steps[..|steps| - 1][..n] == steps[..n];
    }
  }

  /** A record installed later is none of those that were there before. */
  lemma InstalledIsNew(before: seq<Step>, mid: seq<Step>, i: nat)
    requires Legal(before) && Legal(before + mid) && i < |mid| && mid[i].TimedUnlock?
    ensures mid[i].id !in After(before).used
  {
    hide Do;
    var all, n := before + mid, |before| + i;
    LegalPrefix(all, n + 1);
    assert all[..n + 1][..n] == all[..n] && all[..n + 1][n] == mid[i];
    LegalPrefix(all[..n], |before|);
    assert all[..n][..|before|] == before;
  }

  /** Until the expiry that Lock started ends, it stays as it is. */
  lemma {:induction false} WaiterStays(before: seq<Step>, mid: seq<Step>, w: WaiterId)
    requires Legal(before) && Legal(before + mid) && w in After(before).waiters
    requires forall i :: 0 <= i < |mid| ==> mid[i] !in {Fire(w), Abort(w)}
    ensures w in After(before + mid).waiters && After(before + mid).waiters[w] == After(before).waiters[w]
    decreases mid
  {
    if mid == [] {
      assert before + mid == before;
    } else {
      var all := before + mid;
      assert all[..|all| - 1] == before + mid[..|mid| - 1] && all[|all| - 1] == mid[|mid| - 1];
      WaiterStays(before, mid[..|mid| - 1], w);
      assert mid[|mid| - 1] !in {Fire(w), Abort(w)};
    }
  }

  /**
   * Lock, from its lookup to the end of its expiry, leaves the address unlocked exactly if a timed
   * unlock in between installed a record for it that is still held at the end.
   */
  lemma LockLocks(before: seq<Step>, mid: seq<Step>, a: Address, w: WaiterId, step: Step)
    requires Legal(before) && a in After(before).unlocked && Legal(before + [Lock(a, w)] + mid)
    requires forall i :: 0 <= i < |mid| ==> mid[i] !in {Fire(w), Abort(w)}
    requires step in {Fire(w), Abort(w)} && Enabled(After(before + [Lock(a, w)] + mid), step)
    ensures var s := After(before + [Lock(a, w)] + mid);
      a in Do(s, step).unlocked <==> exists i :: Installed(mid, i, a, s)
  {
    var looked := before + [Lock(a, w)];
    var all := looked + mid;
    LegalPrefix(all, |looked|);
    assert all[..|looked|] == looked && looked[..|before|] == before && looked[|before|] == Lock(a, w);
    var s, r := After(all), After(before).unlocked[a];
    assert After(looked).waiters[w] == Waiter(a, r, true);
    WaiterStays(looked, mid, w);
    ExpiryLeavesUnlocked(all, step);
    AlwaysInv(before);
    assert UnlockedOk(After(before), a) && RecordOk(After(before), r);
    if a in s.unlocked && s.unlocked[a] != r {
      HeldSince(looked, mid, a);
    }
    if i :| Installed(mid, i, a, s) {
      InstalledIsNew(looked, mid, i);
    }
  }

  const LOCK_RACE := [TimedUnlock(7, 1, true, 1), Lock(7, 2), TimedUnlock(7, 2, true, 3), Fire(2)]

  /** Unlocking an address again for a time leaves the key of the first unlock neither held nor wiped. */
  lemma ReplacedKeyStays()
    ensures var steps := LOCK_RACE[..3];
      Legal(steps) && 1 in After(steps).used && !Held(After(steps), 1) && 1 !in After(steps).zeroed
  {
    RaceSteps();
  }

  lemma RaceSteps()
    ensures Legal(LOCK_RACE[..3])
    ensures After(LOCK_RACE[..3]) == Do(Do(Do(INITIAL, LOCK_RACE[0]), LOCK_RACE[1]), LOCK_RACE[2])
  {
    assert LOCK_RACE[..0] == [];
    assert LOCK_RACE[..1][..0] == [] && LOCK_RACE[..2][..1] == LOCK_RACE[..1] && LOCK_RACE[..3][..2] == LOCK_RACE[..2];
    assert Legal(LOCK_RACE[..1]) && After(LOCK_RACE[..1]) == Do(INITIAL, LOCK_RACE[0]);
    assert Legal(LOCK_RACE[..2]) && After(LOCK_RACE[..2]) == Do(Do(INITIAL, LOCK_RACE[0]), LOCK_RACE[1]);
  }

  /** A timed unlock between Lock's lookup and its expiry leaves the address unlocked after Lock returned. */
  lemma LockCanMiss()
    ensures Legal(LOCK_RACE) && 7 in After(LOCK_RACE).unlocked
  {
    RaceSteps();
  }

  // ---------- What a call promises ----------

  /** The address is unlocked and no expiry is under way that could end it, other than through Lock. */
  ghost predicate HeldForever(s: State, a: Address) {
    a in s.unlocked && forall w :: !Expires(s, w, s.unlocked[a])
  }

  lemma HeldForeverIsUntimed(s: State, a: Address)
    requires Inv(s) && a in s.unlocked
    ensures s.unlocked[a] in s.records && (HeldForever(s, a) <==> !s.records[s.unlocked[a]].timed)
  {
    var r := s.unlocked[a];
    assert UnlockedOk(s, a);
    assert Held(s, r) && TimerOk(s, r);
    if !s.records[r].timed {
      forall w ensures !Expires(s, w, r) {
        assert WaiterOk(s, w);
      }
    }
  }

  /**
   * Unlocking an address that is not held forever installs the new record in place of any old one, and
   * for a timed unlock starts an expiry that locks the address. On one that is held forever the new
   * key is wiped and nothing else changes.
   */
  lemma UnlockInstalls(steps: seq<Step>, a: Address, id: RecId, timed: bool, w: WaiterId)
    requires Legal(steps) && Enabled(After(steps), TimedUnlock(a, id, timed, w))
    ensures var s, t := After(steps), Do(After(steps), TimedUnlock(a, id, timed, w));
      && (forall b :: b != a ==> (b in t.unlocked <==> b in s.unlocked) && (b in s.unlocked ==> t.unlocked[b] == s.unlocked[b]))
      && (HeldForever(s, a) ==> t.unlocked == s.unlocked && t.waiters == s.waiters && id in t.zeroed)
      && (!HeldForever(s, a) ==>
          && a in t.unlocked && t.unlocked[a] == id && id !in t.zeroed
          && (a in s.unlocked ==> Gone(t, s.unlocked[a]))
          && (timed <==> Expires(t, w, id))
          && (timed ==> a !in Do(t, Fire(w)).unlocked))
  {
    var s := After(steps);
    AlwaysInv(steps);
    assert RecordOk(s, id) && UnlockedOk(s, a) && WaiterOk(s, w);
    if a in s.unlocked {
      HeldForeverIsUntimed(s, a);
      assert RecordOk(s, s.unlocked[a]);
    }
    forall b | b in s.unlocked ensures s.unlocked[b] != id && (b != a && a in s.unlocked ==> s.unlocked[b] != s.unlocked[a]) {
      assert UnlockedOk(s, b) && RecordOk(s, s.unlocked[b]);
    }
  }

  /** An unlock without timeout of an address not held forever lasts in every continuation without Lock. */
  lemma UnlockLasts(before: seq<Step>, a: Address, id: RecId, w: WaiterId, more: seq<Step>)
    requires Legal(before) && Legal(before + [TimedUnlock(a, id, false, w)] + more) && !HeldForever(After(before), a)
    requires forall i :: 0 <= i < |more| ==> !(more[i].Lock? && more[i].addr == a)
    ensures var t := After(before + [TimedUnlock(a, id, false, w)] + more);
      a in t.unlocked && t.unlocked[a] == id && id !in t.zeroed
  {
    var unlocked := before + [TimedUnlock(a, id, false, w)];
    LegalPrefix(unlocked + more, |unlocked|);
    assert (unlocked + more)[..|unlocked|] == unlocked;
    assert unlocked[..|before|] == before && unlocked[|before|] == TimedUnlock(a, id, false, w);
    UnlockInstalls(before, a, id, false, w);
    AlwaysInv(before);
    AlwaysInv(unlocked);
    var s, t := After(before), After(unlocked);
    assert RecordOk(s, id);
    HeldForeverIsUntimed(t, a);
    forall v | v in t.waiters ensures t.waiters[v].rec != id {
      assert WaiterOk(s, v);
    }
    IndefiniteStays(unlocked, more, a);
    HeldKeysIntact(unlocked + more, a);
  }

  /** Lock starts an expiry for the record it finds, which nothing but the expiry's end takes away, and changes nothing else. */
  lemma LockStarts(steps: seq<Step>, a: Address, w: WaiterId)
    requires Legal(steps) && Enabled(After(steps), Lock(a, w))
    ensures var s, t := After(steps), Do(After(steps), Lock(a, w));
      && t.unlocked == s.unlocked && t.zeroed == s.zeroed && t.records == s.records
      && (a !in s.unlocked ==> t == s)
      && (a in s.unlocked ==> w in t.waiters && t.waiters[w] == Waiter(a, s.unlocked[a], true))
      && (a in s.unlocked ==> a !in Do(t, Fire(w)).unlocked && s.unlocked[a] in Do(t, Fire(w)).zeroed)
  {
  }

  /** An expiry ends once, and ends no other; one that is called off changes nothing else. */
  lemma ExpiryEnds(steps: seq<Step>, w: WaiterId, step: Step)
    requires Legal(steps) && Enabled(After(steps), step) && (step == Abort(w) || step == Fire(w))
    ensures var s, t := After(steps), Do(After(steps), step);
      && !Enabled(t, Abort(w)) && !Enabled(t, Fire(w))
      && (forall v :: v != w ==> (v in t.waiters <==> v in s.waiters) && (v in s.waiters ==> t.waiters[v] == s.waiters[v]))
      && (step.Abort? ==> t.unlocked == s.unlocked && t.zeroed == s.zeroed)
      && (step.Abort? && s.waiters[w].addr in s.unlocked ==> s.unlocked[s.waiters[w].addr] != s.waiters[w].rec)
  {
    AlwaysInv(steps);
    var s := After(steps);
    var x := s.waiters[w];
    assert WaiterOk(s, w) && UnlockedOk(s, x.addr) && RecordOk(s, x.rec);
  }

  // ---------- The keystore's own operations ----------

  class KeyStore {
    var unlocked: map<Address, RecId>
    var records: map<RecId, Record>
    var waiters: map<WaiterId, Waiter>
    var zeroed: set<RecId>
    var used: set<RecId>

    ghost function Value(): State
      reads this
    {
      State(unlocked, records, waiters, zeroed, used)
    }

    constructor ()
      ensures Value() == INITIAL && Inv(Value())
    {
      unlocked, records, waiters, zeroed, used := map[], map[], map[], {}, {};
    }

    /** A timeout that is not positive unlocks indefinitely. */
    method TimedUnlock(addr: Address, id: RecId, timeout: int, waiter: WaiterId)
      requires Inv(Value()) && Enabled(Value(), Step.TimedUnlock(addr, id, timeout > 0, waiter))
      modifies this
      ensures Value() == Do(old(Value()), Step.TimedUnlock(addr, id, timeout > 0, waiter)) && Inv(Value())
    {
      StepKeeps(Value(), Step.TimedUnlock(addr, id, timeout > 0, waiter));
      assert UnlockedOk(Value(), addr);
      used := used + {id};
      if addr in unlocked {
        var u := records[unlocked[addr]];
        if !u.timed {
          zeroed := zeroed + {id};
          return;
        }
        // closing a closed channel would panic
        assert u.closes == 0;
        records := records[unlocked[addr] := u.(closes := u.closes + 1)];
      }
      records := records[id := Record(addr, timeout > 0, 0)];
      if timeout > 0 {
        waiters := waiters[waiter := Waiter(addr, id, false)];
      }
      unlocked := unlocked[addr := id];
    }

    /** The lookup; the expiry it starts then runs like any other, with nothing to wait for. */
    method Lock(addr: Address, waiter: WaiterId)
      requires Inv(Value()) && Enabled(Value(), Step.Lock(addr, waiter))
      modifies this
      ensures Value() == Do(old(Value()), Step.Lock(addr, waiter)) && Inv(Value())
    {
      StepKeeps(Value(), Step.Lock(addr, waiter));
      if addr in unlocked {
        waiters := waiters[waiter := Waiter(addr, unlocked[addr], true)];
      }
    }

    /** The end of one expiry: `aborted` says which case of its select was taken. */
    method Expire(waiter: WaiterId, aborted: bool)
      requires Inv(Value()) && Enabled(Value(), if aborted then Abort(waiter) else Fire(waiter))
      modifies this
      ensures Value() == Do(old(Value()), if aborted then Abort(waiter) else Fire(waiter)) && Inv(Value())
    {
      StepKeeps(Value(), if aborted then Abort(waiter) else Fire(waiter));
      var x := waiters[waiter];
      waiters := waiters - {waiter};
      if !aborted && x.addr in unlocked && unlocked[x.addr] == x.rec {
        zeroed := zeroed + {x.rec};
        unlocked := unlocked - {x.addr};
      }
    }
  }
}
