/** Subscribe, Unsubscribe and Send of an event feed in every interleaving. */
module FeedProtocol {
  import opened Basics
  import opened FeedCases

  type SubId = nat

  /** A subscription is live, past the inbox check of its removal, or removed. */
  datatype Sub = Live(ch: Channel) | Removing(ch: Channel) | Gone

  /** Who holds the send lock: nobody, a Send before and after taking the inbox, or a remover. */
  datatype Lock = Free | Merging | Sending(active: nat, books: Books) | Deleting(id: SubId)

  datatype State = State(inbox: seq<Case>, sendCases: seq<Case>, subs: map<SubId, Sub>, lock: Lock)

  /** Steps are atomic: each happens under the feed's mutex, under the send lock, or as one channel operation. */
  datatype Step =
    | Subscribe(id: SubId, ch: Channel)
    | LeaveInbox(id: SubId)
    | PassInbox(id: SubId)
    | LockToDelete(id: SubId)
    | DeleteNow(id: SubId)
    | HandOver(id: SubId)
    | StartSend
    | TakeInbox
    | Deliver(i: nat)
    | Finish

  const INITIAL := State([], [RemoveSub], map[], Free)

  predicate Enabled(s: State, step: Step) {
    match step
    case Subscribe(id, _) => id !in s.subs
    case LeaveInbox(id) => id in s.subs && s.subs[id].Live? && Find(s.inbox, s.subs[id].ch) != -1
    case PassInbox(id) => id in s.subs && s.subs[id].Live? && Find(s.inbox, s.subs[id].ch) == -1
    case LockToDelete(id) => s.lock.Free? && id in s.subs && s.subs[id].Removing?
    case DeleteNow(id) => s.lock == Deleting(id) && id in s.subs && s.subs[id].Removing?
    case HandOver(id) => s.lock.Sending? && s.lock.active > 1 && id in s.subs && s.subs[id].Removing?
    case StartSend => s.lock.Free?
    case TakeInbox => s.lock.Merging?
    case Deliver(i) => s.lock.Sending? && 1 <= i < s.lock.active <= |s.sendCases|
    case Finish => s.lock.Sending? && s.lock.active == 1
  }

  /** Deletion as the source does it, except that the panic on a missing channel is a no-op here. */
  function Without(cs: seq<Case>, ch: Channel): seq<Case> {
    if Find(cs, ch) == -1 then cs else Delete(cs, Find(cs, ch))
  }

  function Do(s: State, step: Step): State
    requires Enabled(s, step)
  {
    match step
    case Subscribe(id, ch) => s.(inbox := s.inbox + [SendTo(ch)], subs := s.subs[id := Live(ch)])
    case LeaveInbox(id) => s.(inbox := Without(s.inbox, s.subs[id].ch), subs := s.subs[id := Gone])
    case PassInbox(id) => s.(subs := s.subs[id := Removing(s.subs[id].ch)])
    case LockToDelete(id) => s.(lock := Deleting(id))
    case DeleteNow(id) => s.(sendCases := Without(s.sendCases, s.subs[id].ch), subs := s.subs[id := Gone], lock := Free)
    case HandOver(id) =>
      var i := Find(s.sendCases, s.subs[id].ch);
      var m := s.lock.active;
      if i == -1 then s else
      s.(sendCases := Delete(s.sendCases, i), subs := s.subs[id := Gone],
         lock := Sending(ActiveAfter(m, i), s.lock.books.Remove(s.sendCases[i], i < m)))
    case StartSend => s.(lock := Merging)
    case TakeInbox =>
      var cs := s.sendCases + s.inbox;
      s.(inbox := [], sendCases := cs, lock := Sending(|cs|, if cs == [] then Opened([RemoveSub]) else Opened(cs)))
    case Deliver(i) =>
      var m := s.lock.active;
      s.(sendCases := Deactivated(s.sendCases, m, i), lock := Sending(m - 1, s.lock.books.Deliver(s.sendCases[i])))
    case Finish => s.(lock := Free)
  }

  ghost predicate Legal(steps: seq<Step>)
    decreases |steps|, 0
  {
    steps == [] || (Legal(steps[..|steps| - 1]) && Enabled(After(steps[..|steps| - 1]), steps[|steps| - 1]))
  }

  ghost function After(steps: seq<Step>): State
    requires Legal(steps)
    decreases |steps|, 1
  {
    if steps == [] then INITIAL else Do(After(steps[..|steps| - 1]), steps[|steps| - 1])
  }

  // ---------- The invariant ----------

  ghost function Holders(subs: map<SubId, Sub>, ch: Channel): set<SubId> {
    set id | id in subs && (subs[id] == Live(ch) || subs[id] == Removing(ch))
  }

  ghost function Removers(subs: map<SubId, Sub>, ch: Channel): set<SubId> {
    set id | id in subs && subs[id] == Removing(ch)
  }

  /**
   * Each subscription to `ch` not yet removed is counted exactly once across inbox and send cases,
   * and removers past the inbox check never outnumber the matching send cases.
   */
  ghost predicate Counted(s: State, ch: Channel) {
    && multiset(s.inbox)[SendTo(ch)] + multiset(s.sendCases)[SendTo(ch)] == |Holders(s.subs, ch)|
    && |Removers(s.subs, ch)| <= multiset(s.sendCases)[SendTo(ch)]
  }

  ghost predicate Inv(s: State) {
    && Shaped(s.sendCases)
    && AllSendTo(s.inbox)
    && (forall ch :: Counted(s, ch))
    && (s.lock.Deleting? ==> s.lock.id in s.subs && s.subs[s.lock.id].Removing?)
    && (s.lock.Sending? ==> Progress(s.sendCases, s.lock.active, s.lock.books))
  }

  lemma WithoutCounts(cs: seq<Case>, ch: Channel)
    requires Find(cs, ch) != -1
    ensures multiset(cs) == multiset(Without(cs, ch)) + multiset{SendTo(ch)}
  {
    var i := Find(cs, ch);
    TakeOut(cs, 0, i, |cs|);
    assert cs[0..i] == cs[..i] && cs[i + 1..|cs|] == cs[i + 1..] && cs[0..|cs|] == cs;
  }

  ghost predicate AllSendTo(cs: seq<Case>) {
    forall k :: 0 <= k < |cs| ==> cs[k].SendTo?
  }

  lemma WithoutAllSendTo(cs: seq<Case>, ch: Channel)
    requires AllSendTo(cs)
    ensures AllSendTo(Without(cs, ch))
  {
  }

  /** How one subscription's change of state shows in the head counts of channel `ch`. */
  lemma SubChange(subs: map<SubId, Sub>, id: SubId, next: Sub, ch: Channel)
    ensures |Holders(subs[id := next], ch)| == |Holders(subs, ch) - {id}| + if next == Live(ch) || next == Removing(ch) then 1 else 0
    ensures |Removers(subs[id := next], ch)| == |Removers(subs, ch) - {id}| + if next == Removing(ch) then 1 else 0
    ensures |Holders(subs, ch)| == |Holders(subs, ch) - {id}| + if id in Holders(subs, ch) then 1 else 0
    ensures |Removers(subs, ch)| == |Removers(subs, ch) - {id}| + if id in Removers(subs, ch) then 1 else 0
  {
    WithAndWithout(Holders(subs, ch), Holders(subs[id := next], ch), id);
    WithAndWithout(Removers(subs, ch), Removers(subs[id := next], ch), id);
  }

  /** Two sets that differ at most in `id`. */
  lemma WithAndWithout(x: set<SubId>, y: set<SubId>, id: SubId)
    requires forall e :: e != id ==> (e in x <==> e in y)
    ensures |x| == |x - {id}| + if id in x then 1 else 0
    ensures |y| == |x - {id}| + if id in y then 1 else 0
  {
    assert x == if id in x then (x - {id}) + {id} else x - {id};
    assert y == if id in y then (x - {id}) + {id} else x - {id};
  }

  lemma PresentIsFound(cs: seq<Case>, ch: Channel)
    ensures multiset(cs)[SendTo(ch)] > 0 <==> Find(cs, ch) != -1
  {
    assert SendTo(ch) in multiset(cs) <==> SendTo(ch) in cs;
  }

  /** A remover past the inbox check always finds its channel, and not as the removal case. */
  lemma RemoverFinds(s: State, id: SubId)
    requires Inv(s) && id in s.subs && s.subs[id].Removing?
    ensures 1 <= Find(s.sendCases, s.subs[id].ch) < |s.sendCases|
  {
    var ch := s.subs[id].ch;
    assert Counted(s, ch) && id in Removers(s.subs, ch);
    assert |Removers(s.subs, ch)| > 0;
    PresentIsFound(s.sendCases, ch);
  }

  lemma RemovalKeepsCounts(s: State, id: SubId, next: State)
    requires Inv(s) && id in s.subs && s.subs[id].Removing?
    requires next.inbox == s.inbox && next.subs == s.subs[id := Gone]
    requires next.sendCases == Without(s.sendCases, s.subs[id].ch)
    ensures forall ch :: Counted(next, ch)
  {
    var c := s.subs[id].ch;
    RemoverFinds(s, id);
    WithoutCounts(s.sendCases, c);
    forall ch ensures Counted(next, ch) {
      assert Counted(s, ch);
      SubChange(s.subs, id, Gone, ch);
    }
  }

  lemma SubscribeKeeps(s: State, id: SubId, ch: Channel)
    requires Inv(s) && Enabled(s, Subscribe(id, ch))
    ensures Inv(Do(s, Subscribe(id, ch)))
  {
    var next := Do(s, Subscribe(id, ch));
    forall c ensures Counted(next, c) {
      SubscribeCounts(s, id, ch, c);
    }
  }

  lemma SubscribeCounts(s: State, id: SubId, ch: Channel, c: Channel)
    requires Counted(s, c) && Enabled(s, Subscribe(id, ch))
    ensures Counted(Do(s, Subscribe(id, ch)), c)
  {
    SubChange(s.subs, id, Live(ch), c);
    assert multiset(s.inbox + [SendTo(ch)]) == multiset(s.inbox) + multiset{SendTo(ch)};
  }

  lemma LeaveInboxKeeps(s: State, id: SubId)
    requires Inv(s) && Enabled(s, LeaveInbox(id))
    ensures Inv(Do(s, LeaveInbox(id)))
  {
    hide Progress, Without;
    var next := Do(s, LeaveInbox(id));
    WithoutCounts(s.inbox, s.subs[id].ch);
    WithoutAllSendTo(s.inbox, s.subs[id].ch);
    forall c ensures Counted(next, c) {
      assert Counted(s, c);
      SubChange(s.subs, id, Gone, c);
    }
  }

  /** A live subscription not in the inbox is one more holder than there are removers. */
  lemma PassInboxKeeps(s: State, id: SubId)
    requires Inv(s) && Enabled(s, PassInbox(id))
    ensures Inv(Do(s, PassInbox(id)))
  {
    var ch := s.subs[id].ch;
    var next := Do(s, PassInbox(id));
    PresentIsFound(s.inbox, ch);
    forall c ensures Counted(next, c) {
      assert Counted(s, c);
      SubChange(s.subs, id, Removing(ch), c);
      if c == ch {
        var holders, removers := Holders(s.subs, c), Removers(s.subs, c);
        assert removers <= holders - {id} && id in holders;
        SubsetSize(removers, holders - {id});
      }
    }
  }

  lemma HandOverKeeps(s: State, id: SubId)
    requires Inv(s) && Enabled(s, HandOver(id))
    ensures Inv(Do(s, HandOver(id)))
  {
    RemoverFinds(s, id);
    RemovalKeepsCounts(s, id, Do(s, HandOver(id)));
    RemoveKeeps(s.sendCases, s.lock.active, Find(s.sendCases, s.subs[id].ch), s.lock.books);
    DeleteShaped(s.sendCases, Find(s.sendCases, s.subs[id].ch));
  }

  lemma DeleteNowKeeps(s: State, id: SubId)
    requires Inv(s) && Enabled(s, DeleteNow(id))
    ensures Inv(Do(s, DeleteNow(id)))
  {
    RemoverFinds(s, id);
    RemovalKeepsCounts(s, id, Do(s, DeleteNow(id)));
    DeleteShaped(s.sendCases, Find(s.sendCases, s.subs[id].ch));
  }

  lemma TakeInboxKeeps(s: State)
    requires Inv(s) && Enabled(s, TakeInbox)
    ensures Inv(Do(s, TakeInbox))
  {
    var next := Do(s, TakeInbox);
    assert Shaped(next.sendCases);
    ProgressStarts(next.sendCases);
    forall c ensures Counted(next, c) {
      assert Counted(s, c);
    }
  }

  lemma DeactivatedSame(cs: seq<Case>, m: nat, i: nat)
    requires i < m <= |cs|
    ensures multiset(Deactivated(cs, m, i)) == multiset(cs)
    ensures i > 0 && Shaped(cs) ==> Shaped(Deactivated(cs, m, i))
  {
  }

  lemma SameCounts(s: State, next: State)
    requires forall ch :: Counted(s, ch)
    requires next.inbox == s.inbox && next.subs == s.subs && multiset(next.sendCases) == multiset(s.sendCases)
    ensures forall ch :: Counted(next, ch)
  {
    forall ch ensures Counted(next, ch) {
      assert Counted(s, ch);
    }
  }

  lemma DeliverKeepsInv(s: State, i: nat)
    requires Inv(s) && Enabled(s, Deliver(i))
    ensures Inv(Do(s, Deliver(i)))
  {
    hide Progress, Deactivated, Counted;
    DeliverKeeps(s.sendCases, s.lock.active, i, s.lock.books);
    DeactivatedSame(s.sendCases, s.lock.active, i);
    SameCounts(s, Do(s, Deliver(i)));
  }

  lemma StepKeeps(s: State, step: Step)
    requires Inv(s) && Enabled(s, step)
    ensures Inv(Do(s, step))
  {
    match step
    case Subscribe(id, ch) => SubscribeKeeps(s, id, ch);
    case LeaveInbox(id) => LeaveInboxKeeps(s, id);
    case PassInbox(id) => PassInboxKeeps(s, id);
    case DeleteNow(id) => DeleteNowKeeps(s, id);
    case HandOver(id) => HandOverKeeps(s, id);
    case TakeInbox => TakeInboxKeeps(s);
    case Deliver(i) => DeliverKeepsInv(s, i);
    case _ => forall ch ensures Counted(Do(s, step), ch) { assert Counted(s, ch); }
  }

  // ---------- Every interleaving ----------

  lemma {:induction false} AlwaysInv(steps: seq<Step>)
    requires Legal(steps)
    ensures Inv(After(steps))
  {
    if steps == [] {
      forall ch ensures Counted(INITIAL, ch) {
        assert Holders(map[], ch) == {} && Removers(map[], ch) == {};
      }
    } else {
      AlwaysInv(steps[..|steps| - 1]);
      StepKeeps(After(steps[..|steps| - 1]), steps[|steps| - 1]);
    }
  }

  /** In every interleaving, deletion from the send cases finds the channel: index -1 never occurs. */
  lemma DeletionNeverMisses(steps: seq<Step>, id: SubId)
    requires Legal(steps)
    requires Enabled(After(steps), DeleteNow(id)) || Enabled(After(steps), HandOver(id))
    ensures var s := After(steps); 1 <= Find(s.sendCases, s.subs[id].ch) < |s.sendCases|
  {
    AlwaysInv(steps);
    RemoverFinds(After(steps), id);
  }

  /** In every interleaving each subscription not yet removed is counted exactly once. */
  lemma CountedOnce(steps: seq<Step>, ch: Channel)
    requires Legal(steps)
    ensures var s := After(steps);
      multiset(s.inbox)[SendTo(ch)] + multiset(s.sendCases)[SendTo(ch)] == |Holders(s.subs, ch)|
  {
    AlwaysInv(steps);
    assert Counted(After(steps), ch);
  }

  /** When a Send finishes, every case present at its start was served or removed first, and the rest remains. */
  lemma FinishedSend(steps: seq<Step>)
    requires Legal(steps) && Enabled(After(steps), Finish)
    ensures var s := After(steps);
      var b := s.lock.books;
      s.sendCases != [] && b.initial == b.delivered + b.lost && multiset(s.sendCases[1..]) == b.initial - b.lost - b.gone
  {
    AlwaysInv(steps);
    ProgressEnds(After(steps).sendCases, After(steps).lock.books);
  }

  // ---------- A Send ends ----------

  predicate SendStep(step: Step) {
    step.Deliver? || step.HandOver?
  }

  /** Active cases plus all cases, while sending. */
  function Work(s: State): nat {
    if s.lock.Sending? then |s.sendCases| + s.lock.active else 0
  }

  /** Each step of a Send leaves less work and no other step adds any. */
  lemma WorkFalls(s: State, step: Step)
    requires Inv(s) && s.lock.Sending? && Enabled(s, step) && !step.Finish?
    ensures Do(s, step).lock.Sending? && Do(s, step).lock.books.initial == s.lock.books.initial
    ensures Work(Do(s, step)) + (if SendStep(step) then 1 else 0) <= Work(s)
  {
    if step.HandOver? {
      RemoverFinds(s, step.id);
    }
  }

  function SendSteps(steps: seq<Step>): nat {
    if steps == [] then 0 else SendSteps(steps[..|steps| - 1]) + if SendStep(steps[|steps| - 1]) then 1 else 0
  }

  /** However others interleave, one Send takes at most as many steps as it had work when it began. */
  lemma {:induction false} SendIsBounded(before: seq<Step>, during: seq<Step>)
    requires Legal(before) && Legal(before + during) && After(before).lock.Sending?
    requires forall i :: 0 <= i < |during| ==> during[i] != Finish
    ensures After(before + during).lock.Sending?
    ensures After(before + during).lock.books.initial == After(before).lock.books.initial
    ensures SendSteps(during) + Work(After(before + during)) <= Work(After(before))
    decreases during
  {
    if during == [] {
      assert before + during == before;
    } else {
      var init, last := during[..|during| - 1], during[|during| - 1];
      var all := before + during;
      assert all[..|all| - 1] == before + init && all[|all| - 1] == last;
      SendIsBounded(before, init);
      AlwaysInv(before + init);
      WorkFalls(After(before + init), last);
    }
  }

  // ---------- The array-level Send as part of a run ----------

  ghost predicate InPhase(s: State, p: Phase) {
    s.sendCases == p.cs && s.lock == Sending(p.m, p.books)
  }

  /** For every removal a subscription to its channel waits to be removed, each another one. */
  ghost predicate Waiting(subs: map<SubId, Sub>, turns: seq<Turn>, ids: seq<SubId>)
    requires |ids| == |turns|
  {
    turns == [] ||
    var n := |turns| - 1;
    && Waiting(subs, turns[..n], ids[..n])
    && (turns[n].Removal? ==> ids[n] in subs && subs[ids[n]] == Removing(turns[n].ch) && ids[n] !in ids[..n])
  }

  function StepOf(t: Turn, id: SubId): Step {
    if t.Delivery? then Deliver(t.i) else HandOver(id)
  }

  function StepsOf(turns: seq<Turn>, ids: seq<SubId>): seq<Step>
    requires |ids| == |turns|
  {
    seq(|turns|, k requires 0 <= k < |turns| => StepOf(turns[k], ids[k]))
  }

  /** One turn of the array-level Send is one step of the protocol. */
  lemma TurnIsStep(s: State, p: Phase, t: Turn, id: SubId)
    requires InPhase(s, p) && CanPlay(p, t) && (t.Removal? ==> id in s.subs && s.subs[id] == Removing(t.ch))
    ensures Enabled(s, StepOf(t, id)) && InPhase(Do(s, StepOf(t, id)), Play(p, t))
    ensures forall other :: other in s.subs && other != id ==>
      other in Do(s, StepOf(t, id)).subs && Do(s, StepOf(t, id)).subs[other] == s.subs[other]
  {
  }

  /**
   * Whatever turns the array-level Send takes, they are a legal continuation of any run that is in
   * its first phase and has removers waiting for its removals, and lead to its last phase.
   */
  lemma {:induction false} SendIsRun(before: seq<Step>, p: Phase, turns: seq<Turn>, q: Phase, ids: seq<SubId>)
    requires Legal(before) && InPhase(After(before), p) && Plays(p, turns, q)
    requires |ids| == |turns| && Waiting(After(before).subs, turns, ids)
    ensures Legal(before + StepsOf(turns, ids)) && InPhase(After(before + StepsOf(turns, ids)), q)
    ensures forall id :: id in After(before).subs && id !in ids ==>
      var t := After(before + StepsOf(turns, ids));
      id in t.subs && t.subs[id] == After(before).subs[id]
    decreases |turns|
  {
    hide Play, CanPlay, Enabled, Do, InPhase;
    var all := before + StepsOf(turns, ids);
    if turns == [] {
      assert all == before;
    } else {
      var n := |turns| - 1;
      var mid :| Plays(p, turns[..n], mid) && CanPlay(mid, turns[n]) && q == Play(mid, turns[n]);
      SendIsRun(before, p, turns[..n], mid, ids[..n]);
      var most := before + StepsOf(turns[..n], ids[..n]);
      assert all[..|all| - 1] == most && all[|all| - 1] == StepOf(turns[n], ids[n]);
      TurnIsStep(After(most), mid, turns[n], ids[n]);
    }
  }
}
