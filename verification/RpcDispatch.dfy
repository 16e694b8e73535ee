/** The RPC client's dispatch loop: every run of its events. */
module RpcDispatch {
  import opened Basics

  newtype Id = x: int | 0 <= x

  newtype SubId = x: int | 0 <= x

  /** Identity of one request operation. */
  newtype OpId = x: int | 0 <= x

  datatype Payload = Error(code: int) | NoResult | Result(value: int)

  datatype Reply = Reply(id: Id, payload: Payload)

  /** `started` is the subscription id in the result, if it can be decoded as one. */
  datatype Msg = Notification | Response(reply: Reply, started: Option<SubId>) | Weird

  /**
   * `sent` is everything ever sent on the response channel, whose capacity is the number of ids;
   * `closes` counts how often the channel was closed, `failed` records a failed write.
   */
  datatype Op = Op(ids: seq<Id>, sub: bool, sent: seq<Reply>, closes: nat, failed: bool, err: bool)

  /** `fault` records a double close, a send on a closed channel or a send that would block. */
  datatype State = State(respWait: map<Id, OpId>, ops: map<OpId, Op>, lastOp: Option<OpId>,
                         subs: map<SubId, OpId>, reading: bool, fault: bool, done: bool)
  {
    function OpAt(o: OpId): Op {
      if o in ops then ops[o] else Op([], false, [], 0, false, false)
    }
  }

  datatype Event =
    | Close
    | Read(batch: seq<Msg>)
    | ReadErr
    | Reconnected
    | RequestOp(op: OpId, ids: seq<Id>, sub: bool)
    | SendDone(ok: bool)

  const INITIAL := State(map[], map[], None, map[], true, false, false)

  // ---------- Sequences of ids and replies ----------

  function IdSet(ids: seq<Id>): set<Id> {
    set id | id in ids
  }

  function Answered(sent: seq<Reply>): set<Id> {
    if sent == [] then {} else Answered(sent[..|sent| - 1]) + {sent[|sent| - 1].id}
  }

  predicate Distinct(ids: seq<Id>) {
    ids == [] || (Distinct(ids[..|ids| - 1]) && ids[|ids| - 1] !in ids[..|ids| - 1])
  }

  /** No two replies have the same id. */
  predicate DistinctReplies(sent: seq<Reply>) {
    sent == [] || (DistinctReplies(sent[..|sent| - 1]) && sent[|sent| - 1].id !in Answered(sent[..|sent| - 1]))
  }

  lemma AnsweredAppend(sent: seq<Reply>, r: Reply)
    ensures Answered(sent + [r]) == Answered(sent) + {r.id}
    ensures DistinctReplies(sent + [r]) <==> DistinctReplies(sent) && r.id !in Answered(sent)
  {
    assert (sent + [r])[..|sent|] == sent;
  }

  lemma {:induction false} AnsweredSize(sent: seq<Reply>)
    requires DistinctReplies(sent)
    ensures |Answered(sent)| == |sent|
  {
    if sent != [] {
      AnsweredSize(sent[..|sent| - 1]);
    }
  }

  lemma {:induction false} IdSetSize(ids: seq<Id>)
    ensures |IdSet(ids)| <= |ids|
    ensures Distinct(ids) ==> |IdSet(ids)| == |ids|
  {
    if ids == [] {
      assert IdSet(ids) == {};
    } else {
      var init, last := ids[..|ids| - 1], ids[|ids| - 1];
      IdSetSize(init);
      assert ids == init + [last];
      assert IdSet(ids) == IdSet(init) + {last};
    }
  }

  // ---------- One step ----------

  /** The ids of a new operation are distinct and none of them is outstanding; a subscription asks for one. */
  predicate Enabled(s: State, e: Event) {
    !s.done &&
    match e
    case Read(_) => s.reading
    case ReadErr => s.reading
    case RequestOp(o, ids, sub) =>
      s.lastOp.None? && o !in s.ops && Distinct(ids) && IdSet(ids) !! s.respWait.Keys && (sub ==> |ids| == 1)
    case SendDone(_) => s.lastOp.Some?
    case _ => true
  }

  function Respond(s: State, m: Msg): State {
    if !m.Response? || m.reply.id !in s.respWait then s
    else
      var o := s.respWait[m.reply.id];
      var op := s.OpAt(o);
      var t := s.(respWait := s.respWait - {m.reply.id});
      if !op.sub then
        t.(ops := s.ops[o := op.(sent := op.sent + [m.reply])],
           fault := s.fault || op.closes > 0 || |op.sent| >= |op.ids|)
      else
        var ok := !m.reply.payload.Error? && m.started.Some?;
        t.(ops := s.ops[o := op.(closes := op.closes + 1, err := !ok)],
           subs := if ok then s.subs[m.started.value := o] else s.subs,
           fault := s.fault || op.closes > 0)
  }

  function RespondAll(s: State, batch: seq<Msg>): State {
    if batch == [] then s else Respond(RespondAll(s, batch[..|batch| - 1]), batch[|batch| - 1])
  }

  /** Operation `o` once its channel was closed with an error. */
  function Shut(op: Op): Op {
    op.(closes := op.closes + 1, err := true)
  }

  function ShutSome(ops: map<OpId, Op>, some: set<OpId>): map<OpId, Op> {
    map o | o in ops :: if o in some then Shut(ops[o]) else ops[o]
  }

  ghost function CloseAll(s: State): State {
    s.(respWait := map[], subs := map[], ops := ShutSome(s.ops, s.respWait.Values),
       fault := s.fault || exists o :: o in s.respWait.Values && s.OpAt(o).closes > 0)
  }

  function Registered(wait: map<Id, OpId>, ids: seq<Id>, o: OpId): map<Id, OpId> {
    wait + map id | id in ids :: o
  }

  ghost function Do(s: State, e: Event): State
    requires Enabled(s, e)
  {
    match e
    case Close => CloseAll(s).(done := true)
    case Read(batch) => RespondAll(s, batch)
    case ReadErr => CloseAll(s).(reading := false)
    case Reconnected => s.(reading := true)
    case RequestOp(o, ids, sub) =>
      s.(ops := s.ops[o := Op(ids, sub, [], 0, false, false)], lastOp := Some(o),
         respWait := Registered(s.respWait, ids, o))
    case SendDone(ok) =>
      if ok then s.(lastOp := None)
      else
        var op := s.OpAt(s.lastOp.value);
        s.(lastOp := None, respWait := s.respWait - IdSet(op.ids),
           ops := s.ops[s.lastOp.value := op.(failed := true)])
  }

  ghost predicate Legal(events: seq<Event>)
    decreases |events|, 0
  {
    events == [] || (Legal(events[..|events| - 1]) && Enabled(After(events[..|events| - 1]), events[|events| - 1]))
  }

  ghost function After(events: seq<Event>): State
    requires Legal(events)
    decreases |events|, 1
  {
    if events == [] then INITIAL else Do(After(events[..|events| - 1]), events[|events| - 1])
  }

  // ---------- The invariant ----------

  ghost predicate Waits(s: State, o: OpId, id: Id) {
    id in s.respWait && s.respWait[id] == o
  }

  /** An outstanding id belongs to its operation, was not answered, and the channel is open. */
  ghost predicate EntryOk(s: State, id: Id) {
    id in s.respWait ==>
      var o := s.respWait[id];
      && o in s.ops
      && id in s.ops[o].ids && id !in Answered(s.ops[o].sent)
      && s.ops[o].closes == 0 && !s.ops[o].failed
  }

  ghost predicate IdOk(s: State, o: OpId, id: Id) {
    o in s.ops && id in s.ops[o].ids ==>
      Waits(s, o, id) || id in Answered(s.ops[o].sent) || s.ops[o].failed || s.ops[o].closes > 0
  }

  ghost predicate OpOk(op: Op) {
    && Distinct(op.ids) && DistinctReplies(op.sent) && Answered(op.sent) <= IdSet(op.ids)
    && op.closes <= 1
    && (op.sub ==> |op.ids| == 1 && op.sent == [])
    && (!op.sub && op.closes > 0 ==> op.err)
  }

  ghost predicate OpsOk(s: State) {
    forall o :: o in s.ops ==> OpOk(s.ops[o])
  }

  ghost predicate EntriesOk(s: State) {
    forall id :: EntryOk(s, id)
  }

  ghost predicate IdsOk(s: State) {
    forall o, id :: IdOk(s, o, id)
  }

  /** While a write is under way, its ids are outstanding for no other operation. */
  ghost predicate LastOk(s: State) {
    s.lastOp.Some? ==>
      s.lastOp.value in s.ops &&
      forall id :: id in s.ops[s.lastOp.value].ids && id in s.respWait ==> s.respWait[id] == s.lastOp.value
  }

  ghost predicate Inv(s: State) {
    !s.fault && OpsOk(s) && EntriesOk(s) && IdsOk(s) && LastOk(s) && (s.done ==> s.respWait == map[])
  }

  /** A channel with an outstanding id has room for its reply. */
  lemma RoomForReply(op: Op, id: Id)
    requires OpOk(op) && id in op.ids && id !in Answered(op.sent)
    ensures |op.sent| < |op.ids|
  {
    AnsweredSize(op.sent);
    IdSetSize(op.ids);
    SubsetSize(Answered(op.sent) + {id}, IdSet(op.ids));
  }

  /** Everything but the faults survives settling the outstanding id `x` of `o`, if the new record of `o` accounts for it. */
  lemma SettleKeeps(s: State, x: Id, o: OpId, op: Op, t: State)
    requires Inv(s) && !s.done && Waits(s, o, x) && o in s.ops
    requires t.respWait == s.respWait - {x} && t.ops == s.ops[o := op] && t.lastOp == s.lastOp && !t.done
    requires op.ids == s.ops[o].ids && OpOk(op) && op.failed == s.ops[o].failed
    requires Answered(s.ops[o].sent) <= Answered(op.sent) <= Answered(s.ops[o].sent) + {x}
    requires x in Answered(op.sent) || op.closes > 0
    requires op.closes > 0 ==> op.ids == [x]
    ensures OpsOk(t) && EntriesOk(t) && IdsOk(t) && LastOk(t)
  {
    forall id ensures EntryOk(t, id) {
      assert EntryOk(s, id);
      assert op.closes > 0 && id in op.ids ==> id == x;
    }
    forall p, id ensures IdOk(t, p, id) {
      assert IdOk(s, p, id);
      assert EntryOk(s, x);
      assert Waits(s, p, id) && id != x ==> Waits(t, p, id);
    }
  }

  lemma RespondKeeps(s: State, m: Msg)
    requires Inv(s) && !s.done
    ensures Inv(Respond(s, m)) && !Respond(s, m).done
  {
    hide Distinct;
    if m.Response? && m.reply.id in s.respWait {
      var o := s.respWait[m.reply.id];
      var op := s.OpAt(o);
      var t := Respond(s, m);
      assert EntryOk(s, m.reply.id) && OpOk(op);
      RoomForReply(op, m.reply.id);
      AnsweredAppend(op.sent, m.reply);
      SettleKeeps(s, m.reply.id, o, t.ops[o], t);
    }
  }

  lemma {:induction false} RespondAllKeeps(s: State, batch: seq<Msg>)
    requires Inv(s) && !s.done
    ensures Inv(RespondAll(s, batch)) && !RespondAll(s, batch).done
  {
    if batch != [] {
      RespondAllKeeps(s, batch[..|batch| - 1]);
      RespondKeeps(RespondAll(s, batch[..|batch| - 1]), batch[|batch| - 1]);
    }
  }

  lemma CloseAllKeeps(s: State)
    requires Inv(s)
    ensures var t := CloseAll(s); Inv(t) && Inv(t.(done := true)) && Inv(t.(reading := false))
    ensures s.respWait.Values <= s.ops.Keys
    ensures CloseAll(s) == s.(respWait := map[], subs := map[], ops := ShutSome(s.ops, s.respWait.Values))
  {
    var t := CloseAll(s);
    assert forall id :: id in s.respWait ==> s.respWait[id] in s.respWait.Values;
    forall o | o in s.respWait.Values ensures o in s.ops && s.ops[o].closes == 0 {
      var id :| id in s.respWait && s.respWait[id] == o;
      assert EntryOk(s, id);
    }
    forall id ensures EntryOk(t, id) {
    }
    forall o, id ensures IdOk(t, o, id) {
      assert IdOk(s, o, id);
    }
    SameInv(t, t.(done := true));
    SameInv(t, t.(reading := false));
  }

  /** The invariant does not look at the reader or the subscriptions, nor at the end once nothing is outstanding. */
  lemma SameInv(s: State, t: State)
    requires Inv(s) && t.respWait == s.respWait && t.ops == s.ops && t.lastOp == s.lastOp && t.fault == s.fault
    requires s.respWait == map[] || t.done == s.done
    ensures Inv(t)
  {
    forall id ensures EntryOk(t, id) {
      assert EntryOk(s, id);
    }
    forall o, id ensures IdOk(t, o, id) {
      assert IdOk(s, o, id);
      assert Waits(s, o, id) == Waits(t, o, id);
    }
  }

  lemma RegisteredEntries(s: State, e: Event)
    requires Inv(s) && e.RequestOp? && Enabled(s, e)
    ensures EntriesOk(Do(s, e)) && OpsOk(Do(s, e)) && LastOk(Do(s, e))
  {
    hide IdsOk, Distinct;
    var t := Do(s, e);
    assert OpOk(t.ops[e.op]) by { assert Answered([]) == {} && DistinctReplies([]); }
    forall id ensures EntryOk(t, id) {
      assert EntryOk(s, id);
    }
  }

  lemma RegisterKeeps(s: State, e: Event)
    requires Inv(s) && e.RequestOp? && Enabled(s, e)
    ensures Inv(Do(s, e))
  {
    RegisteredEntries(s, e);
    hide OpsOk, LastOk, Distinct;
    var t := Do(s, e);
    forall o, id ensures IdOk(t, o, id) {
      assert IdOk(s, o, id) && EntryOk(s, id);
      assert o in s.ops && Waits(s, o, id) ==> id !in IdSet(e.ids);
      assert o in s.ops && Waits(s, o, id) ==> Waits(t, o, id);
      assert id in e.ids ==> Waits(t, e.op, id);
    }
  }

  lemma SendDoneKeeps(s: State, e: Event)
    requires Inv(s) && e.SendDone? && Enabled(s, e)
    ensures Inv(Do(s, e))
  {
    var t := Do(s, e);
    forall id ensures EntryOk(t, id) {
      assert EntryOk(s, id);
    }
    forall o, id ensures IdOk(t, o, id) {
      assert IdOk(s, o, id);
      assert Waits(s, o, id) && !Waits(t, o, id) ==> o == s.lastOp.value;
    }
  }

  lemma StepKeeps(s: State, e: Event)
    requires Inv(s) && Enabled(s, e)
    ensures Inv(Do(s, e))
  {
    hide OpsOk, EntriesOk, IdsOk, LastOk;
    match e
    case Close => CloseAllKeeps(s);
    case Read(batch) => RespondAllKeeps(s, batch);
    case ReadErr => CloseAllKeeps(s);
    case Reconnected => SameInv(s, Do(s, e));
    case RequestOp(_, _, _) => RegisterKeeps(s, e);
    case SendDone(_) => SendDoneKeeps(s, e);
  }

  lemma {:induction false} AlwaysInv(events: seq<Event>)
    requires Legal(events)
    ensures Inv(After(events))
  {
    hide OpsOk, EntriesOk, IdsOk, LastOk;
    if events == [] {
      InitialInv();
    } else {
      AlwaysInv(events[..|events| - 1]);
      StepKeeps(After(events[..|events| - 1]), events[|events| - 1]);
    }
  }

  lemma InitialInv()
    ensures Inv(INITIAL)
  {
  }

  // ---------- Every run ----------

  /** No channel is closed twice, sent to after closing, or sent to when full. */
  lemma NeverFaults(events: seq<Event>, o: OpId)
    requires Legal(events)
    ensures !After(events).fault && After(events).OpAt(o).closes <= 1
  {
    AlwaysInv(events);
  }

  /** The replies on a channel answer distinct ids of its operation; a plain one is closed only with an error. */
  lemma RepliesMatch(events: seq<Event>, o: OpId)
    requires Legal(events) && o in After(events).ops
    ensures var op := After(events).ops[o];
      && DistinctReplies(op.sent) && Answered(op.sent) <= IdSet(op.ids) && |op.sent| <= |op.ids|
      && (!op.sub && op.closes > 0 ==> op.err)
  {
    AlwaysInv(events);
    var op := After(events).ops[o];
    assert OpOk(op);
    AnsweredSize(op.sent);
    IdSetSize(op.ids);
    SubsetSize(Answered(op.sent), IdSet(op.ids));
  }

  /** At exit every id ever registered was answered, taken back after a failed write, or its channel closed. */
  lemma ExitSettlesAll(events: seq<Event>, o: OpId, id: Id)
    requires Legal(events) && After(events).done && o in After(events).ops && id in After(events).ops[o].ids
    ensures var op := After(events).ops[o];
      id in Answered(op.sent) || op.failed || op.closes == 1
  {
    AlwaysInv(events);
    assert IdOk(After(events), o, id) && OpOk(After(events).ops[o]);
  }

  // ---------- Subscriptions ----------

  /** An active subscription belongs to a request that was answered well. */
  ghost predicate SubOk(s: State, k: SubId) {
    k in s.subs ==>
      var o := s.subs[k];
      o in s.ops && s.ops[o].sub && s.ops[o].closes == 1 && !s.ops[o].err
  }

  ghost predicate SubsOk(s: State) {
    (forall k :: SubOk(s, k)) && (s.done ==> s.subs == map[])
  }

  lemma RespondSubs(s: State, m: Msg)
    requires Inv(s) && !s.done && SubsOk(s)
    ensures SubsOk(Respond(s, m))
  {
    hide IdsOk, LastOk, OpsOk;
    if m.Response? && m.reply.id in s.respWait {
      assert EntryOk(s, m.reply.id);
      forall k ensures SubOk(Respond(s, m), k) {
        assert SubOk(s, k);
      }
    }
  }

  lemma {:induction false} RespondAllSubs(s: State, batch: seq<Msg>)
    requires Inv(s) && !s.done && SubsOk(s)
    ensures SubsOk(RespondAll(s, batch))
  {
    hide Inv, SubsOk;
    if batch != [] {
      RespondAllSubs(s, batch[..|batch| - 1]);
      RespondAllKeeps(s, batch[..|batch| - 1]);
      RespondSubs(RespondAll(s, batch[..|batch| - 1]), batch[|batch| - 1]);
    }
  }

  lemma SubsKeep(s: State, e: Event)
    requires Inv(s) && SubsOk(s) && Enabled(s, e)
    ensures SubsOk(Do(s, e))
  {
    if e.Read? {
      RespondAllSubs(s, e.batch);
    } else {
      hide EntriesOk, IdsOk, OpsOk;
      forall k ensures SubOk(Do(s, e), k) {
        assert SubOk(s, k);
      }
    }
  }

  lemma {:induction false} AlwaysSubs(events: seq<Event>)
    requires Legal(events)
    ensures SubsOk(After(events))
  {
    if events != [] {
      AlwaysInv(events[..|events| - 1]);
      AlwaysSubs(events[..|events| - 1]);
      hide Inv, SubsOk, Do;
      SubsKeep(After(events[..|events| - 1]), events[|events| - 1]);
    }
  }

  /** In every run each active subscription's request was answered without error, and none is left at exit. */
  lemma SubscriptionsAnswered(events: seq<Event>, k: SubId)
    requires Legal(events) && k in After(events).subs
    ensures var s := After(events);
      && !s.done && s.subs[k] in s.ops
      && s.ops[s.subs[k]].sub && s.ops[s.subs[k]].closes == 1 && !s.ops[s.subs[k]].err
  {
    AlwaysSubs(events);
    assert SubOk(After(events), k);
  }

  /** `rest` is what is left of `all` after visiting entries of the operations in `seen`. */
  ghost predicate Visited(all: map<Id, OpId>, rest: map<Id, OpId>, seen: set<OpId>) {
    && (forall id :: id in rest ==> id in all && rest[id] == all[id])
    && (forall id :: id in all && id !in rest ==> all[id] in seen)
  }

  lemma VisitStart(all: map<Id, OpId>)
    ensures Visited(all, all, {})
  {
  }

  lemma VisitNext(all: map<Id, OpId>, rest: map<Id, OpId>, seen: set<OpId>, id: Id)
    requires Visited(all, rest, seen) && id in rest
    ensures rest[id] in all.Values && Visited(all, rest - {id}, seen + {rest[id]})
    ensures rest[id] in seen ==> Visited(all, rest - {id}, seen)
  {
  }

  lemma ShutNone(ops: map<OpId, Op>)
    ensures ShutSome(ops, {}) == ops
  {
  }

  lemma ShutNext(ops: map<OpId, Op>, seen: set<OpId>, o: OpId)
    requires o in ops
    ensures o in ShutSome(ops, seen)
    ensures o !in seen ==> ShutSome(ops, seen)[o] == ops[o]
    ensures o !in seen ==> ShutSome(ops, seen)[o := Shut(ops[o])] == ShutSome(ops, seen + {o})
  {
  }

  lemma VisitedAll(all: map<Id, OpId>, seen: set<OpId>)
    requires Visited(all, map[], seen) && seen <= all.Values
    ensures seen == all.Values
  {
    forall o | o in all.Values ensures o in seen {
      var id :| id in all && all[id] == o;
    }
  }

  lemma RegisterNone(wait: map<Id, OpId>, ids: seq<Id>, o: OpId)
    ensures Registered(wait, ids[..0], o) == wait
  {
  }

  lemma RegisterNext(wait: map<Id, OpId>, ids: seq<Id>, i: nat, o: OpId)
    requires i < |ids|
    ensures Registered(wait, ids[..i + 1], o) == Registered(wait, ids[..i], o)[ids[i] := o]
  {
    assert ids[..i + 1] == ids[..i] + [ids[i]];
  }

  lemma DropNone(wait: map<Id, OpId>)
    ensures IdSet([]) == {} && wait - {} == wait
  {
  }

  lemma DropNext(wait: map<Id, OpId>, ids: seq<Id>, i: nat)
    requires i < |ids|
    ensures wait - IdSet(ids[..i + 1]) == wait - IdSet(ids[..i]) - {ids[i]}
  {
    assert ids[..i + 1] == ids[..i] + [ids[i]];
    assert IdSet(ids[..i + 1]) == IdSet(ids[..i]) + {ids[i]};
  }

  // ---------- The client's own operations ----------

  class Client {
    var respWait: map<Id, OpId>
    var ops: map<OpId, Op>
    var lastOp: Option<OpId>
    var subs: map<SubId, OpId>
    var reading: bool
    var done: bool

    ghost function Value(): State
      reads this
    {
      State(respWait, ops, lastOp, subs, reading, false, done)
    }

    constructor ()
      ensures Value() == INITIAL
    {
      respWait, ops, lastOp, subs, reading, done := map[], map[], None, map[], true, false;
    }

    method HandleResponse(m: Msg)
      requires Inv(Value()) && !done && m.Response?
      modifies this
      ensures Value() == Respond(old(Value()), m) && Inv(Value()) && !done
    {
      RespondKeeps(Value(), m);
      var id := m.reply.id;
      assert EntryOk(Value(), id);
      if id !in respWait {
        return;
      }
      var o := respWait[id];
      var op := ops[o];
      respWait := respWait - {id};
      if !op.sub {
        ops := ops[o := op.(sent := op.sent + [m.reply])];
        return;
      }
      var ok := !m.reply.payload.Error? && m.started.Some?;
      if ok {
        subs := subs[m.started.value := o];
      }
      ops := ops[o := op.(closes := op.closes + 1, err := !ok)];
    }

    /** Entries are visited in any order; an operation with several of them is closed once. */
    method CloseRequestOps()
      requires Inv(Value())
      modifies this
      ensures Value() == CloseAll(old(Value())) && Inv(Value())
    {
      hide Inv, ShutSome, Visited, CloseAll, Shut;
      ghost var s := Value();
      CloseAllKeeps(s);
      var didClose: set<OpId> := {};
      ShutNone(ops);
      VisitStart(respWait);
      while respWait != map[]
        invariant Value() == s.(respWait := respWait, ops := ops)
        invariant didClose <= s.respWait.Values && ops == ShutSome(s.ops, didClose)
        invariant Visited(s.respWait, respWait, didClose)
        decreases |respWait|
      {
        var id :| id in respWait;
        var o := respWait[id];
        VisitNext(s.respWait, respWait, didClose, id);
        respWait := respWait - {id};
        ShutNext(s.ops, didClose, o);
        if o !in didClose {
          ops := ops[o := Shut(ops[o])];
          didClose := didClose + {o};
        }
      }
      VisitedAll(s.respWait, didClose);
      subs := map[];
    }

    /** Takes the write lock and registers the operation under each of its ids. */
    method Register(o: OpId, ids: seq<Id>, sub: bool)
      requires Inv(Value()) && Enabled(Value(), RequestOp(o, ids, sub))
      modifies this
      ensures Value() == Do(old(Value()), RequestOp(o, ids, sub))
    {
      hide Inv, Enabled, Registered;
      ghost var s := Value();
      RegisterNone(respWait, ids, o);
      ops := ops[o := Op(ids, sub, [], 0, false, false)];
      lastOp := Some(o);
      for i := 0 to |ids|
        invariant Value() == s.(respWait := respWait, ops := ops, lastOp := lastOp)
        invariant ops == s.ops[o := Op(ids, sub, [], 0, false, false)] && lastOp == Some(o)
        invariant respWait == Registered(s.respWait, ids[..i], o)
      {
        RegisterNext(s.respWait, ids, i, o);
        respWait := respWait[ids[i] := o];
      }
      assert ids[..|ids|] == ids;
    }

    /** Releases the write lock; after a failed write the ids of the last operation are taken back. */
    method FinishSend(ok: bool)
      requires Inv(Value()) && Enabled(Value(), SendDone(ok))
      modifies this
      ensures Value() == Do(old(Value()), SendDone(ok))
    {
      ghost var s := Value();
      var o := lastOp.value;
      var op := ops[o];
      hide Inv, IdSet, Distinct;
      if !ok {
        assert op.ids[..0] == [] && IdSet([]) == {} && respWait - {} == respWait by { DropNone(respWait); }
        ops := ops[o := op.(failed := true)];
        for i := 0 to |op.ids|
          invariant Value() == s.(respWait := respWait, ops := ops)
          invariant ops == s.ops[o := op.(failed := true)]
          invariant respWait == s.respWait - IdSet(op.ids[..i])
        {
          DropNext(s.respWait, op.ids, i);
          respWait := respWait - {op.ids[i]};
        }
        assert op.ids[..|op.ids|] == op.ids;
      }
      lastOp := None;
    }

    method HandleBatch(batch: seq<Msg>)
      requires Inv(Value()) && !done
      modifies this
      ensures Value() == RespondAll(old(Value()), batch)
    {
      hide Inv;
      for i := 0 to |batch|
        invariant Value() == RespondAll(old(Value()), batch[..i]) && Inv(Value()) && !done
      {
        assert batch[..i + 1][..i] == batch[..i];
        if batch[i].Response? {
          HandleResponse(batch[i]);
        }
      }
      assert batch[..|batch|] == batch;
    }

    /** One turn of the loop. */
    method Turn(e: Event)
      requires Inv(Value()) && Enabled(Value(), e)
      modifies this
      ensures Value() == Do(old(Value()), e) && Inv(Value())
    {
      StepKeeps(Value(), e);
      hide Inv, CloseAll, RespondAll;
      match e {
        case Close =>
          CloseRequestOps();
          done := true;
        case Read(batch) =>
          HandleBatch(batch);
        case ReadErr =>
          CloseRequestOps();
          reading := false;
        case Reconnected =>
          reading := true;
        case RequestOp(o, ids, sub) =>
          Register(o, ids, sub);
        case SendDone(ok) =>
          FinishSend(ok);
      }
    }

    method Dispatch(events: seq<Event>)
      requires Value() == INITIAL && Legal(events)
      modifies this
      ensures Value() == After(events)
    {
      hide Inv;
      InitialInv();
      LegalPrefix(events, 0);
      assert events[..0] == [];
      for i := 0 to |events|
        invariant Legal(events[..i]) && Value() == After(events[..i]) && Inv(Value())
      {
        LegalPrefix(events, i + 1);
        assert events[..i + 1][..i] == events[..i];
        Turn(events[i]);
      }
      assert events[..|events|] == events;
    }
  }

  lemma {:induction false} LegalPrefix(events: seq<Event>, n: nat)
    requires Legal(events) && n <= |events|
    ensures Legal(events[..n])
    decreases |events| - n
  {
    if n == |events| {
      assert events[..n] == events;
    } else {
      LegalPrefix(events, n + 1);
      assert events[..n + 1][..n] == events[..n];
    }
  }

  // ---------- A batch call ----------

  /** What the replies say about `id`. */
  function Outcome(replies: seq<Reply>, id: Id): Option<Payload> {
    if replies == [] then None
    else if replies[|replies| - 1].id == id then Some(replies[|replies| - 1].payload)
    else Outcome(replies[..|replies| - 1], id)
  }

  lemma {:induction false} OutcomeAnswered(replies: seq<Reply>, id: Id)
    ensures Outcome(replies, id).Some? <==> id in Answered(replies)
  {
    if replies != [] {
      OutcomeAnswered(replies[..|replies| - 1], id);
    }
  }

  lemma {:induction false} DistinctAt(ids: seq<Id>, i: nat, j: nat)
    requires Distinct(ids) && i < |ids| && j < |ids| && ids[i] == ids[j]
    ensures i == j
  {
    var n := |ids| - 1;
    assert forall k :: 0 <= k < n ==> ids[k] in ids[..n];
    if i < n && j < n {
      DistinctAt(ids[..n], i, j);
    }
  }

  /** The element a reply belongs to; the search never comes back empty-handed. */
  method FindElem(ids: seq<Id>, id: Id) returns (i: nat)
    requires id in ids
    ensures i < |ids| && ids[i] == id && id !in ids[..i]
  {
    i := 0;
    while ids[i] != id
      invariant i < |ids| && id !in ids[..i]
      decreases |ids| - i
    {
      assert ids[..i + 1] == ids[..i] + [ids[i]];
      i := i + 1;
      assert ids[..|ids|] == ids;
    }
  }

  /** Fills in the elements of a batch from the replies on its channel, in whatever order they came. */
  method CollectBatch(ids: seq<Id>, replies: seq<Reply>) returns (elems: seq<Option<Payload>>)
    requires Distinct(ids) && Answered(replies) <= IdSet(ids)
    ensures |elems| == |ids| && forall i :: 0 <= i < |ids| ==> elems[i] == Outcome(replies, ids[i])
  {
    elems := seq(|ids|, _ => None);
    for n := 0 to |replies|
      invariant |elems| == |ids| && forall i :: 0 <= i < |ids| ==> elems[i] == Outcome(replies[..n], ids[i])
    {
      var upTo := replies[..n + 1];
      assert upTo[..n] == replies[..n] && upTo[n] == replies[n];
      AnsweredAt(replies, n);
      var k := FindElem(ids, replies[n].id);
      forall i | 0 <= i < |ids| ensures elems[k := Some(replies[n].payload)][i] == Outcome(upTo, ids[i]) {
        if ids[i] == replies[n].id {
          DistinctAt(ids, i, k);
        }
      }
      elems := elems[k := Some(replies[n].payload)];
    }
    assert replies[..|replies|] == replies;
  }

  lemma {:induction false} AnsweredAt(replies: seq<Reply>, n: nat)
    requires n < |replies|
    ensures replies[n].id in Answered(replies)
  {
    if n < |replies| - 1 {
      AnsweredAt(replies[..|replies| - 1], n);
    }
  }

  /** In every run, whatever has arrived on an operation's channel can be matched to its elements. */
  lemma {:induction false} BatchMatches(events: seq<Event>, o: OpId, n: nat)
    requires Legal(events) && o in After(events).ops && n <= |After(events).ops[o].sent|
    ensures var op := After(events).ops[o];
      Distinct(op.ids) && DistinctReplies(op.sent[..n]) && Answered(op.sent[..n]) <= IdSet(op.ids)
  {
    var op := After(events).ops[o];
    AlwaysInv(events);
    assert OpOk(op);
    PrefixAnswered(op.sent, n);
  }

  lemma {:induction false} PrefixAnswered(sent: seq<Reply>, n: nat)
    requires n <= |sent|
    ensures Answered(sent[..n]) <= Answered(sent) && (DistinctReplies(sent) ==> DistinctReplies(sent[..n]))
    decreases |sent|
  {
    if n == |sent| {
      assert sent[..n] == sent;
    } else {
      PrefixAnswered(sent[..|sent| - 1], n);
      assert sent[..|sent| - 1][..n] == sent[..n];
    }
  }

  /** As many replies as requests means that every element has its answer. */
  lemma BatchComplete(events: seq<Event>, o: OpId, id: Id)
    requires Legal(events) && o in After(events).ops
    requires var op := After(events).ops[o]; |op.sent| == |op.ids| && id in op.ids
    ensures Outcome(After(events).ops[o].sent, id).Some?
  {
    var op := After(events).ops[o];
    AlwaysInv(events);
    assert OpOk(op);
    AnsweredSize(op.sent);
    IdSetSize(op.ids);
    SubsetSize(Answered(op.sent), IdSet(op.ids));
    OutcomeAnswered(op.sent, id);
  }
}
