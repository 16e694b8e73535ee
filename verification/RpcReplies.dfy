/** What the callers of the RPC client get: the replies that were read for their ids. */
module RpcReplies {
  import opened Basics
  import opened RpcDispatch

  // ---------- Replies come from reads ----------

  ghost predicate InBatch(batch: seq<Msg>, r: Reply) {
    exists m :: m in batch && m.Response? && m.reply == r
  }

  /** Event `k` reads reply `r`, and before that event `i` registered operation `o` with its id. */
  ghost predicate ReadFor(events: seq<Event>, i: nat, k: nat, o: OpId, r: Reply) {
    && i < k < |events|
    && events[i].RequestOp? && events[i].op == o && r.id in events[i].ids
    && events[k].Read? && InBatch(events[k].batch, r)
  }

  ghost predicate Registers(events: seq<Event>, i: nat, o: OpId, ids: seq<Id>, sub: bool) {
    i < |events| && events[i] == RequestOp(o, ids, sub)
  }

  /** One message adds at most its own reply to one channel, and changes nothing else about operations but their end. */
  lemma RespondSends(s: State, m: Msg, o: OpId)
    requires o in s.ops && forall id :: id in s.respWait ==> s.respWait[id] in s.ops
    ensures var t := Respond(s, m);
      && t.ops.Keys == s.ops.Keys && t.ops[o].ids == s.ops[o].ids && t.ops[o].sub == s.ops[o].sub && t.ops[o].failed == s.ops[o].failed
      && (t.ops[o].sent == s.ops[o].sent || (m.Response? && t.ops[o].sent == s.ops[o].sent + [m.reply]))
      && (!s.ops[o].sub ==> t.ops[o].closes == s.ops[o].closes)
      && forall id :: id in t.respWait ==> id in s.respWait && t.respWait[id] == s.respWait[id]
  {
  }

  lemma {:induction false} RespondAllSends(s: State, batch: seq<Msg>, o: OpId, r: Reply)
    requires o in s.ops && forall id :: id in s.respWait ==> s.respWait[id] in s.ops
    ensures var t := RespondAll(s, batch);
      && t.ops.Keys == s.ops.Keys && t.ops[o].ids == s.ops[o].ids && t.ops[o].sub == s.ops[o].sub && t.ops[o].failed == s.ops[o].failed
      && (!s.ops[o].sub ==> t.ops[o].closes == s.ops[o].closes)
      && (r in t.ops[o].sent ==> r in s.ops[o].sent || InBatch(batch, r))
      && forall id :: id in t.respWait ==> id in s.respWait && t.respWait[id] == s.respWait[id]
  {
    hide Respond;
    if batch != [] {
      var n := |batch| - 1;
      RespondAllSends(s, batch[..n], o, r);
      RespondSends(RespondAll(s, batch[..n]), batch[n], o);
      assert batch[n] in batch;
      if InBatch(batch[..n], r) {
        var m :| m in batch[..n] && m.Response? && m.reply == r;
        assert m in batch;
      }
    }
  }

  lemma WaitsForKnown(s: State)
    requires Inv(s)
    ensures forall id :: id in s.respWait ==> s.respWait[id] in s.ops
  {
    forall id | id in s.respWait ensures s.respWait[id] in s.ops {
      assert EntryOk(s, id);
    }
  }

  /** What one event can do to operation `o`. */
  lemma OpChange(s: State, e: Event, o: OpId, r: Reply)
    requires Inv(s) && Enabled(s, e) && o in Do(s, e).ops
    ensures var t := Do(s, e);
      if o in s.ops then
        && t.ops[o].ids == s.ops[o].ids && t.ops[o].sub == s.ops[o].sub
        && (r in t.ops[o].sent ==> r in s.ops[o].sent || (e.Read? && InBatch(e.batch, r)))
        && (t.ops[o].failed ==> s.ops[o].failed || e == SendDone(false))
        && (!t.ops[o].sub && t.ops[o].closes > 0 ==> s.ops[o].closes > 0 || e == ReadErr || e == Close)
      else
        && e == RequestOp(o, t.ops[o].ids, t.ops[o].sub)
        && t.ops[o].sent == [] && !t.ops[o].failed && t.ops[o].closes == 0
  {
    assert LastOk(s);
    hide Do, Inv;
    if e.Read? {
      WaitsForKnown(s);
      ReadIs(s, e);
      SameOps(s, e.batch);
      RespondAllSends(s, e.batch, o, r);
    } else {
      OtherChange(s, e, o, r);
    }
  }

  lemma ReadIs(s: State, e: Event)
    requires e.Read? && Enabled(s, e)
    ensures Do(s, e) == RespondAll(s, e.batch)
  {
  }

  lemma OtherChange(s: State, e: Event, o: OpId, r: Reply)
    requires !e.Read? && Enabled(s, e) && o in Do(s, e).ops && (s.lastOp.Some? ==> s.lastOp.value in s.ops)
    ensures var t := Do(s, e);
      if o in s.ops then
        && t.ops[o].ids == s.ops[o].ids && t.ops[o].sub == s.ops[o].sub && t.ops[o].sent == s.ops[o].sent
        && (t.ops[o].failed ==> s.ops[o].failed || e == SendDone(false))
        && (t.ops[o].closes > 0 ==> s.ops[o].closes > 0 || e == ReadErr || e == Close)
      else
        && e == RequestOp(o, t.ops[o].ids, t.ops[o].sub)
        && t.ops[o].sent == [] && !t.ops[o].failed && t.ops[o].closes == 0
  {
  }

  /** Every operation was registered, by an event that still says what it asked for. */
  lemma {:induction false} WasRegistered(events: seq<Event>, o: OpId)
    requires Legal(events) && o in After(events).ops
    ensures exists i :: Registers(events, i, o, After(events).ops[o].ids, After(events).ops[o].sub)
  {
    if events != [] {
      var n := |events| - 1;
      var s, t := After(events[..n]), After(events);
      AlwaysInv(events[..n]);
      OpChange(s, events[n], o, Reply(0, NoResult));
      hide Inv, Do, Enabled;
      if o in s.ops {
        WasRegistered(events[..n], o);
        var i :| Registers(events[..n], i, o, s.ops[o].ids, s.ops[o].sub);
        assert Registers(events, i, o, t.ops[o].ids, t.ops[o].sub);
      } else {
        assert Registers(events, n, o, t.ops[o].ids, t.ops[o].sub);
      }
    }
  }

  lemma {:induction false} SameOps(s: State, batch: seq<Msg>)
    requires forall id :: id in s.respWait ==> s.respWait[id] in s.ops
    ensures RespondAll(s, batch).ops.Keys == s.ops.Keys
    ensures forall id :: id in RespondAll(s, batch).respWait ==> id in s.respWait && RespondAll(s, batch).respWait[id] == s.respWait[id]
  {
    if batch != [] {
      SameOps(s, batch[..|batch| - 1]);
    }
  }

  /** In every run, every reply on a channel was read, after its operation had been registered with its id. */
  lemma {:induction false} SentWasRead(events: seq<Event>, o: OpId, r: Reply)
    requires Legal(events) && o in After(events).ops && r in After(events).ops[o].sent
    ensures exists i, k :: ReadFor(events, i, k, o, r)
  {
    if events != [] {
      var n := |events| - 1;
      var s := After(events[..n]);
      AlwaysInv(events[..n]);
      OpChange(s, events[n], o, r);
      hide Inv, Do, Enabled;
      if r in s.OpAt(o).sent {
        SentWasRead(events[..n], o, r);
        var i, k :| ReadFor(events[..n], i, k, o, r);
        assert ReadFor(events, i, k, o, r);
      } else {
        WasRegistered(events[..n], o);
        var i :| Registers(events[..n], i, o, s.ops[o].ids, s.ops[o].sub);
        IdIsItsOwn(events, o, r);
        assert ReadFor(events, i, n, o, r);
      }
    }
  }

  lemma {:induction false} AnsweredHas(sent: seq<Reply>, r: Reply)
    requires r in sent
    ensures r.id in Answered(sent)
  {
    var n := |sent| - 1;
    if r != sent[n] {
      assert sent == sent[..n] + [sent[n]];
      AnsweredHas(sent[..n], r);
    }
  }

  lemma IdIsItsOwn(events: seq<Event>, o: OpId, r: Reply)
    requires Legal(events) && o in After(events).ops && r in After(events).ops[o].sent
    ensures r.id in After(events).ops[o].ids
  {
    RepliesMatch(events, o);
    AnsweredHas(After(events).ops[o].sent, r);
  }

  // ---------- Reads become replies ----------

  /** Messages for other ids leave an outstanding id outstanding. */
  lemma {:induction false} StillWaits(s: State, batch: seq<Msg>, id: Id)
    requires id in s.respWait && forall j :: 0 <= j < |batch| ==> !(batch[j].Response? && batch[j].reply.id == id)
    ensures id in RespondAll(s, batch).respWait && RespondAll(s, batch).respWait[id] == s.respWait[id]
  {
    if batch != [] {
      StillWaits(s, batch[..|batch| - 1], id);
    }
  }

  lemma {:induction false} StaysSent(s: State, first: seq<Msg>, batch: seq<Msg>, o: OpId, r: Reply)
    requires first <= batch && forall id :: id in s.respWait ==> s.respWait[id] in s.ops
    requires o in s.ops && r in RespondAll(s, first).OpAt(o).sent
    ensures r in RespondAll(s, batch).OpAt(o).sent
    decreases |batch|
  {
    if first != batch {
      var n := |batch| - 1;
      assert first <= batch[..n];
      StaysSent(s, first, batch[..n], o, r);
      SameOps(s, batch[..n]);
      RespondSends(RespondAll(s, batch[..n]), batch[n], o);
    }
  }

  /** The first response read for an outstanding id of a plain operation stands on its channel afterwards, as it was read. */
  lemma ReadIsForwarded(events: seq<Event>, batch: seq<Msg>, j: nat)
    requires Legal(events + [Read(batch)]) && Legal(events) && j < |batch| && batch[j].Response?
    requires var s, id := After(events), batch[j].reply.id; id in s.respWait && !s.OpAt(s.respWait[id]).sub
    requires forall k :: 0 <= k < j ==> !(batch[k].Response? && batch[k].reply.id == batch[j].reply.id)
    ensures batch[j].reply in After(events + [Read(batch)]).OpAt(After(events).respWait[batch[j].reply.id]).sent
  {
    var s, r := After(events), batch[j].reply;
    var o := s.respWait[r.id];
    var all := events + [Read(batch)];
    assert all[..|events|] == events && all[|events|] == Read(batch);
    AlwaysInv(events);
    WaitsForKnown(s);
    StillWaits(s, batch[..j], r.id);
    SameOps(s, batch[..j]);
    RespondAllSends(s, batch[..j], o, r);
    var first := batch[..j + 1];
    assert first[..j] == batch[..j] && first[j] == batch[j];
    assert r in RespondAll(s, first).OpAt(o).sent;
    StaysSent(s, first, batch, o, r);
  }

  lemma {:induction false} OutcomeIs(sent: seq<Reply>, r: Reply)
    requires DistinctReplies(sent) && r in sent
    ensures Outcome(sent, r.id) == Some(r.payload)
  {
    var n := |sent| - 1;
    if r != sent[n] {
      assert sent == sent[..n] + [sent[n]];
      AnsweredHas(sent[..n], r);
      OutcomeIs(sent[..n], r);
    }
  }

  lemma {:induction false} OutcomeWasSent(sent: seq<Reply>, id: Id)
    requires Outcome(sent, id).Some?
    ensures Reply(id, Outcome(sent, id).value) in sent
  {
    var n := |sent| - 1;
    assert sent == sent[..n] + [sent[n]];
    if sent[n].id != id {
      OutcomeWasSent(sent[..n], id);
    }
  }

  /**
   * A batch element has an outcome exactly if a reply for its id stands on the channel, with that
   * reply's payload, and then that reply was read after the batch had been registered.
   */
  lemma BatchGetsWhatWasRead(events: seq<Event>, o: OpId, id: Id, p: Payload)
    requires Legal(events) && o in After(events).ops
    ensures Outcome(After(events).ops[o].sent, id) == Some(p) <==> Reply(id, p) in After(events).ops[o].sent
    ensures Outcome(After(events).ops[o].sent, id) == Some(p) ==> exists i, k :: ReadFor(events, i, k, o, Reply(id, p))
  {
    var sent := After(events).ops[o].sent;
    RepliesMatch(events, o);
    if Reply(id, p) in sent {
      OutcomeIs(sent, Reply(id, p));
    }
    if Outcome(sent, id) == Some(p) {
      OutcomeWasSent(sent, id);
      SentWasRead(events, o, Reply(id, p));
    }
  }

  // ---------- Subscriptions and failures ----------

  /**
   * The response to a subscription request closes its channel. It starts the subscription under the id
   * it names, exactly if it is no error and names one.
   */
  lemma SubscriptionStarts(events: seq<Event>, m: Msg)
    requires Legal(events) && Legal(events + [Read([m])]) && m.Response? && m.reply.id in After(events).respWait
    requires After(events).OpAt(After(events).respWait[m.reply.id]).sub
    ensures var s, t := After(events), After(events + [Read([m])]);
      var o := s.respWait[m.reply.id];
      && t.OpAt(o).closes == 1 && t.OpAt(o).sent == [] && m.reply.id !in t.respWait
      && (t.OpAt(o).err <==> m.reply.payload.Error? || m.started.None?)
      && (!t.OpAt(o).err ==> m.started.value in t.subs && t.subs[m.started.value] == o)
      && (t.OpAt(o).err ==> t.subs == s.subs)
  {
    var s := After(events);
    var all := events + [Read([m])];
    assert all[..|events|] == events && all[|events|] == Read([m]);
    AlwaysInv(events);
    assert EntryOk(s, m.reply.id) && OpOk(s.OpAt(s.respWait[m.reply.id]));
    assert [m][..0] == [];
    assert RespondAll(s, []) == s;
    assert RespondAll(s, [m]) == Respond(s, m);
  }

  /** After a read error nothing is outstanding and no subscription active: every id registered so far is settled. */
  lemma ReadErrSettlesAll(events: seq<Event>, o: OpId, id: Id)
    requires Legal(events) && Legal(events + [ReadErr])
    ensures var t := After(events + [ReadErr]);
      && t.respWait == map[] && t.subs == map[] && !t.reading && !t.done
      && (o in t.ops && id in t.ops[o].ids ==> id in Answered(t.ops[o].sent) || t.ops[o].failed || t.ops[o].closes == 1)
  {
    var all := events + [ReadErr];
    assert all[..|events|] == events && all[|events|] == ReadErr;
    AlwaysInv(all);
    assert IdOk(After(all), o, id);
    if o in After(all).ops {
      assert OpOk(After(all).ops[o]);
    }
  }

  /** Ids are taken back only after a write that failed, and a plain channel is closed only by a read error or the end. */
  lemma {:induction false} WhyUnanswered(events: seq<Event>, o: OpId)
    requires Legal(events) && o in After(events).ops
    ensures After(events).ops[o].failed ==> SendDone(false) in events
    ensures !After(events).ops[o].sub && After(events).ops[o].closes > 0 ==> ReadErr in events || Close in events
  {
    if events != [] {
      var n := |events| - 1;
      var s := After(events[..n]);
      assert events == events[..n] + [events[n]];
      AlwaysInv(events[..n]);
      OpChange(s, events[n], o, Reply(0, NoResult));
      hide Inv, Do, Enabled;
      if o in s.ops {
        WhyUnanswered(events[..n], o);
      }
    }
  }
}
