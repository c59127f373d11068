/** The gateway client's fields and the code that changes them: every locked region and channel
    operation is one method, and is shown to be one step of `RpcModel`. So whatever order callers and
    the reader run in, the object is always in a reachable state of the step system. */
module RpcClient {
  import opened MeshTypes
  import opened RpcModel
  import opened RpcReplies
  import opened RpcRuns

  /** A channel of capacity one. */
  class ReplyChan {
    var buf: Option<Reply>

    constructor ()
      ensures buf == None
    {
      buf := None;
    }

    /** The precondition is what makes the send not block. */
    method Send(r: Reply)
      requires buf.None?
      modifies this
      ensures buf == Some(r)
    {
      buf := Some(r);
    }

    method Receive() returns (r: Reply)
      requires buf.Some?
      modifies this
      ensures buf == None && r == old(buf.value)
    {
      r := buf.value;
      buf := None;
    }
  }

  /** An agent run; `done` says whether its channel is closed. */
  class AgentRun {
    var text: string
    var err: string
    var done: bool

    constructor ()
      ensures text == "" && err == "" && !done
    {
      text, err, done := "", "", false;
    }

    ghost predicate Holds(c: Caller)
      reads this
    {
      text == c.text && err == c.err && done == c.done
    }

    /** Closing a closed channel would panic, so the program looks first. */
    method Finish()
      modifies this`done
      ensures done
    {
      if !done {
        done := true;
      }
    }

    method Handle(kind: EventKind)
      modifies this
      ensures forall c: Caller | old(Holds(c)) :: Holds(Applied(c, kind))
    {
      match kind {
        case AssistantText(t) =>
          if t != "" {
            text := t;
          }
        case LifecycleEnd =>
          Finish();
        case OtherKind =>
      }
    }
  }

  /** A table of the client agrees with the model's: the same keys, and under each the object that
      the model's index stands for. */
  ghost predicate SameTable<K, T>(table: map<K, T>, indices: map<K, nat>, objects: seq<T>) {
    && table.Keys == indices.Keys
    && (forall id | id in table :: indices[id] < |objects| && table[id] == objects[indices[id]])
  }

  lemma TableOpened<K, T>(table: map<K, T>, indices: map<K, nat>, objects: seq<T>, id: K, x: T)
    requires SameTable(table, indices, objects)
    ensures SameTable(table[id := x], indices[id := |objects|], objects + [x])
  {
  }

  lemma TableSet<K, T>(table: map<K, T>, indices: map<K, nat>, objects: seq<T>, id: K, i: nat)
    requires SameTable(table, indices, objects) && i < |objects|
    ensures SameTable(table[id := objects[i]], indices[id := i], objects)
  {
  }

  lemma TableDropped<K, T>(table: map<K, T>, indices: map<K, nat>, objects: seq<T>, id: K)
    requires SameTable(table, indices, objects)
    ensures SameTable(table - {id}, indices - {id}, objects)
  {
  }

  /** Run objects hold the same for callers that differ in nothing a run object has. */
  ghost predicate SameRuns(a: seq<Caller>, b: seq<Caller>) {
    && |a| == |b|
    && forall k :: 0 <= k < |a| ==> b[k].text == a[k].text && b[k].err == a[k].err && b[k].done == a[k].done
  }

  ghost predicate AllDifferent<T>(objects: seq<T>) {
    forall i, j :: 0 <= i < j < |objects| ==> objects[i] != objects[j]
  }

  /** Every run in the set gets the error and is closed. */
  method CloseRuns(runs: set<AgentRun>)
    modifies runs
    ensures forall r | r in runs :: r.err == CLOSED.err && r.done && r.text == old(r.text)
  {
    var rest := runs;
    while rest != {}
      invariant rest <= runs
      invariant forall r | r in runs :: r.text == old(r.text) && (r in rest || (r.err == CLOSED.err && r.done))
      decreases rest
    {
      var r :| r in rest;
      r.err := "connection closed";
      r.Finish();
      rest := rest - {r};
    }
  }

  lemma ArrivalIsReached(s: State, f: Frame)
    requires Reachable(s) && s.reader.Idle?
    ensures Enabled(s, Arrive(f)) && Reachable(Apply(s, Arrive(f)))
    ensures Apply(s, Arrive(f)) == s.(
              reader := Apply(s, Arrive(f)).reader, ready := s.ready || (f.Response? && f.ok && f.payload.hello))
  {
    ReachNext(s, Arrive(f));
  }

  lemma RunIsReached(s: State, k: nat)
    requires Reachable(s) && Enabled(s, RegisterRun(k))
    ensures var c := s.callers[k];
            var t := Apply(s, RegisterRun(k));
            && Reachable(t) && k < |t.callers|
            && t == s.(callers := t.callers, runs := s.runs[c.runId := k], lost := t.lost)
            && SameRuns(s.callers, t.callers)
  {
    ReachNext(s, RegisterRun(k));
  }

  lemma DropIsReached(s: State, k: nat)
    requires Reachable(s) && Enabled(s, DropRun(k))
    ensures var c := s.callers[k];
            var t := Apply(s, DropRun(k));
            && Reachable(t) && k < |t.callers|
            && t == s.(callers := t.callers, runs := s.runs - {c.runId}, lost := t.lost)
            && SameRuns(s.callers, t.callers)
  {
    ReachNext(s, DropRun(k));
  }

  lemma LookupIsReached(s: State)
    requires Reachable(s) && Enabled(s, LookupResponse)
    ensures var f := s.reader.f;
            var t := Apply(s, LookupResponse);
            && Reachable(t)
            && t == s.(pending := s.pending - {f.id}, handled := s.handled + [f], reader := t.reader)
            && t.reader == (if f.id in s.pending then Sending(s.pending[f.id], ReplyOf(f)) else Idle)
  {
    ReachNext(s, LookupResponse);
    assert s.reader.f.id !in s.pending ==> s.pending - {s.reader.f.id} == s.pending;
  }

  lemma FailIsReached(s: State, id: ReqId)
    requires Reachable(s) && s.reader.Disconnecting? && id in s.reader.todo
    ensures Enabled(s, FailOne(id)) && Reachable(Apply(s, FailOne(id)))
    ensures Apply(s, FailOne(id)) == Send(s, s.pending[id], CLOSED).(reader := Disconnecting(s.reader.todo - {id}))
  {
    ReaderNeverBlocks(s);
    ReachNext(s, FailOne(id));
  }

  lemma CollectIsReached(s: State, k: nat)
    requires Reachable(s) && Enabled(s, Collect(k))
    ensures var c := s.callers[k];
            var t := Apply(s, Collect(k));
            && Reachable(t) && k < |t.callers| && t.callers[k].pc == Done(ResultOf(c))
            && t == s.(callers := t.callers, runs := s.runs - {c.runId}, lost := t.lost)
            && SameRuns(s.callers, t.callers)
  {
    ReachNext(s, Collect(k));
  }

  lemma UnregisterIsReached(s: State, k: nat, a: Action)
    requires a == DropAfterWrite(k) || a == DropAfterTimeout(k)
    requires Reachable(s) && Enabled(s, a)
    ensures var c := s.callers[k];
            var t := Apply(s, a);
            && Reachable(t) && k < |t.callers|
            && t == s.(callers := t.callers, pending := s.pending - {Req(c.n)}) && SameRuns(s.callers, t.callers)
  {
    ReachNext(s, a);
  }

  lemma DisconnectIsReached(s: State)
    requires Reachable(s) && s.reader == Disconnecting({})
    ensures Reachable(Disconnected(s))
  {
    ReachNext(s, FinishDisconnect);
  }

  type ReachableState = s: State | Reachable(s) ghost witness (StartIsReachable(); INIT)

  class WSGatewayClient {
    var seqNo: nat
    var pending: map<ReqId, ReplyChan>
    var runs: map<string, AgentRun>
    var ready: bool
    /** The state of the step system, and the objects its channel and caller numbers stand for. */
    ghost var model: ReachableState
    ghost var chans: seq<ReplyChan>
    ghost var objects: seq<AgentRun>

    ghost predicate ChansHold()
      reads this, chans
    {
      && |chans| == |model.chans| && AllDifferent(chans)
      && forall i :: 0 <= i < |chans| ==> chans[i].buf == model.chans[i].buf
    }

    ghost predicate RunsHold()
      reads this, objects
    {
      && |objects| == |model.callers| && AllDifferent(objects)
      && forall k :: 0 <= k < |objects| ==> objects[k].Holds(model.callers[k])
    }

    ghost predicate Valid()
      reads this, chans, objects
    {
      && seqNo == model.seqNo && ready == model.ready
      && SameTable(pending, model.pending, chans) && SameTable(runs, model.runs, objects)
      && ChansHold() && RunsHold()
    }

    constructor ()
      ensures Valid() && model == INIT
    {
      seqNo, pending, runs, ready := 0, map[], map[], false;
      StartIsReachable();
      model, chans, objects := INIT, [], [];
    }

    /** When nobody holds the lock the tables hold no entry of a call or run that is over. */
    lemma NoEntryIsLeft(k: nat)
      requires Valid() && k < |model.callers| && LockFree(model)
      ensures HasChan(model.callers[k]) && !InCall(model.callers[k]) ==> Req(model.callers[k].n) !in pending
      ensures forall r | r in runs && runs[r] == objects[k] :: model.callers[k].runId == r && InRun(model.callers[k])
    {
      if HasChan(model.callers[k]) && !InCall(model.callers[k]) {
        NoEntryOutlivesItsCall(model, k);
      }
      forall r | r in runs && runs[r] == objects[k]
        ensures model.callers[k].runId == r && InRun(model.callers[k])
      {
        NoRunOutlivesItsCaller(model, r);
        assert model.runs[r] == k;
      }
    }

    /** Steps that change none of the client's fields or objects: a write, a choice of a `select`, a
        frame on its way to its handler. */
    static predicate Local(a: Action) {
      || a.WriteOk? || a.WriteFails? || a.CallTimeout? || a.SeeDone? || a.RunTimeout? || a.WriteConnect?
    }

    ghost method Note(a: Action)
      requires Valid() && Local(a) && Enabled(model, a)
      modifies this`model
      ensures Valid() && model == Apply(old(model), a)
    {
      ReachNext(model, a);
      model := Apply(model, a);
    }

    // ---------- callers ----------

    /** A call of `SendMessage` begins; `k` is its number in the model. */
    method Begin() returns (ghost k: nat, run: AgentRun)
      requires Valid()
      modifies this`objects, this`model
      ensures Valid() && model == Apply(old(model), Spawn)
      ensures k == |old(model).callers| && objects == old(objects) + [run] && fresh(run)
    {
      run := new AgentRun();
      k := |model.callers|;
      ReachNext(model, Spawn);
      model, objects := Apply(model, Spawn), objects + [run];
    }

    method TakeNumber(ghost k: nat) returns (id: ReqId)
      requires Valid() && Enabled(model, Action.TakeNumber(k))
      modifies this`seqNo, this`model
      ensures Valid() && model == Apply(old(model), Action.TakeNumber(k))
      ensures id == Req(model.callers[k].n)
    {
      seqNo := seqNo + 1;
      id := Req(seqNo);
      ReachNext(model, Action.TakeNumber(k));
      model := Apply(model, Action.TakeNumber(k));
    }

    method Register(ghost k: nat, id: ReqId) returns (ch: ReplyChan)
      requires Valid() && Enabled(model, Action.Register(k)) && id == Req(model.callers[k].n)
      modifies this`pending, this`chans, this`model
      ensures Valid() && model == Apply(old(model), Action.Register(k))
      ensures chans == old(chans) + [ch] && fresh(ch)
    {
      ch := new ReplyChan();
      TableOpened(pending, model.pending, chans, id, ch);
      pending := pending[id := ch];
      ReachNext(model, Action.Register(k));
      model, chans := Apply(model, Action.Register(k)), chans + [ch];
    }

    /** A call that could not write, or whose context ended, removes its entry; `a` says which. */
    method Unregister(ghost k: nat, ghost a: Action, id: ReqId)
      requires a == DropAfterWrite(k) || a == DropAfterTimeout(k)
      requires Valid() && Enabled(model, a) && id == Req(model.callers[k].n)
      modifies this`pending, this`model
      ensures Valid() && model == Apply(old(model), a)
      ensures pending == old(pending) - {id}
    {
      UnregisterIsReached(model, k, a);
      TableDropped(pending, model.pending, chans, id);
      pending := pending - {id};
      model := Apply(model, a);
    }

    /** The call returns with a reply, and `SendMessage` looks for the run id in it. */
    method Receive(ghost k: nat, ch: ReplyChan) returns (runId: Option<string>)
      requires Valid() && Enabled(model, Action.Receive(k)) && ch == chans[model.callers[k].ch]
      modifies this`model, ch
      ensures Valid() && model == Apply(old(model), Action.Receive(k))
      ensures runId.Some? <==> model.callers[k].pc == RunKnown
      ensures runId.Some? ==> runId.value == model.callers[k].runId
    {
      var resp := ch.Receive();
      ReachNext(model, Action.Receive(k));
      model := Apply(model, Action.Receive(k));
      if resp.err != "" || resp.payload.runId == "" {
        return None;
      }
      return Some(resp.payload.runId);
    }

    method RegisterRun(ghost k: nat, runId: string, run: AgentRun)
      requires Valid() && Enabled(model, Action.RegisterRun(k)) && runId == model.callers[k].runId && run == objects[k]
      modifies this`runs, this`model
      ensures Valid() && model == Apply(old(model), Action.RegisterRun(k))
    {
      TableSet(runs, model.runs, objects, runId, k);
      runs := runs[runId := run];
      RunIsReached(model, k);
      model := Apply(model, Action.RegisterRun(k));
    }

    method DropRun(ghost k: nat, runId: string)
      requires Valid() && Enabled(model, Action.DropRun(k)) && runId == model.callers[k].runId
      modifies this`runs, this`model
      ensures Valid() && model == Apply(old(model), Action.DropRun(k))
    {
      TableDropped(runs, model.runs, objects, runId);
      runs := runs - {runId};
      DropIsReached(model, k);
      model := Apply(model, Action.DropRun(k));
    }

    method Collect(ghost k: nat, runId: string, run: AgentRun) returns (out: Outcome)
      requires Valid() && Enabled(model, Action.Collect(k)) && runId == model.callers[k].runId && run == objects[k]
      modifies this`runs, this`model
      ensures Valid() && model == Apply(old(model), Action.Collect(k))
      ensures model.callers[k].pc == Done(out)
    {
      var response, runErr := run.text, run.err;
      TableDropped(runs, model.runs, objects, runId);
      runs := runs - {runId};
      CollectIsReached(model, k);
      model := Apply(model, Action.Collect(k));
      if runErr != "" {
        return RunError(runErr);
      }
      if response == "" {
        response := "(no response)";
      }
      return Answer(response);
    }

    // ---------- the reader ----------

    /** A frame arrives; a hello closes `ready`, once. */
    method Arrive(f: Frame)
      requires Valid() && model.reader.Idle?
      modifies this`ready, this`model
      ensures Valid() && model == Apply(old(model), Action.Arrive(f))
      ensures f.Challenge? ==> model.reader == Challenged
      ensures f.Response? ==> model.reader == Handling(f)
      ensures f.AgentFrame? && f.ev.runId != "" ==> model.reader == EventSeen(f.ev)
      ensures f.Unknown? || (f.AgentFrame? && f.ev.runId == "") ==> model == old(model)
      ensures ready <==> old(ready) || (f.Response? && f.ok && f.payload.hello)
    {
      ArrivalIsReached(model, f);
      if f.Response? && f.ok && f.payload.hello && !ready {
        ready := true;
      }
      model := Apply(model, Action.Arrive(f));
    }

    /** Takes the waiting channel for a response out of the table. */
    method LookupResponse(f: Frame) returns (ch: ReplyChan?, r: Reply)
      requires Valid() && model.reader == Handling(f) && f.Response?
      modifies this`pending, this`model
      ensures Valid() && model == Apply(old(model), Action.LookupResponse)
      ensures ch == null <==> model.reader.Idle?
      ensures ch != null ==>
                && model.reader.Sending? && model.reader.ch < |chans|
                && ch == chans[model.reader.ch] && r == model.reader.reply
    {
      LookupIsReached(model);
      TableDropped(pending, model.pending, chans, f.id);
      ch, r := if f.id in pending then pending[f.id] else null, ReplyOf(f);
      pending := pending - {f.id};
      model := Apply(model, Action.LookupResponse);
    }

    /** Sends outside the lock; that there is room needs the invariant of the step system. */
    method SendReply(ch: ReplyChan, r: Reply)
      requires Valid() && model.reader.Sending? && model.reader.ch < |chans|
      requires ch == chans[model.reader.ch] && r == model.reader.reply
      modifies this`model, ch
      ensures Enabled(old(model), Action.SendReply)
      ensures Valid() && model == Apply(old(model), Action.SendReply)
    {
      ReaderNeverBlocks(model);
      ch.Send(r);
      ReachNext(model, Action.SendReply);
      model := Apply(model, Action.SendReply);
    }

    method NumberConnect() returns (id: ReqId)
      requires Valid() && model.reader.Challenged?
      modifies this`seqNo, this`model
      ensures Valid() && model == Apply(old(model), Action.NumberConnect)
      ensures model.reader.ChallengedWith? && id == Connect(model.reader.n)
    {
      seqNo := seqNo + 1;
      id := Connect(seqNo);
      ReachNext(model, Action.NumberConnect);
      model := Apply(model, Action.NumberConnect);
    }

    method RegisterConnect(id: ReqId)
      requires Valid() && model.reader.ChallengedWith? && id == Connect(model.reader.n)
      modifies this`pending, this`chans, this`model
      ensures Valid() && model == Apply(old(model), Action.RegisterConnect)
      ensures |chans| == |old(chans)| + 1 && old(chans) <= chans && fresh(chans[|old(chans)|])
    {
      var ch := new ReplyChan();
      TableOpened(pending, model.pending, chans, id, ch);
      pending := pending[id := ch];
      ReachNext(model, Action.RegisterConnect);
      model, chans := Apply(model, Action.RegisterConnect), chans + [ch];
    }

    method LookupRun(ev: AgentEvent) returns (run: AgentRun?)
      requires Valid() && model.reader == EventSeen(ev)
      modifies this`model
      ensures Valid() && model == Apply(old(model), Action.LookupRun)
      ensures run == null <==> model.reader.Idle?
      ensures run != null ==> model.reader.EventFor? && model.reader.k < |objects| && run == objects[model.reader.k]
    {
      run := if ev.runId in runs then runs[ev.runId] else null;
      ReachNext(model, Action.LookupRun);
      model := Apply(model, Action.LookupRun);
    }

    /** The run may have been dropped since it was looked up; the object is still there. */
    method ApplyEvent(ev: AgentEvent, run: AgentRun)
      requires Valid() && model.reader.EventFor? && model.reader.ev == ev
      requires model.reader.k < |objects| && run == objects[model.reader.k]
      modifies this`model, run
      ensures Valid() && model == Apply(old(model), Action.ApplyEvent)
    {
      run.Handle(ev.kind);
      ReachNext(model, Action.ApplyEvent);
      model := Apply(model, Action.ApplyEvent);
    }

    // ---------- the connection breaks ----------

    /** The object of a caller is registered exactly when its number is in the model's table. */
    lemma SameRegistered(k: nat)
      requires RunsHold() && SameTable(runs, model.runs, objects) && k < |objects|
      ensures objects[k] in runs.Values <==> k in model.runs.Values
    {
      if objects[k] in runs.Values {
        var r :| r in runs && runs[r] == objects[k];
        assert model.runs[r] == k;
      }
      if k in model.runs.Values {
        var r :| r in model.runs && model.runs[r] == k;
        assert r in runs && runs[r] == objects[k];
      }
    }

    method FailOne(id: ReqId)
      requires Valid() && model.reader.Disconnecting? && id in model.reader.todo
      modifies this`model, chans
      ensures Enabled(old(model), Action.FailOne(id)) && model == Apply(old(model), Action.FailOne(id))
      ensures Valid()
      ensures model == old(model).(chans := model.chans, reader := Disconnecting(old(model).reader.todo - {id}))
      ensures id in pending && pending[id].buf == Some(CLOSED)
      ensures forall i :: 0 <= i < |chans| && chans[i] != pending[id] ==> chans[i].buf == old(chans[i].buf)
    {
      FailIsReached(model, id);
      ghost var next := Apply(model, Action.FailOne(id));
      pending[id].Send(Reply(NO_PAYLOAD, "connection closed"));
      model := next;
    }

    ghost method BreakConnection()
      requires Valid() && model.reader.Idle?
      modifies this`model
      ensures Valid() && model == Broken(old(model))
    {
      ReachNext(model, ReadError);
      model := Apply(model, ReadError);
    }

    /** Every pending channel outside `todo` has the error. */
    ghost predicate FailedBut(todo: set<ReqId>)
      reads this, chans
      requires SameTable(pending, model.pending, chans)
    {
      forall id | id in pending && id !in todo :: pending[id].buf == Some(CLOSED)
    }

    /** The same step, by what it leaves. */
    method FailNext(todo: set<ReqId>, id: ReqId)
      requires Valid() && model.reader == Disconnecting(todo) && id in todo && FailedBut(todo)
      modifies this`model, chans
      ensures Valid() && model == old(model).(chans := model.chans, reader := Disconnecting(todo - {id}))
      ensures FailedBut(todo - {id})
    {
      FailOne(id);
    }

    /** Everyone pending gets the error. No step that takes the lock can come between. */
    method FailPending()
      requires Valid() && model.reader == Disconnecting(pending.Keys)
      modifies this`model, chans
      ensures Valid() && model == old(model).(chans := model.chans, reader := Disconnecting({}))
      ensures FailedBut({})
    {
      var todo := pending.Keys;
      while todo != {}
        invariant Valid() && model == old(model).(chans := model.chans, reader := Disconnecting(todo))
        invariant FailedBut(todo)
        decreases todo
      {
        var id :| id in todo;
        FailNext(todo, id);
        todo := todo - {id};
      }
    }

    /** Every registered run gets the error and is closed; no other run changes. */
    method CloseRegistered()
      requires RunsHold() && SameTable(runs, model.runs, objects)
      modifies runs.Values
      ensures unchanged(chans)
      ensures forall k :: 0 <= k < |objects| ==> objects[k].Holds(CutOff(model.callers, model.runs.Values)[k])
    {
      forall k: nat | k < |objects|
        ensures objects[k] in runs.Values <==> k in model.runs.Values
      {
        SameRegistered(k);
      }
      CloseRuns(runs.Values);
      ghost var cut := CutOff(model.callers, model.runs.Values);
      forall k | 0 <= k < |objects|
        ensures objects[k].Holds(cut[k])
      {
        assert old(objects[k].Holds(model.callers[k]));
      }
    }

    method FinishDisconnect()
      requires Valid() && model.reader == Disconnecting({})
      modifies this`pending, this`model, runs.Values
      ensures Valid() && model == Disconnected(old(model)) && pending == map[]
      ensures unchanged(chans)
    {
      pending := map[];
      CloseRegistered();
      DisconnectIsReached(model);
      model := Disconnected(model);
    }

    method FailEveryone()
      requires Valid() && model.reader.Idle?
      modifies this`model, chans
      ensures Valid() && model.reader == Disconnecting({})
      ensures model.callers == old(model.callers) && model.runs == old(model.runs)
      ensures forall id | id in pending :: pending[id].buf == Some(CLOSED) && pending[id] in chans
    {
      BreakConnection();
      FailPending();
    }

    /** The reader's whole reaction to a broken connection. */
    method Disconnect()
      requires Valid() && model.reader.Idle?
      modifies this`pending, this`model, chans, runs.Values
      ensures Valid() && pending == map[] && model.reader == Exited
      ensures model.callers == CutOff(old(model).callers, old(model).runs.Values)
      ensures forall id | id in old(pending) :: old(pending)[id].buf == Some(CLOSED)
    {
      FailEveryone();
      FinishDisconnect();
    }
  }
}
