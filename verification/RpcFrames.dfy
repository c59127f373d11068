/** What becomes of the frames that arrive and of the calls that wait for them: no frame is lost or
    made up, each is handled as its kind demands, and every call gets the outcome it should. */
module RpcFrames {
  import opened MeshTypes
  import opened RpcModel
  import opened RpcReplies
  import opened RpcRuns

  // ---------- every frame that arrives is handled, once and in order ----------

  function ArrivedIn(actions: seq<Action>): seq<Frame> {
    if actions == [] then []
    else
      var a := actions[|actions| - 1];
      ArrivedIn(actions[..|actions| - 1]) + if a.Arrive? then [a.f] else []
  }

  function Challenges(frames: seq<Frame>): nat {
    if frames == [] then 0
    else Challenges(frames[..|frames| - 1]) + if frames[|frames| - 1].Challenge? then 1 else 0
  }

  function Responses(frames: seq<Frame>): seq<Frame> {
    if frames == [] then []
    else
      var f := frames[|frames| - 1];
      Responses(frames[..|frames| - 1]) + if f.Response? then [f] else []
  }

  /** Events without a run id are nobody's. */
  function RunEvents(frames: seq<Frame>): seq<AgentEvent> {
    if frames == [] then []
    else
      var f := frames[|frames| - 1];
      RunEvents(frames[..|frames| - 1]) + if f.AgentFrame? && f.ev.runId != "" then [f.ev] else []
  }

  /** Connects that were filed. */
  function Connects(chans: seq<Chan>): nat {
    if chans == [] then 0
    else Connects(chans[..|chans| - 1]) + if chans[|chans| - 1].owner.ByConnect? then 1 else 0
  }

  predicate IsHello(f: Frame) {
    f.Response? && f.ok && f.payload.hello
  }

  /** The frames that arrived are those that were handled and the one in the reader's hand; the client
      is ready once a hello was among them. */
  ghost predicate AllHandled(s: State, frames: seq<Frame>) {
    && Responses(frames) == s.handled + (if s.reader.Handling? then [s.reader.f] else [])
    && RunEvents(frames) == s.events + (if s.reader.EventSeen? then [s.reader.ev] else [])
    && Challenges(frames) == Connects(s.chans) + (if s.reader.Challenged? || s.reader.ChallengedWith? then 1 else 0)
    && (s.ready <==> exists f :: f in frames && IsHello(f))
  }

  lemma {:induction false} SameOwnersSameConnects(a: seq<Chan>, b: seq<Chan>)
    requires |a| == |b| && forall i :: 0 <= i < |a| ==> a[i].owner == b[i].owner
    ensures Connects(a) == Connects(b)
  {
    if a != [] {
      SameOwnersSameConnects(a[..|a| - 1], b[..|b| - 1]);
    }
  }

  lemma ConnectsStep(s: State, a: Action)
    requires Enabled(s, a)
    ensures Connects(Apply(s, a).chans) == Connects(s.chans) + if a.RegisterConnect? then 1 else 0
  {
    var t := Apply(s, a);
    if a.Register? || a.RegisterConnect? {
      assert t.chans[..|s.chans|] == s.chans;
    } else {
      ChansKeepOwners(s, a);
      SameOwnersSameConnects(s.chans, t.chans);
    }
  }

  lemma ChansKeepOwners(s: State, a: Action)
    requires Enabled(s, a) && !a.Register? && !a.RegisterConnect?
    ensures |Apply(s, a).chans| == |s.chans|
    ensures forall i :: 0 <= i < |s.chans| ==> Apply(s, a).chans[i].owner == s.chans[i].owner
  {
  }

  lemma OneMoreFrame(frames: seq<Frame>, f: Frame)
    ensures Challenges(frames + [f]) == Challenges(frames) + if f.Challenge? then 1 else 0
    ensures Responses(frames + [f]) == Responses(frames) + if f.Response? then [f] else []
    ensures RunEvents(frames + [f]) == RunEvents(frames) + if f.AgentFrame? && f.ev.runId != "" then [f.ev] else []
    ensures (exists x :: x in frames + [f] && IsHello(x)) <==> IsHello(f) || exists x :: x in frames && IsHello(x)
  {
    assert (frames + [f])[..|frames|] == frames;
    if x :| x in frames && IsHello(x) {
      assert x in frames + [f];
    }
    if IsHello(f) {
      assert f in frames + [f];
    }
  }

  lemma ArrivalStep(s: State, f: Frame, frames: seq<Frame>)
    requires s.reader.Idle? && AllHandled(s, frames)
    ensures AllHandled(Apply(s, Arrive(f)), frames + [f])
  {
    OneMoreFrame(frames, f);
  }

  lemma HandlingStep(s: State, a: Action, frames: seq<Frame>)
    requires Enabled(s, a) && !a.Arrive? && AllHandled(s, frames)
    ensures AllHandled(Apply(s, a), frames)
  {
    ConnectsStep(s, a);
    HandledGrows(s, a);
    ReaderOnFrames(s, a);
  }

  /** How the reader's hand changes, other than by an arrival. */
  lemma ReaderOnFrames(s: State, a: Action)
    requires Enabled(s, a) && !a.Arrive?
    ensures var t := Apply(s, a);
            && t.ready == s.ready
            && (if a.LookupResponse? then s.reader.Handling? && !t.reader.Handling?
                else t.reader.Handling? == s.reader.Handling? && (s.reader.Handling? ==> t.reader == s.reader))
            && (if a.LookupRun? then s.reader.EventSeen? && !t.reader.EventSeen? && t.events == s.events + [s.reader.ev]
                else t.events == s.events && t.reader.EventSeen? == s.reader.EventSeen?
                     && (s.reader.EventSeen? ==> t.reader == s.reader))
            && (s.reader.Challenged? || s.reader.ChallengedWith? <==>
                  t.reader.Challenged? || t.reader.ChallengedWith? || a.RegisterConnect?)
            && (a.RegisterConnect? ==> !t.reader.Challenged? && !t.reader.ChallengedWith?)
  {
  }

  /** In every interleaving: the responses and run events that were handled are exactly those that
      arrived, in their order, every challenge was answered by one connect, and the client is ready
      exactly when a hello has arrived. What the reader holds in its hand comes on top. */
  lemma {:induction false} NoFrameIsLost(actions: seq<Action>)
    requires Exec(actions).Some?
    ensures AllHandled(Exec(actions).value, ArrivedIn(actions))
  {
    if actions != [] {
      var init, a := actions[..|actions| - 1], actions[|actions| - 1];
      NoFrameIsLost(init);
      var s := Exec(init).value;
      if a.Arrive? {
        ArrivalStep(s, a.f, ArrivedIn(init));
      } else {
        HandlingStep(s, a, ArrivedIn(init));
        assert ArrivedIn(actions) == ArrivedIn(init);
      }
    }
  }

  // ---------- what the reader does about one frame ----------

  /** The reader's reaction to a frame that has just arrived. */
  ghost predicate Reaction(s: State, f: Frame, actions: seq<Action>, t: State) {
    && s.reader.Idle? && OnlyReader(actions)
    && ExecFrom(Apply(s, Arrive(f)), actions) == Some(t) && t.reader.Idle?
  }

  lemma One(s: State, a: Action)
    requires Enabled(s, a)
    ensures ExecFrom(s, [a]) == Some(Apply(s, a))
  {
    Extended(s, [], s, a);
    assert [] + [a] == [a];
  }

  lemma Two(s: State, a: Action, u: State, b: Action)
    requires Enabled(s, a) && u == Apply(s, a) && Enabled(u, b)
    ensures ExecFrom(s, [a, b]) == Some(Apply(u, b))
  {
    One(s, a);
    Extended(s, [a], u, b);
    assert [a] + [b] == [a, b];
  }

  lemma Three(s: State, a: Action, u: State, b: Action, v: State, c: Action)
    requires Enabled(s, a) && u == Apply(s, a) && Enabled(u, b) && v == Apply(u, b) && Enabled(v, c)
    ensures ExecFrom(s, [a, b, c]) == Some(Apply(v, c))
  {
    Two(s, a, u, b);
    Extended(s, [a, b], v, c);
    assert [a, b] + [c] == [a, b, c];
  }

  lemma ConnectSteps(s: State) returns (u: State, v: State, w: State, t: State)
    requires s.reader.Idle?
    ensures u == Apply(s, Arrive(Challenge)) && Enabled(u, NumberConnect)
    ensures v == Apply(u, NumberConnect) && Enabled(v, RegisterConnect)
    ensures w == Apply(v, RegisterConnect) && Enabled(w, WriteConnect)
    ensures t == Apply(w, WriteConnect)
    ensures t == Open(s.(seqNo := s.seqNo + 1), Connect(s.seqNo + 1), ByConnect(s.seqNo + 1))
  {
    u := Apply(s, Arrive(Challenge));
    v := Apply(u, NumberConnect);
    w := Apply(v, RegisterConnect);
    t := Apply(w, WriteConnect);
  }

  lemma LookedUp(s: State, f: Frame) returns (v: State)
    requires Reachable(s) && s.reader.Idle? && f.Response?
    ensures Enabled(Apply(s, Arrive(f)), LookupResponse) && v == Apply(Apply(s, Arrive(f)), LookupResponse)
    ensures v == s.(pending := s.pending - {f.id}, handled := s.handled + [f], ready := s.ready || IsHello(f),
                    reader := if f.id in s.pending then Sending(s.pending[f.id], ReplyOf(f)) else Idle)
    ensures v.reader.Sending? ==> Enabled(v, SendReply)
  {
    ReachNext(s, Arrive(f));
    v := Apply(s, Arrive(f));
    ReachNext(v, LookupResponse);
    v := Apply(v, LookupResponse);
    ReaderNeverBlocks(v);
    assert f.id !in s.pending ==> s.pending - {f.id} == s.pending;
  }

  /** A challenge is answered: the reader takes the next number, files a new channel for the connect
      and is back at the socket. */
  lemma ChallengeIsAnswered(s: State) returns (actions: seq<Action>, t: State)
    requires Reachable(s) && s.reader.Idle?
    ensures Reaction(s, Challenge, actions, t)
    ensures t.seqNo == s.seqNo + 1 && Connect(t.seqNo) !in s.pending
    ensures t.pending == s.pending[Connect(t.seqNo) := |s.chans|]
    ensures t.chans == s.chans + [Chan(ByConnect(t.seqNo), None, 0)]
    ensures t == s.(seqNo := t.seqNo, pending := t.pending, chans := t.chans)
  {
    ReachableReplyInv(s);
    var u, v, w;
    u, v, w, t := ConnectSteps(s);
    Three(u, NumberConnect, v, RegisterConnect, w, WriteConnect);
    actions := [NumberConnect, RegisterConnect, WriteConnect];
  }

  /** A response is taken to the call that waits for it, and to nobody else; one nobody waits for
      changes nothing. */
  lemma ResponseIsDelivered(s: State, f: Frame) returns (actions: seq<Action>, t: State)
    requires Reachable(s) && s.reader.Idle? && f.Response?
    ensures Reaction(s, f, actions, t)
    ensures f.id in s.pending ==>
              var c := s.pending[f.id];
              && c < |s.chans| == |t.chans| && t.chans == s.chans[c := t.chans[c]]
              && s.chans[c].buf == None && t.chans[c].buf.Some?
              && var r := t.chans[c].buf.value;
                 && (f.ok ==> r.payload == f.payload && r.err == "")
                 && (!f.ok ==> r.payload == NO_PAYLOAD && r.err == if f.error.None? then "request failed"
                               else f.error.value)
    ensures f.id !in s.pending ==> t.chans == s.chans
    ensures t == s.(pending := s.pending - {f.id}, chans := t.chans, handled := s.handled + [f],
                    ready := s.ready || IsHello(f))
  {
    var v := LookedUp(s, f);
    if f.id in s.pending {
      Two(Apply(s, Arrive(f)), LookupResponse, v, SendReply);
      actions, t := [LookupResponse, SendReply], Apply(v, SendReply);
    } else {
      One(Apply(s, Arrive(f)), LookupResponse);
      actions, t := [LookupResponse], v;
    }
  }

  lemma AppliedBy(c: Caller, kind: EventKind)
    ensures var d := Applied(c, kind);
            && d == c.(text := d.text, done := d.done, closes := d.closes)
            && d.text == (if kind.AssistantText? && kind.text != "" then kind.text else c.text)
            && (d.done <==> c.done || kind.LifecycleEnd?)
  {
  }

  lemma EventSteps(s: State, ev: AgentEvent) returns (u: State, v: State)
    requires Reachable(s) && s.reader.Idle? && ev.runId != ""
    ensures u == Apply(s, Arrive(AgentFrame(ev))) && Enabled(u, LookupRun) && v == Apply(u, LookupRun)
    ensures ev.runId !in s.runs ==> v == s.(events := s.events + [ev])
    ensures ev.runId in s.runs ==>
              var k := s.runs[ev.runId];
              && k < |s.callers| && Enabled(v, ApplyEvent)
              && Apply(v, ApplyEvent) ==
                   s.(events := s.events + [ev], callers := s.callers[k := Applied(s.callers[k], ev.kind)])
  {
    ReachableRuns(s);
    u := Apply(s, Arrive(AgentFrame(ev)));
    v := Apply(u, LookupRun);
  }

  /** An event goes to the run registered under its id, and to no other. Text that is not empty
      replaces the text so far, and an end closes the run. */
  lemma EventIsApplied(s: State, ev: AgentEvent) returns (actions: seq<Action>, t: State)
    requires Reachable(s) && s.reader.Idle?
    ensures Reaction(s, AgentFrame(ev), actions, t)
    ensures ev.runId == "" ==> t == s
    ensures ev.runId != "" ==> t == s.(events := s.events + [ev], callers := t.callers)
    ensures ev.runId !in s.runs ==> t.callers == s.callers
    ensures ev.runId in s.runs && ev.runId != "" ==>
              var k := s.runs[ev.runId];
              && k < |s.callers| == |t.callers| && t.callers == s.callers[k := t.callers[k]]
              && var c := s.callers[k];
                 var d := t.callers[k];
                 && d == c.(text := d.text, done := d.done, closes := d.closes)
                 && d.text == (if ev.kind.AssistantText? && ev.kind.text != "" then ev.kind.text else c.text)
                 && (d.done <==> c.done || ev.kind.LifecycleEnd?)
  {
    actions, t := [], s;
    if ev.runId == "" {
      return;
    }
    var u, v := EventSteps(s, ev);
    if ev.runId in s.runs {
      AppliedBy(s.callers[s.runs[ev.runId]], ev.kind);
      Two(u, LookupRun, v, ApplyEvent);
      actions, t := [LookupRun, ApplyEvent], Apply(v, ApplyEvent);
    } else {
      One(u, LookupRun);
      actions, t := [LookupRun], v;
    }
  }

  // ---------- what a reply means for its caller ----------

  /** No reply, a reply with an error text, one without a run id, and one with. */
  predicate ReplyDecides(c: Caller) {
    match c.reply
    case None =>
      c.runId == "" && (InCall(c) || c.pc.Start? || c.pc.Numbered? || GaveUp(c))
    case Some(r) =>
      if r.err != "" then c.pc == Done(RpcError(r.err)) && c.runId == ""
      else if r.payload.runId == "" then c.pc == Done(NoRunId) && c.runId == ""
      else c.runId == r.payload.runId && HasRunId(c)
  }

  /** The caller has a run id, and is anywhere between learning it and the end of the call. */
  predicate HasRunId(c: Caller) {
    || c.pc.RunKnown? || InRun(c)
    || (c.pc.Done? && (c.pc.out.ContextError? || c.pc.out.RunError? || c.pc.out.Answer?))
  }

  lemma ReplyDecidesStep(s: State, a: Action, k: nat)
    requires Enabled(s, a) && k < |Apply(s, a).callers| && (k < |s.callers| ==> ReplyDecides(s.callers[k]))
    ensures ReplyDecides(Apply(s, a).callers[k])
  {
    if k >= |s.callers| {
      assert a.Spawn?;
    } else if Mover(a) == Some(k) {
      OwnReplyStep(s, a, k);
    } else {
      OthersLeaveCall(s, a, k);
      OthersLeaveRunId(s, a, k);
    }
  }

  lemma OwnReplyStep(s: State, a: Action, k: nat)
    requires Enabled(s, a) && k < |s.callers| && Mover(a) == Some(k) && ReplyDecides(s.callers[k])
    ensures k < |Apply(s, a).callers| && ReplyDecides(Apply(s, a).callers[k])
  {
  }

  lemma OthersLeaveRunId(s: State, a: Action, k: nat)
    requires Enabled(s, a) && k < |s.callers| && Mover(a) != Some(k)
    ensures k < |Apply(s, a).callers| && Apply(s, a).callers[k].runId == s.callers[k].runId
  {
    if Mover(a).Some? {
      MoverMovesAlone(s, a, Mover(a).value, k);
    }
  }

  lemma {:induction false} RepliesDecide(actions: seq<Action>, k: nat)
    requires Exec(actions).Some? && k < |Exec(actions).value.callers|
    ensures ReplyDecides(Exec(actions).value.callers[k])
  {
    if actions != [] {
      var init, a := actions[..|actions| - 1], actions[|actions| - 1];
      var s := Exec(init).value;
      if k < |s.callers| {
        RepliesDecide(init, k);
      }
      ReplyDecidesStep(s, a, k);
    }
  }

  /** The outcome follows from the first frame with the caller's id that was handled after it
      registered, or from the disconnect: an ok frame gives the run id it carries, or its lack; a refusal gives
      its message, which makes the call fail unless it is empty. */
  lemma OutcomeFollowsFromFrame(s: State, k: nat) returns (f: Option<Frame>)
    requires Reachable(s) && k < |s.callers| && s.callers[k].reply.Some?
    ensures var c := s.callers[k];
            match f
            case None => c.ch in s.cut && c.pc == Done(RpcError("connection closed"))
            case Some(f) =>
              && (exists i: nat :: FirstWithId(s.handled, c.regAt, Req(c.n), i) && s.handled[i] == f)
              && (f.ok && f.payload.runId != "" ==> c.runId == f.payload.runId && HasRunId(c))
              && (f.ok && f.payload.runId == "" ==> c.pc == Done(NoRunId))
              && (!f.ok && f.error == Some("") ==> c.pc == Done(NoRunId))
              && (!f.ok && f.error.Some? && f.error.value != "" ==> c.pc == Done(RpcError(f.error.value)))
              && (!f.ok && f.error.None? ==> c.pc == Done(RpcError("request failed")))
  {
    var actions :| Exec(actions) == Some(s);
    RepliesDecide(actions, k);
    NoCrossTalk(s, k);
    var c := s.callers[k];
    if FirstFrameSays(s, c, c.reply.value) {
      var i: nat :| FirstWithId(s.handled, c.regAt, Req(c.n), i) && c.reply.value == ReplyOf(s.handled[i]);
      f := Some(s.handled[i]);
      CountsAsSuccess(f.value);
    } else {
      f := None;
      assert CLOSED.err[0] == 'c';
    }
  }

  // ---------- giving up ----------

  /** What a call that failed on its own account met. */
  predicate Named(actions: seq<Action>, k: nat, pc: Pc) {
    && (pc.WriteFailed? || pc == Done(WriteError) <==> WriteFails(k) in actions)
    && (pc.CallCancelled? || pc.RunCancelled? || pc == Done(ContextError) <==>
          CallTimeout(k) in actions || RunTimeout(k) in actions)
  }

  lemma NamedStep(init: seq<Action>, s: State, a: Action, k: nat)
    requires Enabled(s, a) && k < |s.callers| && Named(init, k, s.callers[k].pc)
    ensures k < |Apply(s, a).callers| && Named(init + [a], k, Apply(s, a).callers[k].pc)
  {
    assert forall x :: x in init + [a] <==> x in init || x == a;
    if Mover(a) == Some(k) {
      NamedOwn(s, a, k);
    } else {
      OthersLeaveCall(s, a, k);
    }
  }

  lemma NamedOwn(s: State, a: Action, k: nat)
    requires Enabled(s, a) && k < |s.callers| && Mover(a) == Some(k)
    ensures k < |Apply(s, a).callers|
    ensures var p := s.callers[k].pc;
            var q := Apply(s, a).callers[k].pc;
            && (q.WriteFailed? || q == Done(WriteError) <==>
               p.WriteFailed? || p == Done(WriteError) || a == WriteFails(k))
            && (q.CallCancelled? || q.RunCancelled? || q == Done(ContextError) <==>
                  p.CallCancelled? || p.RunCancelled? || p == Done(ContextError)
                  || a == CallTimeout(k) || a == RunTimeout(k))
  {
  }

  lemma {:induction false} NotYetThere(actions: seq<Action>, k: nat)
    requires Exec(actions).Some? && k >= |Exec(actions).value.callers|
    ensures WriteFails(k) !in actions && CallTimeout(k) !in actions && RunTimeout(k) !in actions
  {
    if actions != [] {
      var init, a := actions[..|actions| - 1], actions[|actions| - 1];
      var s := Exec(init).value;
      CallersOnlyGrow(s, a);
      NotYetThere(init, k);
      assert actions == init + [a];
    }
  }

  lemma CallersOnlyGrow(s: State, a: Action)
    requires Enabled(s, a)
    ensures |Apply(s, a).callers| == |s.callers| + if a.Spawn? then 1 else 0
  {
  }

  /** A call ends with a write error exactly when its write failed, and with a context error exactly
      when its time ran out, in the call or while it waited for its run. */
  lemma {:induction false} OutcomeNamesWhatHappened(actions: seq<Action>, k: nat)
    requires Exec(actions).Some? && k < |Exec(actions).value.callers|
    ensures Named(actions, k, Exec(actions).value.callers[k].pc)
  {
    if actions != [] {
      var init, a := actions[..|actions| - 1], actions[|actions| - 1];
      var s := Exec(init).value;
      assert actions == init + [a];
      if k < |s.callers| {
        OutcomeNamesWhatHappened(init, k);
        NamedStep(init, s, a, k);
      } else {
        NotYetThere(init, k);
        assert a.Spawn?;
      }
    }
  }

  // ---------- no call is held up for good ----------

  /** Steps of a caller until it has returned, at most. */
  function StepsLeft(pc: Pc): nat {
    match pc
    case Start => 4
    case Numbered => 3
    case Registered => 2
    case WriteFailed => 1
    case Waiting => 2
    case CallCancelled => 1
    case RunKnown => 3
    case Running => 2
    case RunDone => 1
    case RunCancelled => 1
    case Done(_) => 0
  }

  predicate OfReaderOr(k: nat, actions: seq<Action>) {
    forall a | a in actions :: OfReader(a) || Mover(a) == Some(k)
  }

  /** The step by which a call comes closer to its end, whatever happens around it. */
  function NextOfCaller(k: nat, pc: Pc): Action
    requires !pc.Done?
  {
    match pc
    case Start => TakeNumber(k)
    case Numbered => Register(k)
    case Registered => WriteFails(k)
    case WriteFailed => DropAfterWrite(k)
    case Waiting => CallTimeout(k)
    case CallCancelled => DropAfterTimeout(k)
    case RunKnown => RegisterRun(k)
    case Running => RunTimeout(k)
    case RunDone => Collect(k)
    case RunCancelled => DropRun(k)
  }

  lemma CallerAdvances(s: State, k: nat, a: Action)
    requires LockFree(s) && k < |s.callers| && !s.callers[k].pc.Done? && a == NextOfCaller(k, s.callers[k].pc)
    ensures Enabled(s, a) && Mover(a) == Some(k)
    ensures k < |Apply(s, a).callers| && StepsLeft(Apply(s, a).callers[k].pc) < StepsLeft(s.callers[k].pc)
    ensures LockFree(Apply(s, a))
  {
  }

  lemma {:induction false} CallerReturns(s: State, k: nat, actions: seq<Action>, u: State)
    returns (more: seq<Action>, t: State)
    requires LockFree(u) && k < |u.callers| && OfReaderOr(k, actions) && ExecFrom(s, actions) == Some(u)
    ensures OfReaderOr(k, more) && ExecFrom(s, more) == Some(t) && k < |t.callers| && t.callers[k].pc.Done?
    ensures |more| <= |actions| + StepsLeft(u.callers[k].pc)
    decreases StepsLeft(u.callers[k].pc)
  {
    more, t := actions, u;
    if !u.callers[k].pc.Done? {
      var a := NextOfCaller(k, u.callers[k].pc);
      CallerAdvances(u, k, a);
      Extended(s, actions, u, a);
      more, t := CallerReturns(s, k, actions + [a], Apply(u, a));
    }
  }

  lemma {:induction false} ReaderKeepsCallers(s: State, actions: seq<Action>, k: nat)
    requires OnlyReader(actions) && ExecFrom(s, actions).Some? && k < |s.callers|
    ensures k < |ExecFrom(s, actions).value.callers|
    ensures ExecFrom(s, actions).value.callers[k].pc == s.callers[k].pc
  {
    if actions != [] {
      var init, a := actions[..|actions| - 1], actions[|actions| - 1];
      assert a in actions && forall x | x in init :: x in actions;
      ReaderKeepsCallers(s, init, k);
      OthersLeaveCall(ExecFrom(s, init).value, a, k);
    }
  }

  /** From every reachable state every call can return by its own steps and the reader's, whatever the
      other calls do: at most four of its own on top of those the reader needs to release the lock. */
  lemma EveryCallCanReturn(s: State, k: nat) returns (actions: seq<Action>, t: State)
    requires Reachable(s) && k < |s.callers|
    ensures OfReaderOr(k, actions) && ExecFrom(s, actions) == Some(t) && |actions| <= ToGo(s.reader) + 4
    ensures k < |t.callers| && t.callers[k].pc.Done?
  {
    var first, u := ReaderNeedsNobody(s);
    ReaderKeepsCallers(s, first, k);
    actions, t := CallerReturns(s, k, first, u);
  }
}
