/** Agent runs of the gateway client: what `SendMessage` answers, over every interleaving. */
module RpcRuns {
  import opened MeshTypes
  import opened RpcModel
  import opened RpcReplies

  // ---------- run entries and run objects ----------

  /** Between registering its run and removing the entry. */
  predicate InRun(c: Caller) {
    c.pc.Running? || c.pc.RunDone? || c.pc.RunCancelled?
  }

  /** The run object is as it was allocated. */
  predicate Untouched(c: Caller) {
    c.text == "" && c.err == "" && !c.done && c.closes == 0
  }

  predicate RunObjectOk(s: State, c: Caller) {
    && c.closes == (if c.done then 1 else 0)
    && (InCall(c) || c.pc.Start? || c.pc.Numbered? ==> c.runId == "" && Untouched(c))
    && (c.pc.RunKnown? ==> c.runId != "" && Untouched(c))
    && (InRun(c) ==> c.runId != "" && c.runAt <= |s.events|)
    && (InRun(c) && c.late ==> s.reader.Exited? && c.runAt == |s.events|)
    && (c.pc.RunDone? ==> c.done)
  }

  /** The entry of its run id is the caller's own. */
  predicate Owns(s: State, k: nat)
    requires k < |s.callers|
  {
    s.callers[k].runId in s.runs && s.runs[s.callers[k].runId] == k
  }

  ghost predicate EntriesInv(s: State) {
    forall r :: r in s.runs ==>
      && s.runs[r] < |s.callers| && s.callers[s.runs[r]].runId == r && InRun(s.callers[s.runs[r]])
  }

  /** The event in the reader's hand is the last one looked up, and belongs to the run it was found under. */
  ghost predicate EventInv(s: State) {
    match s.reader
    case Handling(f) => f.Response?
    case EventSeen(ev) => ev.runId != ""
    case EventFor(ev, k) =>
      && |s.events| > 0 && s.events[|s.events| - 1] == ev && ev.runId != ""
      && k < |s.callers| && s.callers[k].runId == ev.runId
      && (InRun(s.callers[k]) || s.callers[k].pc.Done?)
      && (InRun(s.callers[k]) ==> s.callers[k].runAt < |s.events|)
    case _ => true
  }

  /** Exactly the callers that lost their entry are in their run without owning it; each lost it to
      another caller with the same run id. */
  ghost predicate LossOk(s: State, k: nat)
    requires k < |s.callers|
  {
    && (InRun(s.callers[k]) ==> (Owns(s, k) <==> k !in s.lost))
    && (k in s.lost ==>
          var l := s.lost[k];
          && (InRun(s.callers[k]) || s.callers[k].pc.Done?) && l.at <= |s.events| && (l.cut ==> s.reader.Exited?)
          && (l.cut ==> l.at == |s.events|)
          && l.taker < |s.callers| && l.taker != k && (InRun(s.callers[l.taker]) || s.callers[l.taker].pc.Done?)
          && s.callers[l.taker].runId == s.callers[k].runId != "")
  }

  /** The event in the reader's hand was looked up while the run it is for was registered, and no other. */
  ghost predicate HandOk(s: State, k: nat)
    requires k < |s.callers|
  {
    s.reader.EventFor? && InRun(s.callers[k]) ==>
      if k == s.reader.k then s.callers[k].runAt < |s.events| && (k in s.lost ==> s.lost[k].at == |s.events|)
      else
        || s.callers[k].runId != s.reader.ev.runId
        || s.callers[k].runAt == |s.events|
        || (k in s.lost && s.lost[k].at < |s.events|)
  }

  ghost predicate RunsInv(s: State) {
    && EntriesInv(s) && EventInv(s) && (forall k | k in s.lost :: k < |s.callers|)
    && (forall k: nat | k < |s.callers| :: LossOk(s, k) && HandOk(s, k))
    && forall k :: 0 <= k < |s.callers| ==> RunObjectOk(s, s.callers[k])
  }

  lemma EventsGrow(s: State, a: Action)
    requires Enabled(s, a)
    ensures Apply(s, a).events == if a.LookupRun? then s.events + [s.reader.ev] else s.events
  {
  }

  lemma RunsUntouched(s: State, a: Action, k: nat)
    requires Enabled(s, a) && k < |s.callers| && Mover(a) == None && !a.ApplyEvent? && !a.FinishDisconnect?
    ensures k < |Apply(s, a).callers| && Apply(s, a).callers[k] == s.callers[k]
  {
  }

  lemma NoMoverOnRun(s: State, a: Action, k: nat)
    requires Enabled(s, a) && k < |s.callers| && Mover(a) == None
    ensures k < |Apply(s, a).callers|
    ensures var c := s.callers[k];
            Apply(s, a).callers[k] ==
              if a.ApplyEvent? && s.reader.k == k then Applied(c, s.reader.ev.kind)
              else if a.FinishDisconnect? && k in s.runs.Values then Close(c.(err := CLOSED.err))
              else c
  {
    if !a.ApplyEvent? && !a.FinishDisconnect? {
      RunsUntouched(s, a, k);
    }
  }

  /** How a step of others touches a run object: the reader applies an event, or closes every
      registered run when the connection breaks. */
  lemma OthersOnRun(s: State, a: Action, k: nat)
    requires Enabled(s, a) && k < |s.callers| && Mover(a) != Some(k)
    ensures k < |Apply(s, a).callers|
    ensures var c := s.callers[k];
            Apply(s, a).callers[k] ==
              if a.ApplyEvent? && s.reader.k == k then Applied(c, s.reader.ev.kind)
              else if a.FinishDisconnect? && k in s.runs.Values then Close(c.(err := CLOSED.err))
              else c
  {
    match Mover(a)
    case None => NoMoverOnRun(s, a, k);
    case Some(j) => MoverMovesAlone(s, a, j, k);
  }

  lemma RunObjectOther(s: State, a: Action, k: nat)
    requires RunsInv(s) && Enabled(s, a) && k < |s.callers| && Mover(a) != Some(k)
    ensures k < |Apply(s, a).callers| && RunObjectOk(Apply(s, a), Apply(s, a).callers[k])
  {
    EventsGrow(s, a);
    OthersOnRun(s, a, k);
    assert RunObjectOk(s, s.callers[k]);
    if a.FinishDisconnect? && k in s.runs.Values {
      var r :| r in s.runs && s.runs[r] == k;
    }
  }

  lemma RunObjectOwn(s: State, a: Action, k: nat)
    requires k < |s.callers| && RunObjectOk(s, s.callers[k]) && Enabled(s, a) && Mover(a) == Some(k)
    ensures k < |Apply(s, a).callers| && RunObjectOk(Apply(s, a), Apply(s, a).callers[k])
  {
    EventsGrow(s, a);
  }

  lemma RunObjectStep(s: State, a: Action, k: nat)
    requires RunsInv(s) && Enabled(s, a) && k < |Apply(s, a).callers|
    ensures RunObjectOk(Apply(s, a), Apply(s, a).callers[k])
  {
    if k >= |s.callers| {
      assert a.Spawn?;
    } else if Mover(a) == Some(k) {
      assert RunObjectOk(s, s.callers[k]);
      RunObjectOwn(s, a, k);
    } else {
      RunObjectOther(s, a, k);
    }
  }

  /** Which entries of the run table a step leaves. */
  lemma RunTableStep(s: State, a: Action, r: string)
    requires Enabled(s, a) && r in Apply(s, a).runs
    ensures if a.RegisterRun? && s.callers[a.k].runId == r then Apply(s, a).runs[r] == a.k
            else
              && r in s.runs && Apply(s, a).runs[r] == s.runs[r]
              && (a.DropRun? || a.Collect? ==> s.callers[a.k].runId != r)
  {
  }

  lemma RunTableLoses(s: State, a: Action, r: string)
    requires Enabled(s, a) && r in s.runs
    ensures r in Apply(s, a).runs <==> !((a.DropRun? || a.Collect?) && s.callers[a.k].runId == r)
  {
  }

  /** A caller in its run leaves it by dropping or collecting it only. */
  lemma RunGoesOn(s: State, a: Action, k: nat)
    requires Enabled(s, a) && k < |s.callers| && InRun(s.callers[k]) && a != DropRun(k) && a != Collect(k)
    ensures k < |Apply(s, a).callers| && InRun(Apply(s, a).callers[k])
            && Apply(s, a).callers[k].runId == s.callers[k].runId
  {
    if Mover(a) != Some(k) {
      OthersOnRun(s, a, k);
    }
  }

  lemma EntriesStep(s: State, a: Action)
    requires RunsInv(s) && Enabled(s, a)
    ensures EntriesInv(Apply(s, a))
  {
    var t := Apply(s, a);
    forall r | r in t.runs
      ensures t.runs[r] < |t.callers| && t.callers[t.runs[r]].runId == r && InRun(t.callers[t.runs[r]])
    {
      RunTableStep(s, a, r);
      if !(a.RegisterRun? && r == s.callers[a.k].runId) {
        RunGoesOn(s, a, s.runs[r]);
      }
    }
  }

  /** Only a lookup puts an event into the reader's hand. */
  lemma HeldEvent(s: State, a: Action)
    requires Enabled(s, a) && Apply(s, a).reader.EventFor?
    ensures Apply(s, a).reader == s.reader || (a.LookupRun? && s.reader.ev.runId in s.runs)
    ensures a.LookupRun? ==> Apply(s, a).reader == EventFor(s.reader.ev, s.runs[s.reader.ev.runId])
  {
  }

  /** A caller whose run is over, or will be, keeps its run id and the point where it registered. */
  lemma RunPlaceStays(s: State, a: Action, k: nat)
    requires Enabled(s, a) && k < |s.callers| && (InRun(s.callers[k]) || s.callers[k].pc.Done?)
    ensures k < |Apply(s, a).callers|
    ensures var c := s.callers[k];
            var d := Apply(s, a).callers[k];
            && d.runId == c.runId && d.runAt == c.runAt
            && (InRun(d) ==> InRun(c)) && (InRun(d) || d.pc.Done?)
  {
    if Mover(a) != Some(k) {
      OthersOnRun(s, a, k);
    }
  }

  lemma EventStep(s: State, a: Action)
    requires RunsInv(s) && Enabled(s, a)
    ensures EventInv(Apply(s, a))
  {
    var t := Apply(s, a);
    EventsGrow(s, a);
    if t.reader.EventFor? {
      HeldEvent(s, a);
      assert RunObjectOk(s, s.callers[t.reader.k]);
      RunPlaceStays(s, a, t.reader.k);
    }
  }

  /** A caller's own steps that leave it in its run. */
  lemma OwnRunStep(s: State, a: Action, k: nat)
    requires Enabled(s, a) && k < |s.callers| && Mover(a) == Some(k)
    requires k < |Apply(s, a).callers| && InRun(Apply(s, a).callers[k])
    ensures a.RegisterRun? || a.SeeDone? || a.RunTimeout?
    ensures a.SeeDone? || a.RunTimeout? ==>
              InRun(s.callers[k]) && Apply(s, a) == Put(s, k, s.callers[k].(pc := Apply(s, a).callers[k].pc))
  {
  }

  /** Once the reader has exited it stays so; it exits by finishing a disconnect. */
  lemma ExitStep(s: State, a: Action)
    requires Enabled(s, a)
    ensures Apply(s, a).reader.Exited? <==> s.reader.Exited? || a.FinishDisconnect?
  {
  }

  // ---------- who owns an entry ----------

  /** The step takes the entry of caller `k` away. */
  predicate Takes(s: State, a: Action, k: nat)
    requires Enabled(s, a)
  {
    && (a.RegisterRun? || a.DropRun? || a.Collect?) && a.k != k
    && s.callers[a.k].runId in s.runs && s.runs[s.callers[a.k].runId] == k
  }

  lemma LostChanges(s: State, a: Action)
    requires Enabled(s, a)
    ensures Apply(s, a).lost == if a.RegisterRun? || a.DropRun? || a.Collect? then LostTo(s, a.k) else s.lost
  {
  }

  lemma LostStep(s: State, a: Action, k: nat)
    requires Enabled(s, a)
    ensures k in Apply(s, a).lost <==> k in s.lost || Takes(s, a, k)
    ensures k in Apply(s, a).lost ==>
              Apply(s, a).lost[k] == if Takes(s, a, k) then Loss(a.k, |s.events|, s.reader.Exited?) else s.lost[k]
  {
    LostChanges(s, a);
  }

  lemma OwnsStep(s: State, a: Action, k: nat)
    requires EntriesInv(s) && Enabled(s, a) && k < |s.callers| && Mover(a) != Some(k)
    ensures k < |Apply(s, a).callers|
    ensures Owns(Apply(s, a), k) <==> Owns(s, k) && !Takes(s, a, k)
  {
    OthersOnRun(s, a, k);
    var r := s.callers[k].runId;
    assert Apply(s, a).callers[k].runId == r;
    if r in s.runs {
      RunTableLoses(s, a, r);
    }
    if r in Apply(s, a).runs {
      RunTableStep(s, a, r);
    }
  }

  /** Only an entry that is owned can be taken. */
  lemma TakenFromOwner(s: State, a: Action, k: nat)
    requires RunsInv(s) && Enabled(s, a) && Takes(s, a, k)
    ensures k < |s.callers| && InRun(s.callers[k]) && Owns(s, k) && k !in s.lost
    ensures s.callers[a.k].runId == s.callers[k].runId != "" && (InRun(s.callers[a.k]) || s.callers[a.k].pc.RunKnown?)
  {
    assert RunObjectOk(s, s.callers[k]) && LossOk(s, k);
  }

  lemma LossStepOwn(s: State, a: Action, k: nat)
    requires RunsInv(s) && Enabled(s, a) && k < |s.callers| && Mover(a) == Some(k)
    ensures k < |Apply(s, a).callers|
    ensures InRun(Apply(s, a).callers[k]) ==> (Owns(Apply(s, a), k) <==> k !in Apply(s, a).lost)
    ensures k in s.lost ==> InRun(Apply(s, a).callers[k]) || Apply(s, a).callers[k].pc.Done?
  {
    assert LossOk(s, k) && RunObjectOk(s, s.callers[k]);
    LostStep(s, a, k);
  }

  lemma LossStepOther(s: State, a: Action, k: nat)
    requires RunsInv(s) && Enabled(s, a) && k < |s.callers| && Mover(a) != Some(k)
    ensures k < |Apply(s, a).callers|
    ensures InRun(Apply(s, a).callers[k]) ==> (Owns(Apply(s, a), k) <==> k !in Apply(s, a).lost)
    ensures k in Apply(s, a).lost ==> InRun(Apply(s, a).callers[k]) || Apply(s, a).callers[k].pc.Done?
  {
    assert LossOk(s, k);
    OthersOnRun(s, a, k);
    OwnsStep(s, a, k);
    LostStep(s, a, k);
    if Takes(s, a, k) {
      TakenFromOwner(s, a, k);
    }
  }

  /** The taker of a lost entry stays what it is. */
  lemma TakerStays(s: State, a: Action, k: nat)
    requires RunsInv(s) && Enabled(s, a) && k < |s.callers| && k in Apply(s, a).lost
    ensures var t := Apply(s, a);
            var l := t.lost[k];
            && k < |t.callers| && l.taker < |t.callers| && l.taker != k
            && (InRun(t.callers[l.taker]) || t.callers[l.taker].pc.Done?)
            && t.callers[l.taker].runId == t.callers[k].runId != ""
  {
    LostStep(s, a, k);
    if Takes(s, a, k) {
      TakenFromOwner(s, a, k);
      RunPlaceStays(s, a, k);
      TakerArrives(s, a);
    } else {
      assert LossOk(s, k);
      RunPlaceStays(s, a, k);
      RunPlaceStays(s, a, s.lost[k].taker);
    }
  }

  lemma TakerArrives(s: State, a: Action)
    requires Enabled(s, a) && (a.RegisterRun? || a.DropRun? || a.Collect?)
    ensures var c := Apply(s, a).callers;
            a.k < |c| && (InRun(c[a.k]) || c[a.k].pc.Done?) && c[a.k].runId == s.callers[a.k].runId
  {
  }

  /** A loss that is noted stays as it was noted. */
  lemma LossNoted(s: State, a: Action, k: nat)
    requires RunsInv(s) && Enabled(s, a) && k < |s.callers| && k in Apply(s, a).lost
    ensures var t := Apply(s, a);
            var l := t.lost[k];
            l.at <= |t.events| && (l.cut ==> t.reader.Exited? && l.at == |t.events|)
  {
    assert LossOk(s, k);
    LostStep(s, a, k);
    EventsGrow(s, a);
    ExitStep(s, a);
  }

  lemma LossStep(s: State, a: Action, k: nat)
    requires RunsInv(s) && Enabled(s, a) && k < |Apply(s, a).callers|
    ensures LossOk(Apply(s, a), k)
  {
    if k >= |s.callers| {
      LostStep(s, a, k);
      NewCallersAreFree(s, a, k);
    } else {
      if Mover(a) == Some(k) {
        LossStepOwn(s, a, k);
        LostStep(s, a, k);
      } else {
        LossStepOther(s, a, k);
      }
      if k in Apply(s, a).lost {
        TakerStays(s, a, k);
        LossNoted(s, a, k);
      }
    }
  }

  lemma NewCallersAreFree(s: State, a: Action, k: nat)
    requires RunsInv(s) && Enabled(s, a) && |s.callers| <= k < |Apply(s, a).callers|
    ensures !InRun(Apply(s, a).callers[k]) && k !in Apply(s, a).lost
  {
    assert a.Spawn?;
  }

  /** An event that is looked up finds no other waiting caller registered for it. */
  lemma HandAfterLookup(s: State, k: nat)
    requires RunsInv(s) && Enabled(s, LookupRun) && k < |s.callers| && InRun(s.callers[k])
    ensures k < |Apply(s, LookupRun).callers| && HandOk(Apply(s, LookupRun), k)
  {
    assert LossOk(s, k) && RunObjectOk(s, s.callers[k]);
  }

  lemma HandGoesOn(s: State, a: Action, k: nat)
    requires RunsInv(s) && Enabled(s, a) && k < |s.callers| && InRun(s.callers[k])
    requires Apply(s, a).reader == s.reader && s.reader.EventFor?
    ensures k < |Apply(s, a).callers| && HandOk(Apply(s, a), k)
  {
    assert HandOk(s, k);
    EventsGrow(s, a);
    LostStep(s, a, k);
    RunPlaceStays(s, a, k);
    if Takes(s, a, k) {
      TakenFromOwner(s, a, k);
    }
  }

  lemma HandStep(s: State, a: Action, k: nat)
    requires RunsInv(s) && Enabled(s, a) && k < |Apply(s, a).callers|
    ensures HandOk(Apply(s, a), k)
  {
    var t := Apply(s, a);
    if k >= |s.callers| {
      assert a.Spawn?;
    } else if t.reader.EventFor? && InRun(t.callers[k]) {
      HeldEvent(s, a);
      if !InRun(s.callers[k]) {
        HandAtStart(s, a, k);
      } else if a.LookupRun? {
        HandAfterLookup(s, k);
      } else {
        HandGoesOn(s, a, k);
      }
    }
  }

  lemma HandAtStart(s: State, a: Action, k: nat)
    requires RunsInv(s) && Enabled(s, a) && k < |s.callers| && !InRun(s.callers[k])
    requires k < |Apply(s, a).callers| && InRun(Apply(s, a).callers[k])
    ensures HandOk(Apply(s, a), k)
  {
    if Mover(a) != Some(k) {
      OthersOnRun(s, a, k);
    }
    OwnRunStep(s, a, k);
    assert RunObjectOk(s, s.callers[k]);
  }

  lemma RunsInvStep(s: State, a: Action)
    requires RunsInv(s) && Enabled(s, a)
    ensures RunsInv(Apply(s, a))
  {
    var t := Apply(s, a);
    EntriesStep(s, a);
    EventStep(s, a);
    forall k: nat | k in t.lost
      ensures k < |t.callers|
    {
      LostStep(s, a, k);
      CallersStay(s, a);
      if Takes(s, a, k) {
        TakenFromOwner(s, a, k);
      }
    }
    forall k: nat | k < |t.callers|
      ensures LossOk(t, k) && HandOk(t, k)
    {
      LossStep(s, a, k);
      HandStep(s, a, k);
    }
    forall k | 0 <= k < |t.callers|
      ensures RunObjectOk(t, t.callers[k])
    {
      RunObjectStep(s, a, k);
    }
  }

  lemma CallersStay(s: State, a: Action)
    requires Enabled(s, a)
    ensures |s.callers| <= |Apply(s, a).callers|
  {
  }

  // ---------- what a run has seen ----------

  /** The latest non-empty assistant text for the run. */
  function LastText(events: seq<AgentEvent>, r: string): string {
    if events == [] then ""
    else
      var e := events[|events| - 1];
      if e.runId == r && e.kind.AssistantText? && e.kind.text != "" then e.kind.text
      else LastText(events[..|events| - 1], r)
  }

  /** The run's end is among the events. */
  predicate EndsIn(events: seq<AgentEvent>, r: string) {
    AgentEvent(r, LifecycleEnd) in events
  }

  function Span(events: seq<AgentEvent>, from: nat, to: nat): seq<AgentEvent>
    requires to <= |events|
  {
    if from <= to then events[from..to] else []
  }

  /** A disconnect was handled while the caller's run was registered. */
  predicate CutWhile(s: State, k: nat)
    requires k < |s.callers|
  {
    s.reader.Exited? && !s.callers[k].late && (k in s.lost ==> s.lost[k].cut)
  }

  /** Of the first `n` events, those that were looked up while the caller's run was registered: from its
      registration until another caller took its entry, if one did. */
  function Window(s: State, k: nat, n: nat): seq<AgentEvent>
    requires k < |s.callers| && n <= |s.events|
  {
    Span(s.events, s.callers[k].runAt, if k in s.lost && s.lost[k].at < n then s.lost[k].at else n)
  }

  /** The run object holds what the events of its window say, until a disconnect closes it. */
  predicate SeesEvents(s: State, k: nat)
    requires k < |s.callers|
  {
    var c := s.callers[k];
    var seen := Window(s, k, AppliedCount(s));
    && c.text == LastText(seen, c.runId)
    && (c.done <==> CutWhile(s, k) || EndsIn(seen, c.runId))
    && c.err == (if CutWhile(s, k) then CLOSED.err else "")
  }

  function TextOr(text: string): string {
    if text == "" then "(no response)" else text
  }

  /** A collected result depends only on what was handled while the run was registered. */
  predicate CollectedOk(s: State, k: nat)
    requires k < |s.callers|
  {
    var c := s.callers[k];
    c.pc.Done? && (c.pc.out.RunError? || c.pc.out.Answer?) ==>
      && c.readAt <= |s.events|
      && var seen := Window(s, k, c.readAt);
         if c.cutAt && (k in s.lost ==> s.lost[k].cut) then c.pc.out == RunError(CLOSED.err)
         else c.pc.out == Answer(TextOr(LastText(seen, c.runId))) && EndsIn(seen, c.runId)
  }

  ghost predicate RunOk(s: State, k: nat)
    requires k < |s.callers|
  {
    (InRun(s.callers[k]) ==> SeesEvents(s, k)) && CollectedOk(s, k)
  }

  lemma SpanGrows(events: seq<AgentEvent>, from: nat, to: nat)
    requires to < |events|
    ensures from <= to ==> Span(events, from, to + 1) == Span(events, from, to) + [events[to]]
    ensures from > to ==> Span(events, from, to + 1) == []
  {
  }

  lemma SpanStays(events: seq<AgentEvent>, more: seq<AgentEvent>, from: nat, to: nat)
    requires to <= |events|
    ensures Span(events + more, from, to) == Span(events, from, to)
  {
  }

  /** One more event changes the text and the end of its own run only. */
  lemma OneMoreEvent(events: seq<AgentEvent>, e: AgentEvent, r: string)
    ensures e.runId != r ==>
            LastText(events + [e], r) == LastText(events, r) && EndsIn(events + [e], r) == EndsIn(events, r)
    ensures e.runId == r ==>
              && LastText(events + [e], r) == (if e.kind.AssistantText? && e.kind.text != "" then e.kind.text
                 else LastText(events, r))
              && EndsIn(events + [e], r) == (EndsIn(events, r) || e.kind.LifecycleEnd?)
  {
    assert (events + [e])[..|events|] == events;
  }

  /** Which steps move the count of applied events: a lookup that finds no run, and an application. */
  lemma AppliedGrows(s: State, a: Action)
    requires RunsInv(s) && Enabled(s, a)
    ensures var n := AppliedCount(s);
            AppliedCount(Apply(s, a)) ==
              if a.ApplyEvent? || (a.LookupRun? && s.reader.ev.runId !in s.runs) then n + 1 else n
    ensures a.ApplyEvent? ==> AppliedCount(s) == |s.events| - 1
    ensures a.LookupRun? ==> AppliedCount(s) == |s.events|
  {
  }

  /** Two event lists look alike to a run. */
  predicate SameFor(a: seq<AgentEvent>, b: seq<AgentEvent>, r: string) {
    LastText(a, r) == LastText(b, r) && EndsIn(a, r) == EndsIn(b, r)
  }

  /** A lookup of an event that belongs to no registered run shows it to nobody who is waiting; any other
      is shown only when it is applied. */
  lemma WindowAfterLookup(s: State, ev: AgentEvent, k: nat, end: nat)
    requires k < |s.callers| && LossOk(s, k) && InRun(s.callers[k])
    requires end == |s.events| + if ev.runId in s.runs then 0 else 1
    ensures var t := s.(events := s.events + [ev]);
            SameFor(Window(t, k, end), Window(s, k, |s.events|), s.callers[k].runId)
  {
    var c, n := s.callers[k], |s.events|;
    SpanStays(s.events, [ev], c.runAt, if k in s.lost && s.lost[k].at < n then s.lost[k].at else n);
    if ev.runId !in s.runs && k !in s.lost {
      assert Owns(s, k);
      SpanGrows(s.events + [ev], c.runAt, n);
      OneMoreEvent(Span(s.events, c.runAt, n), ev, c.runId);
    }
  }

  /** An event that is applied is the next one of its run's window, and is in no other. */
  lemma WindowAfterApply(s: State, k: nat)
    requires RunsInv(s) && Enabled(s, ApplyEvent) && k < |s.callers| && InRun(s.callers[k])
    ensures |s.events| > 0
    ensures var r := s.callers[k].runId;
            var before := Window(s, k, |s.events| - 1);
            var after := Window(s, k, |s.events|);
            && (s.reader.k == k ==> after == before + [s.reader.ev] && s.reader.ev.runId == r)
            && (s.reader.k != k ==> SameFor(after, before, r))
  {
    var c, n := s.callers[k], |s.events| - 1;
    assert HandOk(s, k) && LossOk(s, k) && RunObjectOk(s, c);
    SpanGrows(s.events, c.runAt, n);
    OneMoreEvent(Span(s.events, c.runAt, n), s.events[n], c.runId);
  }

  /** A step of others on what a run has seen: one event of its own, or nothing that concerns it. */
  lemma WindowStep(s: State, a: Action, k: nat)
    requires RunsInv(s) && Enabled(s, a) && k < |s.callers| && InRun(s.callers[k]) && Mover(a) != Some(k)
    ensures var t := Apply(s, a);
            && k < |t.callers| && t.callers[k].runAt == s.callers[k].runAt && AppliedCount(t) <= |t.events|
            && var r := s.callers[k].runId;
               var before := Window(s, k, AppliedCount(s));
               var after := Window(t, k, AppliedCount(t));
               if a.ApplyEvent? && s.reader.k == k then after == before + [s.reader.ev] && s.reader.ev.runId == r
               else SameFor(after, before, r)
  {
    assert LossOk(s, k);
    RunPlaceStays(s, a, k);
    EventsGrow(s, a);
    AppliedGrows(s, a);
    LostStep(s, a, k);
    if a.LookupRun? {
      WindowAfterLookup(s, s.reader.ev, k, AppliedCount(Apply(s, a)));
    } else if a.ApplyEvent? {
      WindowAfterApply(s, k);
    }
  }

  lemma CutWhileStep(s: State, a: Action, k: nat)
    requires RunsInv(s) && Enabled(s, a) && k < |s.callers| && InRun(s.callers[k]) && Mover(a) != Some(k)
    ensures k < |Apply(s, a).callers|
    ensures CutWhile(Apply(s, a), k) <==> CutWhile(s, k) || (a.FinishDisconnect? && k !in s.lost)
    ensures a.FinishDisconnect? ==> (k in s.runs.Values <==> k !in s.lost)
  {
    assert LossOk(s, k) && RunObjectOk(s, s.callers[k]);
    OthersOnRun(s, a, k);
    LostStep(s, a, k);
    ExitStep(s, a);
    if a.FinishDisconnect? && k in s.runs.Values {
      var r :| r in s.runs && s.runs[r] == k;
    }
  }

  lemma SeesEventsOther(s: State, a: Action, k: nat)
    requires RunsInv(s) && Enabled(s, a)
    requires k < |s.callers| && Mover(a) != Some(k) && InRun(s.callers[k]) && SeesEvents(s, k)
    ensures k < |Apply(s, a).callers| && SeesEvents(Apply(s, a), k)
  {
    OthersOnRun(s, a, k);
    WindowStep(s, a, k);
    CutWhileStep(s, a, k);
    if a.ApplyEvent? && s.reader.k == k {
      OneMoreEvent(Window(s, k, AppliedCount(s)), s.reader.ev, s.callers[k].runId);
    }
  }

  lemma SeesEventsOwn(s: State, a: Action, k: nat)
    requires RunsInv(s) && Enabled(s, a) && k < |s.callers| && Mover(a) == Some(k)
    requires InRun(s.callers[k]) ==> SeesEvents(s, k)
    requires k < |Apply(s, a).callers| && InRun(Apply(s, a).callers[k])
    ensures SeesEvents(Apply(s, a), k)
  {
    OwnRunStep(s, a, k);
    if a.RegisterRun? {
      SeesEventsFirst(s, k);
    }
  }

  lemma SeesEventsFirst(s: State, k: nat)
    requires RunsInv(s) && Enabled(s, RegisterRun(k))
    ensures SeesEvents(Apply(s, RegisterRun(k)), k)
  {
    assert RunObjectOk(s, s.callers[k]);
  }

  lemma CollectedStays(s: State, t: State, k: nat)
    requires k < |s.callers| && k < |t.callers| && CollectedOk(s, k) && s.events <= t.events
    requires k in s.lost <==> k in t.lost
    requires k in s.lost ==> t.lost[k] == s.lost[k]
    requires var c := s.callers[k];
             var d := t.callers[k];
             d.pc == c.pc && d.runId == c.runId && d.runAt == c.runAt && d.readAt == c.readAt && d.cutAt == c.cutAt
    ensures CollectedOk(t, k)
  {
    var c := s.callers[k];
    if c.readAt <= |s.events| {
      var end := if k in s.lost && s.lost[k].at < c.readAt then s.lost[k].at else c.readAt;
      assert s.events + t.events[|s.events|..] == t.events;
      SpanStays(s.events, t.events[|s.events|..], c.runAt, end);
    }
  }

  lemma CollectedOther(s: State, a: Action, k: nat)
    requires RunsInv(s) && Enabled(s, a) && k < |s.callers| && CollectedOk(s, k) && Mover(a) != Some(k)
    ensures k < |Apply(s, a).callers| && CollectedOk(Apply(s, a), k)
  {
    EventsGrow(s, a);
    OthersOnRun(s, a, k);
    LostStep(s, a, k);
    if s.callers[k].pc.Done? {
      if Takes(s, a, k) {
        TakenFromOwner(s, a, k);
      }
      CollectedStays(s, Apply(s, a), k);
    }
  }

  lemma CollectedOwn(s: State, a: Action, k: nat)
    requires RunsInv(s) && Enabled(s, a) && k < |s.callers| && RunOk(s, k) && Mover(a) == Some(k)
    ensures k < |Apply(s, a).callers| && CollectedOk(Apply(s, a), k)
  {
    if a.Collect? {
      CollectedNow(s, k);
    }
  }

  lemma CollectedNow(s: State, k: nat)
    requires RunsInv(s) && Enabled(s, Collect(k)) && SeesEvents(s, k)
    ensures CollectedOk(Apply(s, Collect(k)), k)
  {
    assert RunObjectOk(s, s.callers[k]) && s.callers[k].done;
    LostStep(s, Collect(k), k);
    assert Window(Apply(s, Collect(k)), k, AppliedCount(s)) == Window(s, k, AppliedCount(s));
  }

  lemma RunOkOwn(s: State, a: Action, k: nat)
    requires RunsInv(s) && Enabled(s, a) && k < |s.callers| && Mover(a) == Some(k) && RunOk(s, k)
    ensures k < |Apply(s, a).callers| && RunOk(Apply(s, a), k)
  {
    CollectedOwn(s, a, k);
    if InRun(Apply(s, a).callers[k]) {
      SeesEventsOwn(s, a, k);
    }
  }

  lemma RunOkOther(s: State, a: Action, k: nat)
    requires RunsInv(s) && Enabled(s, a) && k < |s.callers| && Mover(a) != Some(k) && RunOk(s, k)
    ensures k < |Apply(s, a).callers| && RunOk(Apply(s, a), k)
  {
    CollectedOther(s, a, k);
    OthersLeaveCall(s, a, k);
    if InRun(s.callers[k]) {
      SeesEventsOther(s, a, k);
    }
  }

  lemma RunOkNew(s: State, a: Action, k: nat)
    requires Enabled(s, a) && |s.callers| <= k < |Apply(s, a).callers|
    ensures RunOk(Apply(s, a), k)
  {
    assert a.Spawn?;
  }

  lemma RunOkStep(s: State, a: Action, k: nat)
    requires RunsInv(s) && Enabled(s, a) && k < |Apply(s, a).callers|
    requires k < |s.callers| ==> RunOk(s, k)
    ensures RunOk(Apply(s, a), k)
  {
    if k >= |s.callers| {
      RunOkNew(s, a, k);
    } else if Mover(a) == Some(k) {
      RunOkOwn(s, a, k);
    } else {
      RunOkOther(s, a, k);
    }
  }

  // ---------- every run of the system ----------

  lemma {:induction false} EveryRunKeepsRuns(actions: seq<Action>)
    requires Exec(actions).Some?
    ensures var s := Exec(actions).value; RunsInv(s) && forall k: nat | k < |s.callers| :: RunOk(s, k)
  {
    if actions != [] {
      var s := Exec(actions[..|actions| - 1]).value;
      var a := actions[|actions| - 1];
      var t := Apply(s, a);
      EveryRunKeepsRuns(actions[..|actions| - 1]);
      RunsInvStep(s, a);
      forall k: nat | k < |t.callers|
        ensures RunOk(t, k)
      {
        RunOkStep(s, a, k);
      }
    }
  }

  lemma ReachableRuns(s: State)
    requires Reachable(s)
    ensures RunsInv(s) && forall k: nat | k < |s.callers| :: RunOk(s, k)
  {
    var actions :| Exec(actions) == Some(s);
    EveryRunKeepsRuns(actions);
  }

  // ---------- the promises ----------

  /** `LastText` is the text of the latest event that sets one, or nothing if there is none. */
  lemma {:induction false} LastTextIsLatest(events: seq<AgentEvent>, r: string)
    ensures LastText(events, r) == "" <==> forall i | 0 <= i < |events| :: !SetsText(events[i], r)
    ensures LastText(events, r) != "" ==>
            exists i :: IsLatest(events, r, i) && events[i].kind.text == LastText(events, r)
  {
    if events != [] {
      var n := |events| - 1;
      LastTextIsLatest(events[..n], r);
      if SetsText(events[n], r) {
        assert IsLatest(events, r, n);
      } else if LastText(events[..n], r) != "" {
        var i :| IsLatest(events[..n], r, i) && events[..n][i].kind.text == LastText(events[..n], r);
        assert IsLatest(events, r, i);
      }
    }
  }

  predicate IsLatest(events: seq<AgentEvent>, r: string, i: int) {
    0 <= i < |events| && SetsText(events[i], r) && forall j :: i < j < |events| ==> !SetsText(events[j], r)
  }

  predicate SetsText(e: AgentEvent, r: string) {
    e.runId == r && e.kind.AssistantText? && e.kind.text != ""
  }

  /** What a run that is collected answers, whatever run ids the gateway issues. If a disconnect was
      handled while it was registered it reports that; otherwise its end was handled while it was
      registered, and it answers with the latest text handled while it was registered. */
  lemma CollectedResult(s: State, k: nat)
    requires Reachable(s) && k < |s.callers|
    requires s.callers[k].pc.Done? && (s.callers[k].pc.out.Answer? || s.callers[k].pc.out.RunError?)
    ensures var c := s.callers[k];
            && c.readAt <= |s.events|
            && (c.pc.out.RunError? <==> c.cutAt && (k in s.lost ==> s.lost[k].cut))
            && (c.pc.out.RunError? ==> c.pc.out.err == "connection closed")
            && (c.pc.out.Answer? ==>
                  var seen := Window(s, k, c.readAt);
                  EndsIn(seen, c.runId) && c.pc.out.text == TextOr(LastText(seen, c.runId)))
  {
    ReachableRuns(s);
    assert RunOk(s, k);
  }

  /** A caller waiting for its run goes on, other than by its timeout, exactly when a disconnect or the
      run's end was handled while its run was registered. */
  lemma WaitEndsExactly(s: State, k: nat)
    requires Reachable(s) && At(s, k, Running)
    ensures Enabled(s, SeeDone(k)) <==>
              CutWhile(s, k) || EndsIn(Window(s, k, AppliedCount(s)), s.callers[k].runId)
  {
    ReachableRuns(s);
    assert RunOk(s, k);
  }

  predicate ShareRun(s: State, k: nat, j: nat) {
    k < |s.callers| && j < |s.callers| && j != k && s.callers[j].runId == s.callers[k].runId != ""
  }

  /** Only another caller with the same run id takes an entry: where the gateway issues distinct run ids,
      a window reaches to the present. */
  lemma OnlySharingLoses(s: State, k: nat)
    requires Reachable(s) && k in s.lost
    ensures k < |s.callers|
    ensures exists j :: ShareRun(s, k, j)
  {
    ReachableRuns(s);
    assert LossOk(s, k);
    assert ShareRun(s, k, s.lost[k].taker);
  }

  /** A run entry belongs to a caller that has not returned, whatever run ids the gateway issues. */
  lemma NoRunOutlivesItsCaller(s: State, r: string)
    requires Reachable(s) && r in s.runs
    ensures s.runs[r] < |s.callers| && s.callers[s.runs[r]].runId == r && InRun(s.callers[s.runs[r]])
  {
    ReachableRuns(s);
  }

  /** `done` is closed at most once: closing it twice would panic. */
  lemma DoneClosedAtMostOnce(s: State, k: nat)
    requires Reachable(s) && k < |s.callers|
    ensures s.callers[k].closes == if s.callers[k].done then 1 else 0
  {
    ReachableRuns(s);
    assert RunObjectOk(s, s.callers[k]);
  }

  // ---------- the reader needs nobody ----------

  predicate OfReader(a: Action) {
    || a.LookupResponse? || a.SendReply? || a.NumberConnect? || a.RegisterConnect? || a.WriteConnect?
    || a.LookupRun? || a.ApplyEvent? || a.FailOne? || a.FinishDisconnect?
  }

  predicate OnlyReader(actions: seq<Action>) {
    forall a | a in actions :: OfReader(a)
  }

  /** Steps until the reader is back at the socket, or gone. */
  function ToGo(r: Reader): nat {
    match r
    case Idle => 0
    case Handling(_) => 2
    case Sending(_, _) => 1
    case Challenged => 3
    case ChallengedWith(_) => 2
    case ConnectSent => 1
    case EventSeen(_) => 2
    case EventFor(_, _) => 1
    case Disconnecting(todo) => 1 + |todo|
    case Exited => 0
  }

  lemma ReaderAdvances(s: State, a: Action)
    requires OfReader(a) && Enabled(s, a)
    ensures ToGo(Apply(s, a).reader) < ToGo(s.reader)
  {
    match a
    case FailOne(id) => assert |s.reader.todo - {id}| < |s.reader.todo|;
    case _ =>
  }

  lemma NextOfReader(s: State) returns (a: Action)
    requires Reachable(s) && !s.reader.Idle? && !s.reader.Exited?
    ensures OfReader(a) && Enabled(s, a)
  {
    ReaderNeverBlocks(s);
    ReachableRuns(s);
    match s.reader
    case Handling(_) => a := LookupResponse;
    case Sending(_, _) => a := SendReply;
    case Challenged => a := NumberConnect;
    case ChallengedWith(_) => a := RegisterConnect;
    case ConnectSent => a := WriteConnect;
    case EventSeen(_) => a := LookupRun;
    case EventFor(_, _) => a := ApplyEvent;
    case Disconnecting(todo) =>
      if todo == {} {
        a := FinishDisconnect;
      } else {
        var id :| id in todo;
        a := FailOne(id);
      }
  }

  lemma Extended(s: State, actions: seq<Action>, u: State, a: Action)
    requires ExecFrom(s, actions) == Some(u) && Enabled(u, a)
    ensures ExecFrom(s, actions + [a]) == Some(Apply(u, a))
  {
    assert (actions + [a])[..|actions|] == actions;
  }

  lemma ReaderExtends(s: State, actions: seq<Action>, u: State) returns (more: seq<Action>, t: State)
    requires Reachable(u) && OnlyReader(actions) && ExecFrom(s, actions) == Some(u)
    requires !u.reader.Idle? && !u.reader.Exited?
    ensures Reachable(t) && OnlyReader(more) && ExecFrom(s, more) == Some(t)
    ensures |more| == |actions| + 1 && ToGo(t.reader) < ToGo(u.reader)
  {
    var a := NextOfReader(u);
    ReaderAdvances(u, a);
    ReachNext(u, a);
    Extended(s, actions, u, a);
    more, t := actions + [a], Apply(u, a);
  }

  lemma {:induction false} ReaderReturns(s: State, actions: seq<Action>, u: State) returns (more: seq<Action>, t: State)
    requires Reachable(u) && OnlyReader(actions) && ExecFrom(s, actions) == Some(u)
    ensures Reachable(t) && OnlyReader(more) && ExecFrom(s, more) == Some(t) && |more| <= |actions| + ToGo(u.reader)
    ensures t.reader.Idle? || t.reader.Exited?
    decreases ToGo(u.reader)
  {
    more, t := actions, u;
    if !u.reader.Idle? && !u.reader.Exited? {
      more, t := ReaderExtends(s, actions, u);
      more, t := ReaderReturns(s, more, t);
    }
  }

  /** From every reachable state the reader gets back to the socket, or to its end, by its own steps
      alone: it never waits for a caller. In a disconnect it takes one step for each id that is still
      to fail and one more, so the lock it holds is released. */
  lemma ReaderNeedsNobody(s: State) returns (actions: seq<Action>, t: State)
    requires Reachable(s)
    ensures OnlyReader(actions) && ExecFrom(s, actions) == Some(t) && |actions| <= ToGo(s.reader)
    ensures t.reader.Idle? || t.reader.Exited?
  {
    actions, t := ReaderReturns(s, [], s);
  }

  // ---------- waiting for ever ----------

  /** Nothing but its own timeout ends the caller's wait, whatever happens. */
  ghost predicate Stuck(s: State, k: nat) {
    forall actions | ExecFrom(s, actions).Some? && RunTimeout(k) !in actions ::
      At(ExecFrom(s, actions).value, k, Running) && !Enabled(ExecFrom(s, actions).value, SeeDone(k))
  }

  /** The reader is about to apply the end of the caller's run. */
  predicate EndInHand(s: State, k: nat) {
    s.reader.EventFor? && s.reader.k == k && s.reader.ev.kind.LifecycleEnd?
  }

  /** The run has not ended, its end is not on the way, and no event can reach it any more. */
  predicate Hopeless(s: State, k: nat) {
    At(s, k, Running) && !s.callers[k].done && !EndInHand(s, k) && (s.reader.Exited? || k in s.lost)
  }

  lemma HopelessStep(s: State, a: Action, k: nat)
    requires RunsInv(s) && Hopeless(s, k) && Enabled(s, a) && a != RunTimeout(k)
    ensures Hopeless(Apply(s, a), k)
  {
    assert LossOk(s, k) && Mover(a) != Some(k);
    OthersOnRun(s, a, k);
    LostStep(s, a, k);
    ExitStep(s, a);
    CutWhileStep(s, a, k);
    if Apply(s, a).reader.EventFor? {
      HeldEvent(s, a);
    }
  }

  lemma {:induction false} HopelessForGood(s: State, k: nat, actions: seq<Action>)
    requires Reachable(s) && Hopeless(s, k) && ExecFrom(s, actions).Some? && RunTimeout(k) !in actions
    ensures Reachable(ExecFrom(s, actions).value) && Hopeless(ExecFrom(s, actions).value, k)
  {
    if actions != [] {
      var init, a := actions[..|actions| - 1], actions[|actions| - 1];
      assert a in actions && forall x | x in init :: x in actions;
      HopelessForGood(s, k, init);
      var u := ExecFrom(s, init).value;
      ReachableRuns(u);
      HopelessStep(u, a, k);
      ReachNext(u, a);
    }
  }

  /** The reader's own steps leave a waiting caller its place and its entry. */
  lemma {:induction false} ReaderKeepsRun(s: State, actions: seq<Action>, k: nat)
    requires At(s, k, Running) && OnlyReader(actions) && ExecFrom(s, actions).Some?
    ensures var t := ExecFrom(s, actions).value;
            && At(t, k, Running) && t.lost == s.lost
            && t.callers[k].runId == s.callers[k].runId && t.callers[k].late == s.callers[k].late
  {
    if actions != [] {
      var init, a := actions[..|actions| - 1], actions[|actions| - 1];
      assert a in actions && forall x | x in init :: x in actions;
      ReaderKeepsRun(s, init, k);
      ReaderStepKeepsRun(ExecFrom(s, init).value, a, k);
    }
  }

  lemma ReaderStepKeepsRun(s: State, a: Action, k: nat)
    requires At(s, k, Running) && OfReader(a) && Enabled(s, a)
    ensures var t := Apply(s, a);
            && At(t, k, Running) && t.lost == s.lost
            && t.callers[k].runId == s.callers[k].runId && t.callers[k].late == s.callers[k].late
  {
    OthersOnRun(s, a, k);
  }

  /** The end of a run that is registered can still arrive. */
  lemma EndArrives(s: State, actions: seq<Action>, u: State, k: nat) returns (more: seq<Action>, t: State)
    requires ExecFrom(s, actions) == Some(u) && RunTimeout(k) !in actions
    requires u.reader == Idle && At(u, k, Running) && Owns(u, k) && u.callers[k].runId != ""
    ensures ExecFrom(s, more) == Some(t) && RunTimeout(k) !in more && Enabled(t, SeeDone(k))
  {
    var ev := AgentEvent(u.callers[k].runId, LifecycleEnd);
    Extended(s, actions, u, Arrive(AgentFrame(ev)));
    more, t := actions + [Arrive(AgentFrame(ev))], u.(reader := EventSeen(ev));
    Extended(s, more, t, LookupRun);
    more, t := more + [LookupRun], t.(events := t.events + [ev], reader := EventFor(ev, k));
    more, t := EndApplied(s, more, t, k);
  }

  lemma EndApplied(s: State, actions: seq<Action>, u: State, k: nat) returns (more: seq<Action>, t: State)
    requires ExecFrom(s, actions) == Some(u) && RunTimeout(k) !in actions && EndInHand(u, k) && At(u, k, Running)
    ensures ExecFrom(s, more) == Some(t) && RunTimeout(k) !in more && Enabled(t, SeeDone(k))
  {
    Extended(s, actions, u, ApplyEvent);
    more, t := actions + [ApplyEvent], Apply(u, ApplyEvent);
  }

  /** A caller that is not hopeless can be helped without its timeout. */
  lemma WaitCanEnd(s: State, k: nat) returns (actions: seq<Action>, t: State)
    requires Reachable(s) && At(s, k, Running) && !Hopeless(s, k)
    ensures ExecFrom(s, actions) == Some(t) && RunTimeout(k) !in actions && Enabled(t, SeeDone(k))
  {
    ReachableRuns(s);
    assert RunObjectOk(s, s.callers[k]);
    if s.callers[k].done {
      return [], s;
    } else if EndInHand(s, k) {
      actions, t := EndApplied(s, [], s, k);
      return;
    }
    actions, t := ReaderReturns(s, [], s);
    ReaderKeepsRun(s, actions, k);
    if t.reader.Idle? {
      ReachableRuns(t);
      assert LossOk(t, k) && RunObjectOk(t, t.callers[k]);
      actions, t := EndArrives(s, actions, t, k);
    } else {
      WaitEndsExactly(t, k);
    }
  }

  /** A waiting caller is stuck exactly when its run has not ended, its end is not in the reader's hand,
      and either the connection is gone or another caller with the same run id has taken its entry. */
  lemma StuckExactly(s: State, k: nat)
    requires Reachable(s) && At(s, k, Running)
    ensures Stuck(s, k) <==> Hopeless(s, k)
  {
    if Hopeless(s, k) {
      forall actions | ExecFrom(s, actions).Some? && RunTimeout(k) !in actions
        ensures At(ExecFrom(s, actions).value, k, Running) && !Enabled(ExecFrom(s, actions).value, SeeDone(k))
      {
        HopelessForGood(s, k, actions);
      }
    } else {
      var actions, t := WaitCanEnd(s, k);
    }
  }

  /** Once the connection is gone, the callers that go on are those whose run was registered when it
      broke, or had ended before; every other one is stuck. */
  lemma LateWaitersAreStuck(s: State, k: nat)
    requires Reachable(s) && At(s, k, Running) && s.reader.Exited?
    ensures Stuck(s, k) <==> !Enabled(s, SeeDone(k))
    ensures s.callers[k].late ==> Stuck(s, k)
  {
    StuckExactly(s, k);
    ReachableRuns(s);
    assert RunOk(s, k) && RunObjectOk(s, s.callers[k]);
  }

  /** A new caller, accepted with run id `r` but not registered for it yet. */
  lemma AcceptNew(s: State, r: string) returns (t: State)
    requires Reachable(s) && s.reader == Idle && r != ""
    ensures Reachable(t) && t.reader == Idle && t.runs == s.runs && t.events == s.events
    ensures |t.callers| == |s.callers| + 1 && t.callers[..|s.callers|] == s.callers
    ensures var c := t.callers[|s.callers|]; c.pc == RunKnown && c.runId == r && Untouched(c)
    ensures t.pending.Keys <= s.pending.Keys
  {
    t := Begin(s);
    t := Dispatch(t, |s.callers|);
    t := Replied(t, |s.callers|, Response(Req(s.seqNo + 1), true, Payload(false, r, ""), None));
  }

  /** An agent event arrives and is looked up. */
  lemma Deliver(s: State, ev: AgentEvent) returns (t: State)
    requires Reachable(s) && s.reader == Idle && ev.runId != ""
    requires ev.runId in s.runs ==> s.runs[ev.runId] < |s.callers|
    ensures Reachable(t) && t.reader == Idle && t.events == s.events + [ev] && t.runs == s.runs
    ensures t.callers ==
              if ev.runId in s.runs then s.callers[s.runs[ev.runId] := Applied(s.callers[s.runs[ev.runId]], ev.kind)]
                else s.callers
  {
    ReachNext(s, Arrive(AgentFrame(ev)));
    t := Apply(s, Arrive(AgentFrame(ev)));
    ReachNext(t, LookupRun);
    t := Apply(t, LookupRun);
    if ev.runId in s.runs {
      ReachNext(t, ApplyEvent);
      t := Apply(t, ApplyEvent);
    }
  }

  /** The run is registered after the reply, so an end that is handled in between is missed: the
      caller registers and waits although the end of its run has been handled. */
  lemma EarlyEndIsMissed(r: string) returns (s: State)
    requires r != ""
    ensures Reachable(s) && At(s, 0, Running) && s.callers[0].runId == r && s.reader == Idle
    ensures EndsIn(s.events, r) && !Enabled(s, SeeDone(0))
  {
    StartIsReachable();
    s := AcceptNew(INIT, r);
    s := Deliver(s, AgentEvent(r, LifecycleEnd));
    ReachNext(s, RegisterRun(0));
    s := Apply(s, RegisterRun(0));
  }

  /** A disconnect that is handled between the reply and the registration is missed in the same way. */
  lemma EarlyDisconnectIsMissed(r: string) returns (s: State)
    requires r != ""
    ensures Reachable(s) && At(s, 0, Running) && s.callers[0].runId == r
    ensures s.reader.Exited? && s.callers[0].late && !Enabled(s, SeeDone(0))
  {
    StartIsReachable();
    s := AcceptNew(INIT, r);
    s := ConnectionBreaks(s);
    s := RegisteredLate(s);
  }

  lemma RegisteredLate(s: State) returns (t: State)
    requires Reachable(s) && s.reader == Exited && |s.callers| == 1 && s.callers[0].pc == RunKnown && !s.callers[0].done
    ensures Reachable(t) && t.reader == Exited && At(t, 0, Running)
    ensures t.callers[0].runId == s.callers[0].runId && t.callers[0].late && !Enabled(t, SeeDone(0))
  {
    ReachNext(s, RegisterRun(0));
    t := Apply(s, RegisterRun(0));
  }

  /** The connection breaks while nobody is pending. */
  lemma ConnectionBreaks(s: State) returns (t: State)
    requires Reachable(s) && s.reader == Idle && s.pending.Keys == {} && s.runs == map[]
    ensures Reachable(t) && t.reader == Exited && t.callers == s.callers && t.events == s.events && t.runs == map[]
  {
    ReachNext(s, ReadError);
    t := Apply(s, ReadError);
    ReachNext(t, FinishDisconnect);
    t := Apply(t, FinishDisconnect);
    assert t.callers == s.callers;
  }

  /** A new caller registers for run `r`. */
  lemma StartRun(s: State, r: string) returns (t: State)
    requires Reachable(s) && s.reader == Idle && r != ""
    ensures Reachable(t) && t.reader == Idle && t.runs == s.runs[r := |s.callers|] && t.events == s.events
    ensures |t.callers| == |s.callers| + 1 && t.callers[..|s.callers|] == s.callers
    ensures var c := t.callers[|s.callers|]; c.pc == Running && c.runId == r && Untouched(c) && c.runAt == |s.events|
  {
    t := AcceptNew(s, r);
    ReachNext(t, RegisterRun(|s.callers|));
    t := Apply(t, RegisterRun(|s.callers|));
  }

  lemma TwoRuns(start: State, r: string) returns (s: State)
    requires Reachable(start) && start.reader == Idle && start.callers == [] && start.runs == map[] && r != ""
    ensures Reachable(s) && s.reader == Idle && s.events == start.events && s.runs == map[r := 1] && |s.callers| == 2
    ensures forall c | c in s.callers :: c.pc == Running && c.runId == r && Untouched(c) && c.runAt == |start.events|
  {
    var one := StartRun(start, r);
    s := StartRun(one, r);
    FirstCallerStays(one.callers, s.callers);
    assert s.callers == [s.callers[0], s.callers[1]];
  }

  lemma FirstCallerStays(one: seq<Caller>, two: seq<Caller>)
    requires |one| == 1 && |two| == 2 && two[..1] == one
    ensures two[0] == one[0]
  {
    assert two[0] == two[..1][0];
  }

  /** Two callers with one run id: the first loses its entry to the second, and is stuck although the
      end of the run came while it was waiting for it. */
  lemma SharedRunIdLosesTheEnd(r: string) returns (s: State)
    requires r != ""
    ensures Reachable(s) && At(s, 0, Running) && s.callers[0].runId == r && s.reader == Idle
    ensures EndsIn(Span(s.events, s.callers[0].runAt, AppliedCount(s)), r) && 0 in s.lost && Stuck(s, 0)
  {
    StartIsReachable();
    var two := TwoRuns(INIT, r);
    s := EndOfSharedRun(two, r);
    StuckExactly(s, 0);
  }

  lemma EndOfSharedRun(two: State, r: string) returns (s: State)
    requires Reachable(two) && two.reader == Idle && two.events == [] && two.runs == map[r := 1] && |two.callers| == 2
             && r != ""
    requires forall c | c in two.callers :: c.pc == Running && c.runId == r && Untouched(c) && c.runAt == 0
    ensures Reachable(s) && At(s, 0, Running) && s.callers[0].runId == r && s.reader == Idle
    ensures EndsIn(Span(s.events, s.callers[0].runAt, AppliedCount(s)), r) && !s.callers[0].done && 0 in s.lost
  {
    var e := AgentEvent(r, LifecycleEnd);
    assert two.callers[0] in two.callers && two.callers[1] in two.callers;
    s := Deliver(two, e);
    assert Span(s.events, 0, 1) == [e];
    assert s.callers[0] == two.callers[0] && s.callers[1].runId == two.callers[1].runId;
    ReachableRuns(s);
    assert LossOk(s, 0);
  }
}
