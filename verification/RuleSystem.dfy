/** Rules in memory and on disk, over every run of API calls, saves, crashes and restarts.

    A call that changes the rules edits the list under the router lock and then saves a copy of it
    under the store lock; between the two, other calls may edit and save. */
module RuleSystem {
  import opened MeshTypes
  import opened RuleList
  import opened RuleStore

  datatype OpPc = Waiting | Saving(pc: SavePc) | Returned(ok: bool) | Lost

  /** A call that has edited the list: the copy it must save, and which version of the list that is. */
  datatype Op = Op(list: seq<RoutingRule>, version: nat, tmp: Path, pc: OpPc)

  /** `held` lists every list the memory ever held, in order; `onDisk` is the version the rule file
      holds. `clean` says that since the last start the calls did not overlap, all of them returned
      without an error, and the start could read the file. */
  datatype State = State(
    up: bool, mem: seq<RoutingRule>, files: Files, ops: seq<Op>, lock: Option<nat>,
    held: seq<seq<RoutingRule>>, onDisk: nat, clean: bool)

  datatype Action =
    | AddRule(rule: RoutingRule, id: string)
    | RemoveRule(id: string)
    | LockStore(op: nat, stamp: int)
    | FileEffect(ok: bool)
    | Crash(image: Files)
    | Restart(readable: bool)

  function Init(): State {
    State(true, [], map[], [], None, [[]], 0, true)
  }

  predicate InFlight(op: Op) {
    op.pc.Waiting? || op.pc.Saving?
  }

  predicate Idle(s: State) {
    forall i :: 0 <= i < |s.ops| ==> !InFlight(s.ops[i])
  }

  ghost predicate Enabled(s: State, a: Action) {
    match a
    case AddRule(rule, _) => s.up && ValidRule(rule)
    case RemoveRule(_) => s.up
    case LockStore(i, _) => s.up && s.lock.None? && i < |s.ops| && s.ops[i].pc.Waiting?
    case FileEffect(_) => s.up && s.lock.Some? && s.lock.value < |s.ops| && s.ops[s.lock.value].pc.Saving?
    case Crash(image) => s.up && CrashImage(s.files, image)
    case Restart(_) => !s.up
  }

  /** The list becomes `list`, and a call sets out to save it. */
  function Edit(s: State, list: seq<RoutingRule>): State {
    s.(mem := list, held := s.held + [list], ops := s.ops + [Op(list, |s.held|, Temp(0), Waiting)],
       clean := s.clean && Idle(s))
  }

  function Apply(s: State, a: Action): State
    requires Enabled(s, a)
  {
    match a
    case AddRule(rule, id) => Edit(s, s.mem + [rule.(id := id)])
    case RemoveRule(id) => if IndexOf(s.mem, id).Some? then Edit(s, RemoveFirst(s.mem, id)) else s
    case LockStore(i, stamp) =>
      s.(lock := Some(i), ops := s.ops[i := s.ops[i].(tmp := Temp(stamp), pc := Saving(Begin))])
    case FileEffect(ok) =>
      var i := s.lock.value;
      var op := s.ops[i];
      var next := SaveNext(op.list, op.tmp, SaveState(op.pc.pc, s.files), ok);
      if !Final(next.pc) then s.(files := next.files, ops := s.ops[i := op.(pc := Saving(next.pc))])
      else if next.pc.Saved? then
        s.(files := next.files, ops := s.ops[i := op.(pc := Returned(true))], lock := None, onDisk := op.version)
      else s.(files := next.files, ops := s.ops[i := op.(pc := Returned(false))], lock := None, clean := false)
    case Crash(image) =>
      s.(up := false, files := image, lock := None,
         ops := seq(|s.ops|, j requires 0 <= j < |s.ops| =>
           if InFlight(s.ops[j]) then s.ops[j].(pc := Lost) else s.ops[j]))
    case Restart(readable) =>
      match Load(s.files, readable)
      case Loaded(rules) => s.(up := true, mem := rules, held := s.held + [rules], onDisk := |s.held|, clean := true)
      case _ => s.(up := true, mem := [], held := s.held + [[]], clean := false)
  }

  /** The state a sequence of actions leads to from `start`; `None` if one of them is not possible. */
  ghost function ExecFrom(start: State, actions: seq<Action>): Option<State> {
    if actions == [] then Some(start)
    else
      match ExecFrom(start, actions[..|actions| - 1])
      case None => None
      case Some(s) =>
        var a := actions[|actions| - 1];
        if Enabled(s, a) then Some(Apply(s, a)) else None
  }

  ghost function Exec(actions: seq<Action>): Option<State> {
    ExecFrom(Init(), actions)
  }

  ghost predicate Reachable(s: State) {
    exists actions :: Exec(actions) == Some(s)
  }

  lemma ReachNext(s: State, a: Action)
    requires Reachable(s) && Enabled(s, a)
    ensures Reachable(Apply(s, a))
  {
    var actions :| Exec(actions) == Some(s);
    assert (actions + [a])[..|actions|] == actions;
    assert Exec(actions + [a]) == Some(Apply(s, a));
  }

  // ---------- what every run keeps ----------

  ghost predicate DiskInv(s: State) {
    && s.onDisk < |s.held|
    && (Main in s.files ==> s.files[Main].Whole?)
    && Load(s.files, true) == Loaded(s.held[s.onDisk])
  }

  ghost predicate OpsInv(s: State) {
    && (forall i :: 0 <= i < |s.ops| ==>
          s.ops[i].tmp.Temp? && s.ops[i].version < |s.held| && s.ops[i].list == s.held[s.ops[i].version])
    && (forall i :: 0 <= i < |s.ops| && s.ops[i].pc.Saving? ==> s.lock == Some(i))
    && (s.lock.Some? ==>
          && s.up && s.lock.value < |s.ops|
          && var op := s.ops[s.lock.value];
             op.pc.Saving? && !Final(op.pc.pc) && SaveInv(op.list, op.tmp, SaveState(op.pc.pc, s.files)))
    && (!s.up ==> Idle(s))
  }

  ghost predicate MemInv(s: State) {
    && s.onDisk < |s.held|
    && (s.up ==> s.mem == s.held[|s.held| - 1])
    && (s.up && s.clean ==>
          && (Idle(s) ==> s.held[s.onDisk] == s.mem)
          && forall i :: 0 <= i < |s.ops| && InFlight(s.ops[i]) ==>
             i == |s.ops| - 1 && s.ops[i].version == |s.held| - 1)
  }

  ghost predicate RulesInv(s: State) {
    forall v :: 0 <= v < |s.held| ==> ValidRules(s.held[v])
  }

  ghost predicate Inv(s: State) {
    DiskInv(s) && OpsInv(s) && MemInv(s) && RulesInv(s)
  }

  lemma EditKeepsInv(s: State, list: seq<RoutingRule>)
    requires Inv(s) && s.up && ValidRules(list)
    ensures Inv(Edit(s, list))
  {
    var t := Edit(s, list);
    assert forall i :: 0 <= i < |s.ops| ==> t.ops[i] == s.ops[i];
    assert forall v :: 0 <= v < |s.held| ==> t.held[v] == s.held[v];
    assert InFlight(t.ops[|s.ops|]);
  }

  lemma FileEffectOnOps(s: State, ok: bool)
    requires Inv(s) && Enabled(s, FileEffect(ok))
    ensures OpsInv(Apply(s, FileEffect(ok))) && DiskInv(Apply(s, FileEffect(ok)))
  {
    var i := s.lock.value;
    var op := s.ops[i];
    var t := Apply(s, FileEffect(ok));
    SaveStepKeeps(op.list, op.tmp, SaveState(op.pc.pc, s.files), ok);
    assert forall j :: 0 <= j < |s.ops| && j != i ==> t.ops[j] == s.ops[j];
    assert MainFile(t.files) == if t.ops[i].pc == Returned(true) then Some(Whole(op.list)) else MainFile(s.files);
  }

  lemma FileEffectKeepsInv(s: State, ok: bool)
    requires Inv(s) && Enabled(s, FileEffect(ok))
    ensures Inv(Apply(s, FileEffect(ok)))
  {
    var i := s.lock.value;
    var t := Apply(s, FileEffect(ok));
    FileEffectOnOps(s, ok);
    assert InFlight(s.ops[i]);
    assert forall j :: 0 <= j < |s.ops| && j != i ==> t.ops[j] == s.ops[j];
  }

  lemma CrashKeepsInv(s: State, image: Files)
    requires Inv(s) && Enabled(s, Crash(image))
    ensures Inv(Apply(s, Crash(image)))
  {
    var t := Apply(s, Crash(image));
    assert forall i :: 0 <= i < |t.ops| ==>
      t.ops[i].list == s.ops[i].list && t.ops[i].version == s.ops[i].version && !InFlight(t.ops[i]);
  }

  lemma RestartKeepsInv(s: State, readable: bool)
    requires Inv(s) && Enabled(s, Restart(readable))
    ensures Inv(Apply(s, Restart(readable)))
  {
    var t := Apply(s, Restart(readable));
    assert forall v :: 0 <= v < |s.held| ==> t.held[v] == s.held[v];
  }

  lemma StepKeepsInv(s: State, a: Action)
    requires Inv(s) && Enabled(s, a)
    ensures Inv(Apply(s, a))
  {
    match a {
      case AddRule(rule, id) =>
        EditKeepsInv(s, s.mem + [rule.(id := id)]);
      case RemoveRule(id) =>
        if IndexOf(s.mem, id).Some? {
          RemoveKeepsValid(s.mem, id);
          EditKeepsInv(s, RemoveFirst(s.mem, id));
        }
      case LockStore(i, stamp) =>
        var t := Apply(s, a);
        assert forall j :: 0 <= j < |s.ops| && j != i ==> t.ops[j] == s.ops[j];
        assert InFlight(s.ops[i]) && InFlight(t.ops[i]);
      case FileEffect(ok) => FileEffectKeepsInv(s, ok);
      case Crash(image) => CrashKeepsInv(s, image);
      case Restart(readable) => RestartKeepsInv(s, readable);
    }
  }

  lemma {:induction false} EveryRunKeepsInv(actions: seq<Action>)
    requires Exec(actions).Some?
    ensures Inv(Exec(actions).value)
  {
    if actions != [] {
      EveryRunKeepsInv(actions[..|actions| - 1]);
      StepKeepsInv(Exec(actions[..|actions| - 1]).value, actions[|actions| - 1]);
    }
  }

  lemma ReachableInv(s: State)
    requires Reachable(s)
    ensures Inv(s)
  {
    var actions :| Exec(actions) == Some(s);
    EveryRunKeepsInv(actions);
  }

  // ---------- the promises ----------

  /** In every reachable state the rule file is missing or a complete list that the memory once
      held, and never a torn or unsynced one; so a restart that can read it always parses it. */
  lemma DiskHoldsAHeldList(s: State)
    requires Reachable(s)
    ensures Main in s.files ==> exists v :: 0 <= v < |s.held| && s.files[Main] == Whole(s.held[v])
    ensures exists v :: 0 <= v < |s.held| && Load(s.files, true) == Loaded(s.held[v])
  {
    ReachableInv(s);
    assert 0 <= s.onDisk < |s.held|;
  }

  /** A crash at any point, then a restart: the memory holds version `onDisk` again. No step but the
      final rename of the save holding the store lock changes what a restart would load, and that
      one installs exactly that save's list. */
  lemma RestartRecoversVersionOnDisk(s: State, image: Files)
    requires Reachable(s) && Enabled(s, Crash(image))
    ensures s.onDisk < |s.held|
    ensures Apply(Apply(s, Crash(image)), Restart(true)).mem == s.held[s.onDisk]
  {
    ReachableInv(s);
    StepKeepsInv(s, Crash(image));
  }

  lemma OnlyARenameChangesTheDisk(s: State, a: Action)
    requires Reachable(s) && Enabled(s, a)
    ensures var t := Apply(s, a);
            || Load(t.files, true) == Load(s.files, true)
            || (&& a == FileEffect(true) && s.ops[s.lock.value].pc == Saving(Synced)
                && t.ops[s.lock.value].pc == Returned(true)
                && Load(t.files, true) == Loaded(s.ops[s.lock.value].list))
  {
    ReachableInv(s);
    if a.FileEffect? {
      var op := s.ops[s.lock.value];
      SaveStepKeeps(op.list, op.tmp, SaveState(op.pc.pc, s.files), a.ok);
    }
  }

  /** If the calls since the last start did not overlap and all returned without an error, then
      whenever none is running a crash and restart gives the in-memory list back. */
  lemma SerialCallsAreDurable(s: State, image: Files)
    requires Reachable(s) && s.up && s.clean && Idle(s) && CrashImage(s.files, image)
    ensures Apply(Apply(s, Crash(image)), Restart(true)).mem == s.mem
  {
    ReachableInv(s);
    RestartRecoversVersionOnDisk(s, image);
  }

  /** Every rule that is in memory, on its way to disk or on disk, in any run, was accepted by the
      API check, although loading does not check again. */
  lemma RulesStayValid(s: State)
    requires Reachable(s)
    ensures s.up ==> ValidRules(s.mem)
    ensures Main in s.files ==> s.files[Main].Whole? && ValidRules(s.files[Main].rules)
    ensures forall i :: 0 <= i < |s.ops| ==> ValidRules(s.ops[i].list)
  {
    ReachableInv(s);
    assert 0 <= s.onDisk < |s.held|;
  }

  /** A call is answered with success exactly by the rename that puts its list on disk, and with an error
      only by the end of a save that left the rule file alone; a call that a crash cuts off gets no answer. */
  lemma AnsweredOnlyByItsSave(s: State, a: Action, i: nat)
    requires Reachable(s) && Enabled(s, a) && i < |s.ops|
    ensures var t := Apply(s, a);
            && i < |t.ops|
            && (s.ops[i].pc.Returned? || s.ops[i].pc.Lost? ==> t.ops[i] == s.ops[i])
            && (t.ops[i].pc.Returned? && t.ops[i] != s.ops[i] ==>
                  && a.FileEffect? && s.lock == Some(i)
                  && MainFile(t.files) == (if t.ops[i].pc.ok then Some(Whole(s.ops[i].list)) else MainFile(s.files)))
            && (a.FileEffect? && s.lock == Some(i) && MainFile(t.files) != MainFile(s.files) ==>
                  t.ops[i].pc == Returned(true))
  {
    ReachableInv(s);
    match a {
      case FileEffect(ok) =>
        var op := s.ops[s.lock.value];
        SaveStepKeeps(op.list, op.tmp, SaveState(op.pc.pc, s.files), ok);
      case _ =>
    }
  }

  /** A crash may tear any file that is not synced, so a rename without the sync before it would not do. */
  lemma CrashCanTearUnsynced(s: State, p: Path) returns (t: State)
    requires Reachable(s) && s.up && p in s.files && s.files[p].Buffered?
    ensures Reachable(t) && !t.up && t.files == s.files[p := Torn]
  {
    ReachNext(s, Crash(s.files[p := Torn]));
    t := Apply(s, Crash(s.files[p := Torn]));
  }

  ghost predicate KnownRule(s: State, r: RoutingRule) {
    || (s.up && r in s.mem)
    || (Load(s.files, true).Loaded? && r in Load(s.files, true).rules)
    || exists i :: 0 <= i < |s.ops| && r in s.ops[i].list
  }

  /** In particular no rule catches messages that nobody meant it to: a rule that is no wildcard names a
      criterion, a wildcard names nothing else, and only the criterion "gpu: false" matches every node. */
  lemma NoRuleWithoutCriterion(s: State, r: RoutingRule)
    requires Reachable(s) && KnownRule(s, r)
    ensures r.criteria.wildcard != Some(true) ==> r.criteria.gpu.Some? || r.criteria.os != "" || r.criteria.skill != ""
    ensures r.criteria.wildcard == Some(true) ==>
              r.criteria.gpu.None? && r.criteria.os == "" && r.criteria.skill == "" && r.target == ""
    ensures r.strategy == "" || r.strategy == "least-busy"
    ensures (forall n :: MatchesCriteria(r.criteria, n)) ==>
            r.criteria.wildcard == Some(true) || r.criteria.gpu == Some(false)
  {
    RulesStayValid(s);
    assert ValidRule(r) by {
      if i :| 0 <= i < |s.ops| && r in s.ops[i].list {
        var j :| 0 <= j < |s.ops[i].list| && s.ops[i].list[j] == r;
        assert ValidRules(s.ops[i].list);
      }
    }
    CatchAllExactly(r);
  }

  // ---------- overlapping calls ----------

  /** A schedule of the saves in flight, without further edits. Effects may fail in it. */
  predicate OnlySaves(actions: seq<Action>) {
    forall a | a in actions :: a.LockStore? || a.FileEffect?
  }

  /** Every call in flight in `s` has returned without an error in `t`. */
  predicate Acknowledges(s: State, t: State) {
    |t.ops| == |s.ops| && forall i :: 0 <= i < |s.ops| && InFlight(s.ops[i]) ==> t.ops[i].pc == Returned(true)
  }

  /** A crash now, and a restart that can read the file, bring the list in memory back. */
  ghost predicate Durable(s: State) {
    forall image | CrashImage(s.files, image) :: Load(image, true) == Loaded(s.mem)
  }

  /** Every schedule that acknowledges all calls in flight makes the list in memory durable. */
  ghost predicate AlwaysDurable(s: State) {
    forall actions | OnlySaves(actions) && ExecFrom(s, actions).Some? ::
      Acknowledges(s, ExecFrom(s, actions).value) ==> Durable(ExecFrom(s, actions).value)
  }

  predicate IsWaiting(s: State, i: int) {
    0 <= i < |s.ops| && s.ops[i].pc.Waiting?
  }

  /** The save that holds the store lock has failed and is removing its temporary file. */
  predicate HolderCleansUp(s: State) {
    s.lock.Some? && s.lock.value < |s.ops| && s.ops[s.lock.value].pc == Saving(CleanUp)
  }

  /** Every list that can be saved last is the one in memory: those of the waiting calls; if there are
      none, the one being saved; if there is none, the one on disk. */
  ghost predicate NoStaleListCanBeLast(s: State) {
    if exists i :: IsWaiting(s, i) then forall i | IsWaiting(s, i) :: s.ops[i].list == s.mem
    else if s.lock.Some? then s.lock.value < |s.ops| && s.ops[s.lock.value].list == s.mem
    else s.onDisk < |s.held| && s.held[s.onDisk] == s.mem
  }

  lemma DurableMeansOnDisk(s: State)
    requires Inv(s)
    ensures Durable(s) <==> s.held[s.onDisk] == s.mem
  {
    assert CrashImage(s.files, s.files);
  }

  /** A call that can no longer be acknowledged. */
  predicate Doomed(op: Op) {
    op.pc == Saving(CleanUp) || op.pc == Returned(false)
  }

  lemma SaveStepKeepsMemory(s: State, a: Action)
    requires Inv(s) && s.up && (a.LockStore? || a.FileEffect?) && Enabled(s, a)
    ensures var t := Apply(s, a);
            && Inv(t) && t.up && t.mem == s.mem && t.held == s.held && |t.ops| == |s.ops|
            && forall i :: 0 <= i < |s.ops| ==>
                 && t.ops[i].list == s.ops[i].list
                 && (InFlight(t.ops[i]) ==> InFlight(s.ops[i]))
                 && (Doomed(s.ops[i]) ==> Doomed(t.ops[i]))
  {
    StepKeepsInv(s, a);
  }

  lemma LastListAfterLock(s: State, i: nat, stamp: int)
    requires Inv(s) && s.up && Enabled(s, LockStore(i, stamp)) && NoStaleListCanBeLast(s)
    ensures NoStaleListCanBeLast(Apply(s, LockStore(i, stamp)))
  {
    var t := Apply(s, LockStore(i, stamp));
    assert IsWaiting(s, i);
    assert forall j :: IsWaiting(t, j) ==> IsWaiting(s, j) && t.ops[j] == s.ops[j];
  }

  lemma LastListAfterEffect(s: State, ok: bool)
    requires Inv(s) && s.up && Enabled(s, FileEffect(ok)) && NoStaleListCanBeLast(s)
    ensures NoStaleListCanBeLast(Apply(s, FileEffect(ok))) || Doomed(Apply(s, FileEffect(ok)).ops[s.lock.value])
  {
    var t := Apply(s, FileEffect(ok));
    assert forall j :: IsWaiting(t, j) <==> IsWaiting(s, j);
    assert forall j :: IsWaiting(s, j) ==> t.ops[j] == s.ops[j];
  }

  /** While no call in flight is doomed, the list that can be last stays the one in memory. */
  lemma {:induction false} LastListStays(s: State, actions: seq<Action>)
    requires Inv(s) && s.up && OnlySaves(actions) && ExecFrom(s, actions).Some?
    ensures var t := ExecFrom(s, actions).value;
            && Inv(t) && t.up && t.mem == s.mem && t.held == s.held && |t.ops| == |s.ops|
            && (forall i :: 0 <= i < |s.ops| && InFlight(t.ops[i]) ==> InFlight(s.ops[i]))
            && (NoStaleListCanBeLast(s) ==>
                  || NoStaleListCanBeLast(t)
                  || exists i :: 0 <= i < |s.ops| && InFlight(s.ops[i]) && Doomed(t.ops[i]))
  {
    if actions != [] {
      var init, a := actions[..|actions| - 1], actions[|actions| - 1];
      assert a in actions && forall x | x in init :: x in actions;
      LastListStays(s, init);
      var u := ExecFrom(s, init).value;
      SaveStepKeepsMemory(u, a);
      if NoStaleListCanBeLast(u) {
        match a
        case LockStore(i, stamp) => LastListAfterLock(u, i, stamp);
        case FileEffect(ok) => LastListAfterEffect(u, ok);
      }
    }
  }

  // ---------- building schedules ----------

  lemma Extended(s: State, actions: seq<Action>, u: State, a: Action)
    requires OnlySaves(actions) && ExecFrom(s, actions) == Some(u)
    requires (a.LockStore? || a.FileEffect?) && Enabled(u, a)
    ensures OnlySaves(actions + [a]) && ExecFrom(s, actions + [a]) == Some(Apply(u, a))
  {
    assert (actions + [a])[..|actions|] == actions;
  }

  function EffectsLeft(pc: SavePc): nat {
    match pc
    case Begin => 4
    case Created => 3
    case Written => 2
    case Synced => 1
    case _ => 0
  }

  /** One operation has been saved and acknowledged, and nothing else has changed. */
  predicate Landed(u: State, t: State, i: int)
    requires 0 <= i < |u.ops|
  {
    && t.up && t.lock.None? && t.mem == u.mem && t.held == u.held && |t.ops| == |u.ops|
    && t.ops[i].pc == Returned(true) && t.onDisk == u.ops[i].version
    && forall j :: 0 <= j < |u.ops| && j != i ==> t.ops[j] == u.ops[j]
  }

  lemma NextEffect(u: State)
    requires Inv(u) && u.up && u.lock.Some? && !HolderCleansUp(u)
    ensures u.lock.value < |u.ops| && Enabled(u, FileEffect(true))
    ensures var t := Apply(u, FileEffect(true));
            var pc := u.ops[u.lock.value].pc.pc;
            if EffectsLeft(pc) == 1 then Landed(u, t, u.lock.value)
            else
              && t == u.(files := t.files,
                 ops := u.ops[u.lock.value := u.ops[u.lock.value].(pc := t.ops[u.lock.value].pc)])
              && t.ops[u.lock.value].pc.Saving? && 1 <= EffectsLeft(t.ops[u.lock.value].pc.pc) < EffectsLeft(pc)
  {
  }

  /** The save that holds the lock succeeds. */
  lemma {:induction false} LandHolder(s: State, actions: seq<Action>, u: State) returns (more: seq<Action>, t: State)
    requires OnlySaves(actions) && ExecFrom(s, actions) == Some(u)
    requires Inv(u) && u.up && u.lock.Some? && !HolderCleansUp(u)
    ensures OnlySaves(more) && ExecFrom(s, more) == Some(t) && Inv(t)
    ensures u.lock.value < |u.ops| && Landed(u, t, u.lock.value)
    decreases EffectsLeft(u.ops[u.lock.value].pc.pc)
  {
    NextEffect(u);
    Extended(s, actions, u, FileEffect(true));
    StepKeepsInv(u, FileEffect(true));
    more, t := actions + [FileEffect(true)], Apply(u, FileEffect(true));
    if t.lock.Some? {
      more, t := LandHolder(s, more, t);
    }
  }

  lemma LandOne(s: State, actions: seq<Action>, u: State, i: nat) returns (more: seq<Action>, t: State)
    requires OnlySaves(actions) && ExecFrom(s, actions) == Some(u)
    requires Inv(u) && u.up && u.lock.None? && IsWaiting(u, i)
    ensures OnlySaves(more) && ExecFrom(s, more) == Some(t) && Inv(t) && Landed(u, t, i)
  {
    Extended(s, actions, u, LockStore(i, 0));
    StepKeepsInv(u, LockStore(i, 0));
    more, t := actions + [LockStore(i, 0)], Apply(u, LockStore(i, 0));
    more, t := LandHolder(s, more, t);
  }

  function WaitingBut(u: State, last: nat): set<nat> {
    set j: nat | j < |u.ops| && j != last && IsWaiting(u, j)
  }

  lemma OneFewerWaiting(u: State, t: State, last: nat, i: nat)
    requires i in WaitingBut(u, last) && Landed(u, t, i)
    ensures WaitingBut(t, last) == WaitingBut(u, last) - {i}
  {
  }

  /** Every waiting call but one has been saved and acknowledged, and nothing else has changed. */
  predicate LandedBut(u: State, t: State, last: nat) {
    && t.up && t.lock.None? && t.mem == u.mem && t.held == u.held && |t.ops| == |u.ops|
    && forall j: nat | j < |u.ops| ::
         if j != last && IsWaiting(u, j) then t.ops[j].pc == Returned(true) else t.ops[j] == u.ops[j]
  }

  lemma NobodyWaits(u: State, last: nat)
    requires u.up && u.lock.None? && WaitingBut(u, last) == {}
    ensures LandedBut(u, u, last)
  {
    assert forall j: nat | j < |u.ops| && j != last && IsWaiting(u, j) :: j in WaitingBut(u, last);
  }

  lemma LandedThenOthers(u: State, mid: State, t: State, last: nat, i: nat)
    requires i in WaitingBut(u, last) && Landed(u, mid, i) && LandedBut(mid, t, last)
    ensures LandedBut(u, t, last)
  {
  }

  lemma {:induction false} LandAllBut(s: State, actions: seq<Action>, u: State, last: nat)
    returns (more: seq<Action>, t: State)
    requires OnlySaves(actions) && ExecFrom(s, actions) == Some(u) && Inv(u) && u.up && u.lock.None?
    ensures OnlySaves(more) && ExecFrom(s, more) == Some(t) && Inv(t) && LandedBut(u, t, last)
    decreases |WaitingBut(u, last)|
  {
    if WaitingBut(u, last) == {} {
      NobodyWaits(u, last);
      return actions, u;
    }
    var j :| j in WaitingBut(u, last);
    var mid;
    more, mid := LandOne(s, actions, u, j);
    OneFewerWaiting(u, mid, last, j);
    more, t := LandAllBut(s, more, mid, last);
    LandedThenOthers(u, mid, t, last, j);
  }

  /** Whichever call is waiting, its list can be the last to be saved: some schedule acknowledges every
      call in flight and leaves exactly that list on disk. */
  lemma AnyWaitingListCanBeLast(s: State, last: nat) returns (actions: seq<Action>, t: State)
    requires Inv(s) && s.up && IsWaiting(s, last) && !HolderCleansUp(s)
    ensures OnlySaves(actions) && ExecFrom(s, actions) == Some(t) && Inv(t) && Acknowledges(s, t)
    ensures t.mem == s.mem && Load(t.files, true) == Loaded(s.ops[last].list)
  {
    actions, t := [], s;
    if s.lock.Some? {
      actions, t := LandHolder(s, actions, t);
    }
    var free := t;
    actions, t := LandAllBut(s, actions, t, last);
    actions, t := LandOne(s, actions, t, last);
    assert forall i :: 0 <= i < |s.ops| && InFlight(s.ops[i]) && s.lock != Some(i) ==> IsWaiting(free, i);
  }

  /** With no further edits, every schedule that acknowledges all calls in flight makes the list in
      memory durable if and only if no stale list can be saved last. (While a failed save cleans up,
      its call is not acknowledged by any schedule.) */
  lemma DurableExactlyWithoutStaleSaves(s: State)
    requires Reachable(s) && s.up
    ensures AlwaysDurable(s) <==> HolderCleansUp(s) || NoStaleListCanBeLast(s)
  {
    ReachableInv(s);
    if HolderCleansUp(s) {
      forall actions | OnlySaves(actions) && ExecFrom(s, actions).Some?
        ensures !Acknowledges(s, ExecFrom(s, actions).value)
      {
        DoomedStays(s, actions, s.lock.value);
      }
    } else if NoStaleListCanBeLast(s) {
      forall actions | OnlySaves(actions) && ExecFrom(s, actions).Some? && Acknowledges(s, ExecFrom(s, actions).value)
        ensures Durable(ExecFrom(s, actions).value)
      {
        AcknowledgedIsDurable(s, actions);
      }
    } else {
      var actions, t := StaleListLands(s);
    }
  }

  /** While nobody holds the store lock, those are all lists in flight. */
  lemma DurableExactlyWhenAllListsAreFresh(s: State)
    requires Reachable(s) && s.up && s.lock.None? && !Idle(s)
    ensures AlwaysDurable(s) <==> forall i | 0 <= i < |s.ops| && InFlight(s.ops[i]) :: s.ops[i].list == s.mem
  {
    ReachableInv(s);
    DurableExactlyWithoutStaleSaves(s);
    var i :| 0 <= i < |s.ops| && InFlight(s.ops[i]);
    assert IsWaiting(s, i);
    assert forall j :: 0 <= j < |s.ops| && InFlight(s.ops[j]) <==> IsWaiting(s, j);
  }

  /** A stale list that is being saved does no harm if a fresh one is sure to follow it. */
  lemma StaleHolderIsHarmless(s: State, i: nat)
    requires Reachable(s) && s.up && s.lock.Some? && s.lock.value < |s.ops| && s.ops[s.lock.value].list != s.mem
    requires IsWaiting(s, i) && forall j | IsWaiting(s, j) :: s.ops[j].list == s.mem
    ensures AlwaysDurable(s)
  {
    DurableExactlyWithoutStaleSaves(s);
  }

  lemma {:induction false} DoomedStays(s: State, actions: seq<Action>, i: nat)
    requires Inv(s) && s.up && OnlySaves(actions) && ExecFrom(s, actions).Some? && i < |s.ops| && Doomed(s.ops[i])
    ensures var t := ExecFrom(s, actions).value; i < |t.ops| && Doomed(t.ops[i])
  {
    if actions != [] {
      var init, a := actions[..|actions| - 1], actions[|actions| - 1];
      assert a in actions && forall x | x in init :: x in actions;
      DoomedStays(s, init, i);
      LastListStays(s, init);
      SaveStepKeepsMemory(ExecFrom(s, init).value, a);
    }
  }

  lemma AcknowledgedIsDurable(s: State, actions: seq<Action>)
    requires Inv(s) && s.up && NoStaleListCanBeLast(s)
    requires OnlySaves(actions) && ExecFrom(s, actions).Some? && Acknowledges(s, ExecFrom(s, actions).value)
    ensures Durable(ExecFrom(s, actions).value)
  {
    LastListStays(s, actions);
    var t := ExecFrom(s, actions).value;
    assert forall i :: 0 <= i < |t.ops| ==> !InFlight(t.ops[i]);
    DurableMeansOnDisk(t);
  }

  lemma StaleListLands(s: State) returns (actions: seq<Action>, t: State)
    requires Inv(s) && s.up && !HolderCleansUp(s) && !NoStaleListCanBeLast(s)
    ensures OnlySaves(actions) && ExecFrom(s, actions) == Some(t) && Acknowledges(s, t) && !Durable(t)
  {
    if i :| IsWaiting(s, i) && s.ops[i].list != s.mem {
      actions, t := AnyWaitingListCanBeLast(s, i);
    } else if s.lock.Some? {
      actions, t := LandHolder(s, [], s);
    } else {
      actions, t := [], s;
    }
    DurableMeansOnDisk(t);
  }

  lemma FreshSaveStep(u: State, a: Action)
    requires Inv(u) && u.up && (a.LockStore? || a.FileEffect?) && Enabled(u, a)
    requires forall i | 0 <= i < |u.ops| && InFlight(u.ops[i]) :: u.ops[i].list == u.mem
    requires var t := Apply(u, a);
             || u.held[u.onDisk] == u.mem
             || SomeAcknowledged(u, t)
    ensures var t := Apply(u, a); t.onDisk < |t.held| && t.held[t.onDisk] == t.mem
  {
    if a.FileEffect? {
      assert InFlight(u.ops[u.lock.value]);
    }
  }

  ghost predicate SomeAcknowledged(s: State, t: State) {
    exists i :: 0 <= i < |s.ops| && i < |t.ops| && InFlight(s.ops[i]) && t.ops[i].pc == Returned(true)
  }

  lemma AcknowledgedByThen(s: State, u: State, a: Action)
    requires Enabled(u, a) && (a.LockStore? || a.FileEffect?) && |u.ops| == |s.ops|
    requires SomeAcknowledged(s, Apply(u, a)) && Inv(u)
    ensures SomeAcknowledged(s, u) || SomeAcknowledged(u, Apply(u, a))
  {
    var t := Apply(u, a);
    var i :| 0 <= i < |s.ops| && i < |t.ops| && InFlight(s.ops[i]) && t.ops[i].pc == Returned(true);
    assert u.ops[i].pc == Returned(true) || InFlight(u.ops[i]);
  }

  /** If every list in flight is the one in memory, a single acknowledged save is enough, whatever the
      others meet. */
  lemma {:induction false} OneAcknowledgedSaveSuffices(s: State, actions: seq<Action>)
    requires Inv(s) && s.up && forall i | 0 <= i < |s.ops| && InFlight(s.ops[i]) :: s.ops[i].list == s.mem
    requires OnlySaves(actions) && ExecFrom(s, actions).Some?
    ensures var t := ExecFrom(s, actions).value;
            && Inv(t) && |t.ops| == |s.ops|
            && (SomeAcknowledged(s, t) ==> Durable(t))
            && forall i :: 0 <= i < |s.ops| ==> t.ops[i].list == s.ops[i].list
  {
    if actions != [] {
      var init, a := actions[..|actions| - 1], actions[|actions| - 1];
      assert a in actions && forall x | x in init :: x in actions;
      OneAcknowledgedSaveSuffices(s, init);
      LastListStays(s, init);
      var u := ExecFrom(s, init).value;
      var t := Apply(u, a);
      SaveStepKeepsMemory(u, a);
      DurableMeansOnDisk(u);
      DurableMeansOnDisk(t);
      if SomeAcknowledged(s, t) {
        AcknowledgedByThen(s, u, a);
        FreshSaveStep(u, a);
      }
    }
  }

  // ---------- a start that cannot read the file ----------

  /** A start, and then one addition. */
  function StartAndAdd(s: State, readable: bool, rule: RoutingRule, id: string): State
    requires !s.up && ValidRule(rule)
  {
    Apply(Apply(s, Restart(readable)), AddRule(rule, id))
  }

  lemma OneFreshSave(s: State, readable: bool, rule: RoutingRule, id: string)
    requires Inv(s) && !s.up && ValidRule(rule)
    ensures var u := StartAndAdd(s, readable, rule, id);
            && Inv(u) && u.up && NoStaleListCanBeLast(u)
            && u.mem == (if readable then s.held[s.onDisk] else if Main in s.files then [] else s.held[s.onDisk])
                        + [rule.(id := id)]
  {
    var t := Apply(s, Restart(readable));
    RestartKeepsInv(s, readable);
    StepKeepsInv(t, AddRule(rule, id));
    var u := Apply(t, AddRule(rule, id));
    assert IsWaiting(u, |t.ops|);
    assert forall i :: IsWaiting(u, i) ==> i == |t.ops|;
  }

  /** The program goes on with an empty list when it cannot read the file, and the next addition that
      is saved replaces the file. The rules that were on disk survive a start and a first acknowledged
      addition if and only if the start could read the file, or there were none; otherwise the file
      then holds the new rule alone. */
  lemma StartKeepsRulesExactlyWhenReadable(
    s: State, readable: bool, rule: RoutingRule, id: string, actions: seq<Action>)
    requires Reachable(s) && !s.up && ValidRule(rule)
    requires var u := StartAndAdd(s, readable, rule, id);
             OnlySaves(actions) && ExecFrom(u, actions).Some? && Acknowledges(u, ExecFrom(u, actions).value)
    ensures s.onDisk < |s.held| && Load(s.files, true) == Loaded(s.held[s.onDisk])
    ensures var files := ExecFrom(StartAndAdd(s, readable, rule, id), actions).value.files;
            && (Load(files, true) == Loaded(s.held[s.onDisk] + [rule.(id := id)]) <==>
               readable || s.held[s.onDisk] == [])
            && (!readable && s.held[s.onDisk] != [] ==> Load(files, true) == Loaded([rule.(id := id)]))
  {
    ReachableInv(s);
    OneFreshSave(s, readable, rule, id);
    var u := StartAndAdd(s, readable, rule, id);
    LastListStays(u, actions);
    AcknowledgedIsDurable(u, actions);
    var t := ExecFrom(u, actions).value;
    assert CrashImage(t.files, t.files);
    assert |s.held[s.onDisk] + [rule.(id := id)]| == |s.held[s.onDisk]| + 1;
  }

  // ---------- the store's own recording ----------

  /** What `Store.SaveRules` records of the disk is a schedule of this system: taking the store lock and
      then one file effect for each recorded state. */
  lemma {:induction false} RecordedSaveIsASchedule(s: State, i: nat, stamp: int, trace: seq<SaveState>)
    returns (actions: seq<Action>, t: State)
    requires Inv(s) && s.up && s.lock.None? && IsWaiting(s, i)
    requires SaveRun(s.ops[i].list, Temp(stamp), trace) && trace[0].files == s.files
    ensures OnlySaves(actions) && ExecFrom(s, actions) == Some(t)
    ensures t.files == trace[|trace| - 1].files && t.held == s.held && t.mem == s.mem && t.up
    ensures |t.ops| == |s.ops| && forall j :: 0 <= j < |s.ops| && j != i ==> t.ops[j] == s.ops[j]
    ensures var pc := trace[|trace| - 1].pc;
            && t.ops[i].list == s.ops[i].list && t.ops[i].tmp == Temp(stamp)
            && (Final(pc) ==> t.lock.None? && t.ops[i].pc == Returned(pc.Saved?))
            && (!Final(pc) ==> t.lock == Some(i) && t.ops[i].pc == Saving(pc))
    decreases |trace|
  {
    if |trace| == 1 {
      Extended(s, [], s, LockStore(i, stamp));
      return [LockStore(i, stamp)], Apply(s, LockStore(i, stamp));
    }
    var init := trace[..|trace| - 1];
    var u;
    actions, u := RecordedSaveIsASchedule(s, i, stamp, init);
    assert SaveEffect(s.ops[i].list, Temp(stamp), trace[|trace| - 2], trace[|trace| - 1]);
    var ok := trace[|trace| - 1] == SaveNext(s.ops[i].list, Temp(stamp), trace[|trace| - 2], true);
    Extended(s, actions, u, FileEffect(ok));
    actions, t := actions + [FileEffect(ok)], Apply(u, FileEffect(ok));
  }

  lemma {:induction false} ReachRun(s: State, actions: seq<Action>)
    requires Reachable(s) && ExecFrom(s, actions).Some?
    ensures Reachable(ExecFrom(s, actions).value)
  {
    if actions != [] {
      ReachRun(s, actions[..|actions| - 1]);
      ReachNext(ExecFrom(s, actions[..|actions| - 1]).value, actions[|actions| - 1]);
    }
  }

  /** So a crash at any point the store records, in any run, leaves a list that the memory once held. */
  lemma RecordedCrashRecovers(s: State, i: nat, stamp: int, trace: seq<SaveState>, k: nat, image: Files)
    requires Reachable(s) && s.up && s.lock.None? && IsWaiting(s, i)
    requires SaveRun(s.ops[i].list, Temp(stamp), trace) && trace[0].files == s.files
    requires k < |trace| && CrashImage(trace[k].files, image)
    ensures exists v :: 0 <= v < |s.held| && Load(image, true) == Loaded(s.held[v])
  {
    ReachableInv(s);
    var prefix := trace[..k + 1];
    assert forall j :: 0 < j < |prefix| ==> SaveEffect(s.ops[i].list, Temp(stamp), prefix[j - 1], prefix[j]) by {
      assert forall j :: 0 < j < |prefix| ==> SaveEffect(s.ops[i].list, Temp(stamp), trace[j - 1], trace[j]);
    }
    var actions, t := RecordedSaveIsASchedule(s, i, stamp, prefix);
    ReachRun(s, actions);
    RestartRecoversVersionOnDisk(t, image);
    ReachableInv(t);
    assert Load(image, true) == Loaded(t.held[t.onDisk]);
  }

  /** With overlapping calls an acknowledged rule can be lost: two additions, both returned without
      an error, saved in the opposite order of their edits. */
  lemma OverlappingSavesLoseARule() returns (s: State, actions: seq<Action>, t: State)
    ensures Reachable(s) && s.up && |s.mem| == 2 && Idle(t) && Acknowledges(s, t)
    ensures OnlySaves(actions) && ExecFrom(s, actions) == Some(t)
    ensures t.mem == s.mem && Load(t.files, true) == Loaded(s.mem[..1])
  {
    var rule := RoutingRule("", MatchCriteria(None, "linux", "", None), "", "");
    s := Init();
    assert Exec([]) == Some(s);
    ReachNext(s, AddRule(rule, "a"));
    s := Apply(s, AddRule(rule, "a"));
    ReachNext(s, AddRule(rule, "b"));
    s := Apply(s, AddRule(rule, "b"));
    ReachableInv(s);
    actions, t := AnyWaitingListCanBeLast(s, 0);
    LastListStays(s, actions);
  }
}
