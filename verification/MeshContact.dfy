/** What the coordinator knows of its nodes, over every run of the membership protocol: exactly what the
    heartbeats, registrations, removals, probes and sweeps so far say; and whom it lets register. */
module MeshContact {
  import opened MeshTypes
  import opened Mesh

  // ---------- status and time stamp ----------

  /** The time stamp of a node's last contact, and whether nothing has taken it offline since. */
  datatype Sight = Sight(stamp: int, online: bool)

  /** The time stamp with which a step puts a node in touch: a heartbeat that is taken, or a registration. */
  function StampOf(c: Config, s: State, a: Action, id: Id): Option<int>
    requires Enabled(c, s, a)
  {
    match a
    case SendHeartbeat(m, delivered, _) =>
      if delivered && Accepts(c, s, s.members[m]) && s.members[m].id == Some(id) then Some(s.now) else None
    case HandleRegister(_, x, _, stamp) => if x == id then Some(stamp) else None
    case _ => None
  }

  /** A node is taken offline by a probe, and by a sweep more than the timeout after its last contact. */
  function SeenStep(c: Config, s: State, a: Action, id: Id, x: Option<Sight>): Option<Sight>
    requires Enabled(c, s, a)
  {
    if StampOf(c, s, a, id).Some? then Some(Sight(StampOf(c, s, a, id).value, true))
    else if x.None? || a == CrashDown || a == Deregister(id) then None
    else if a == ProbeTrip(id) || (a == SweepStale && s.now > x.value.stamp + c.timeout)
    then Some(x.value.(online := false))
    else x
  }

  /** What was seen of a node in a run, `x` before it; `None` if it is not registered. */
  function Seen(c: Config, s: State, x: Option<Sight>, actions: seq<Action>, id: Id): Option<Sight>
    requires Exec(c, s, actions).Some?
  {
    if actions == [] then x
    else
      var init, a := actions[..|actions| - 1], actions[|actions| - 1];
      SeenStep(c, Exec(c, s, init).value, a, id, Seen(c, s, x, init, id))
  }

  predicate AsSeen(s: State, id: Id, x: Option<Sight>) {
    match x
    case None => id !in s.nodes
    case Some(v) =>
      && id in s.nodes && s.nodes[id].lastHeartbeat == v.stamp
      && s.nodes[id].status == if v.online then Online else Offline
  }

  lemma ContactIsSeen(c: Config, s: State, a: Action, id: Id)
    requires Enabled(c, s, a) && StampOf(c, s, a, id).Some?
    ensures AsSeen(Apply(c, s, a), id, Some(Sight(StampOf(c, s, a, id).value, true)))
  {
    match a
    case SendHeartbeat(_, _, _) =>
    case HandleRegister(_, _, _, _) =>
  }

  /** What a step other than a contact does to a record. */
  lemma NodeStep(c: Config, s: State, a: Action, id: Id)
    requires Enabled(c, s, a) && StampOf(c, s, a, id).None?
    ensures var t := Apply(c, s, a);
            && (id in t.nodes <==> id in s.nodes && a != CrashDown && a != Deregister(id))
            && (id in t.nodes ==>
                  t.nodes[id] == s.nodes[id].(status :=
                    if a == ProbeTrip(id) || (a == SweepStale && s.now - s.nodes[id].lastHeartbeat > c.timeout)
                    then Offline else s.nodes[id].status))
  {
    match a
    case SweepStale =>
    case SendHeartbeat(_, _, _) =>
    case HandleRegister(_, _, _, _) =>
    case _ =>
  }

  lemma AsSeenStep(c: Config, s: State, a: Action, id: Id, x: Option<Sight>)
    requires Enabled(c, s, a) && AsSeen(s, id, x)
    ensures AsSeen(Apply(c, s, a), id, SeenStep(c, s, a, id, x))
  {
    if StampOf(c, s, a, id).Some? {
      ContactIsSeen(c, s, a, id);
    } else {
      NodeStep(c, s, a, id);
    }
  }

  /** In every run the registry holds of every node exactly what was seen of it: whether it is there, the
      time of its last contact, and a status that is offline exactly when a probe tripped since then or a
      sweep came too late for it. */
  lemma {:induction false} RegistryIsWhatWasSeen(c: Config, s: State, x: Option<Sight>, actions: seq<Action>, id: Id)
    requires AsSeen(s, id, x) && Exec(c, s, actions).Some?
    ensures AsSeen(Exec(c, s, actions).value, id, Seen(c, s, x, actions, id))
    ensures Init(s) ==> AsSeen(s, id, None)
  {
    if actions != [] {
      var init, a := actions[..|actions| - 1], actions[|actions| - 1];
      RegistryIsWhatWasSeen(c, s, x, init, id);
      AsSeenStep(c, Exec(c, s, init).value, a, id, Seen(c, s, x, init, id));
    }
  }

  // ---------- who is in touch stays online ----------

  lemma TimeGoesOn(c: Config, s: State, a: Action)
    requires Enabled(c, s, a)
    ensures Apply(c, s, a).now == s.now + if a.Advance? then a.d else 0
  {
  }

  /** Nobody removes the node or takes it offline by a probe, and the coordinator does not crash. */
  predicate Undisturbed(actions: seq<Action>, id: Id) {
    CrashDown !in actions && Deregister(id) !in actions && ProbeTrip(id) !in actions
  }

  lemma {:induction false} SeenInTime(c: Config, s: State, actions: seq<Action>, id: Id, stamp: int)
    requires Inv(c, s) && id in s.issued && stamp <= s.now
    requires Exec(c, s, actions).Some? && Undisturbed(actions, id)
    requires Exec(c, s, actions).value.now <= stamp + c.timeout
    ensures s.now <= Exec(c, s, actions).value.now
    ensures var x := Seen(c, s, Some(Sight(stamp, true)), actions, id);
            x.Some? && x.value.online && x.value.stamp >= stamp
  {
    if actions != [] {
      var init, a := actions[..|actions| - 1], actions[|actions| - 1];
      assert a in actions && forall y | y in init :: y in actions;
      TimeGoesOn(c, Exec(c, s, init).value, a);
      SeenInTime(c, s, init, id, stamp);
      IssuedForGood(c, s, init, id);
      StaysInTime(c, Exec(c, s, init).value, a, id, stamp, Seen(c, s, Some(Sight(stamp, true)), init, id).value);
    }
  }

  lemma StaysInTime(c: Config, s: State, a: Action, id: Id, stamp: int, x: Sight)
    requires Enabled(c, s, a) && id in s.issued && stamp <= s.now <= stamp + c.timeout
    requires a != CrashDown && a != Deregister(id) && a != ProbeTrip(id) && x.online && x.stamp >= stamp
    ensures var y := SeenStep(c, s, a, id, Some(x)); y.Some? && y.value.online && y.value.stamp >= stamp
  {
  }

  /** A node whose heartbeat is taken, or which registers, is online from then on for at least the timeout,
      however often the registry is swept: only a probe, a removal or a crash can change that. */
  lemma LiveWhileInTouch(c: Config, s: State, a: Action, later: seq<Action>, id: Id)
    requires Reachable(c, s) && Enabled(c, s, a) && StampOf(c, s, a, id).Some?
    requires var u := Apply(c, s, a);
             && Exec(c, u, later).Some? && Undisturbed(later, id)
             && Exec(c, u, later).value.now <= StampOf(c, s, a, id).value + c.timeout
    ensures var t := Exec(c, Apply(c, s, a), later).value;
            id in t.nodes && t.nodes[id].status == Online && t.nodes[id].lastHeartbeat >= StampOf(c, s, a, id).value
  {
    var stamp := StampOf(c, s, a, id).value;
    var u := Apply(c, s, a);
    ReachNext(c, s, a);
    ReachableInv(c, s);
    ReachableInv(c, u);
    TimeGoesOn(c, s, a);
    ContactIsSeen(c, s, a, id);
    ContactIsIssued(c, s, a, id);
    SeenInTime(c, u, later, id, stamp);
    RegistryIsWhatWasSeen(c, u, Some(Sight(stamp, true)), later, id);
  }

  lemma ContactIsIssued(c: Config, s: State, a: Action, id: Id)
    requires IssuedInv(s) && Enabled(c, s, a) && StampOf(c, s, a, id).Some?
    ensures id in Apply(c, s, a).issued
  {
    IssuesOne(c, s, a);
  }

  // ---------- whom the coordinator takes ----------

  /** Whoever asks does so with its admin token, whoever was given an id had the coordinator's, and a
      record says of its agent what the agent says of itself. */
  ghost predicate AdmissionInv(c: Config, s: State) {
    && (forall m | m in s.members :: s.members[m].phase.Asking? ==> s.members[m].token == s.members[m].admin)
    && (forall id | id in s.issued :: Admitted(c, s.members, s.issued[id].member))
    && (forall id | id in s.nodes :: id in s.issued && Describes(s.nodes[id], s.members, s.issued[id].member))
  }

  predicate Admitted(c: Config, members: map<string, Member>, m: string) {
    m in members && (c.adminToken == NO_TOKEN || members[m].admin == c.adminToken)
  }

  predicate Describes(n: NodeInfo, members: map<string, Member>, m: string) {
    m in members && n.profile == members[m].profile && n.tags == members[m].tags && n.skills == members[m].skills
  }

  /** What an agent is, and the admin token it was given, never changes. */
  lemma AgentsStayThemselves(c: Config, s: State, a: Action, m: string)
    requires Enabled(c, s, a) && m in s.members
    ensures m in Apply(c, s, a).members
    ensures var x := s.members[m];
            var y := Apply(c, s, a).members[m];
            y.profile == x.profile && y.tags == x.tags && y.skills == x.skills && y.admin == x.admin
  {
    if Actor(a) != Some(m) {
      OthersLeaveMembers(c, s, a, m);
    }
  }

  lemma AskingStep(c: Config, s: State, a: Action, m: string)
    requires Enabled(c, s, a) && m in s.members && m in Apply(c, s, a).members
    requires s.members[m].phase.Asking? ==> s.members[m].token == s.members[m].admin
    ensures var y := Apply(c, s, a).members[m]; y.phase.Asking? ==> y.token == y.admin
  {
    if Actor(a) != Some(m) {
      OthersLeaveMembers(c, s, a, m);
    }
  }

  /** A token with which a registration is handled is the coordinator's own: an agent asks with its admin
      token, and no node token is one. */
  lemma AskerIsAdmitted(c: Config, s: State, m: string, id: Id, token: Token, stamp: int)
    requires Inv(c, s) && AdmissionInv(c, s) && Enabled(c, s, HandleRegister(m, id, token, stamp))
    ensures Admitted(c, s.members, m)
  {
    assert forall x | x in s.tokens :: s.tokens[x] != s.members[m].admin;
  }

  lemma NodesStep(c: Config, s: State, a: Action, id: Id)
    requires Enabled(c, s, a) && id in Apply(c, s, a).nodes
    ensures var n := Apply(c, s, a).nodes[id];
            if a.HandleRegister? && a.id == id
            then Describes(n, s.members, a.m)
            else id in s.nodes && n.profile == s.nodes[id].profile && n.tags == s.nodes[id].tags
                 && n.skills == s.nodes[id].skills
  {
    if StampOf(c, s, a, id).None? {
      NodeStep(c, s, a, id);
    }
  }

  lemma AskingStays(c: Config, s: State, a: Action)
    requires AdmissionInv(c, s) && Enabled(c, s, a)
    ensures var t := Apply(c, s, a);
            forall m | m in t.members :: t.members[m].phase.Asking? ==> t.members[m].token == t.members[m].admin
  {
    NobodyComesOrGoes(c, s, a);
    forall m | m in Apply(c, s, a).members
      ensures var y := Apply(c, s, a).members[m]; y.phase.Asking? ==> y.token == y.admin
    {
      AskingStep(c, s, a, m);
    }
  }

  lemma AdmittedStay(c: Config, s: State, a: Action)
    requires Inv(c, s) && AdmissionInv(c, s) && Enabled(c, s, a)
    ensures var t := Apply(c, s, a); forall id | id in t.issued :: Admitted(c, t.members, t.issued[id].member)
  {
    var t := Apply(c, s, a);
    IssuesOne(c, s, a);
    if a.HandleRegister? {
      AskerIsAdmitted(c, s, a.m, a.id, a.token, a.stamp);
    }
    forall id | id in t.issued
      ensures Admitted(c, t.members, t.issued[id].member)
    {
      AgentsStayThemselves(c, s, a, t.issued[id].member);
    }
  }

  lemma AdmissionStep(c: Config, s: State, a: Action)
    requires Inv(c, s) && AdmissionInv(c, s) && Enabled(c, s, a)
    ensures AdmissionInv(c, Apply(c, s, a))
  {
    var t := Apply(c, s, a);
    AskingStays(c, s, a);
    AdmittedStay(c, s, a);
    IssuesOne(c, s, a);
    forall id | id in t.nodes
      ensures id in t.issued && Describes(t.nodes[id], t.members, t.issued[id].member)
    {
      NodesStep(c, s, a, id);
      AgentsStayThemselves(c, s, a, t.issued[id].member);
    }
  }

  lemma {:induction false} RunKeepsAdmission(c: Config, s: State, actions: seq<Action>)
    requires Inv(c, s) && AdmissionInv(c, s) && Exec(c, s, actions).Some?
    ensures AdmissionInv(c, Exec(c, s, actions).value)
  {
    if actions != [] {
      var init := actions[..|actions| - 1];
      RunKeepsAdmission(c, s, init);
      RunKeepsInv(c, s, init);
      AdmissionStep(c, Exec(c, s, init).value, actions[|actions| - 1]);
    }
  }

  lemma ReachableAdmission(c: Config, s: State)
    requires Reachable(c, s)
    ensures Inv(c, s) && AdmissionInv(c, s)
  {
    ReachableInv(c, s);
    var s0, actions :| Init(s0) && Exec(c, s0, actions) == Some(s);
    assert Exec(c, s0, []) == Some(s0);
    ReachableInv(c, s0);
    RunKeepsAdmission(c, s0, actions);
  }

  /** At a coordinator with an admin token, only agents that have it are ever given an id:
      with a node token, which passes for every other request, none of them ever registers. */
  lemma OnlyAdminTokenRegisters(c: Config, s: State, id: Id)
    requires Reachable(c, s) && c.adminToken != NO_TOKEN && id in s.issued
    ensures var m := s.issued[id].member; m in s.members && s.members[m].admin == c.adminToken
  {
    ReachableAdmission(c, s);
    assert Admitted(c, s.members, s.issued[id].member);
  }

  /** Every record has the profile, tags and skills of the agent its id was issued to. */
  lemma RecordsDescribeTheirAgents(c: Config, s: State, id: Id)
    requires Reachable(c, s) && id in s.nodes
    ensures id in s.issued
    ensures var m := s.issued[id].member;
            var n := s.nodes[id];
            m in s.members && n.profile == s.members[m].profile && n.tags == s.members[m].tags
            && n.skills == s.members[m].skills
  {
    ReachableAdmission(c, s);
    assert Describes(s.nodes[id], s.members, s.issued[id].member);
  }

  lemma KnownIsAccepted(c: Config, s: State, m: string)
    requires Reachable(c, s) && s.up && m in s.members && s.members[m].phase.Beating? && s.members[m].id.Some?
    ensures Accepts(c, s, s.members[m]) <==> s.members[m].id.value in s.nodes
  {
    ReachableAdmission(c, s);
    var me := s.members[m];
    assert MemberInv(s.issued, s.answered, m, me);
    assert Admitted(c, s.members, s.issued[me.id.value].member);
    TokenAgreement(c, s, m);
  }

  /** A heartbeat that reaches the coordinator is taken if and only if the coordinator knows the id,
      whichever token the agent is on: it is then online with the time of the heartbeat, and the agent's
      count starts again; otherwise nothing changes there and the agent counts a failure. */
  lemma HeartbeatIsTakenExactlyWhenKnown(c: Config, s: State, m: string)
    requires Reachable(c, s) && s.up && Enabled(c, s, SendHeartbeat(m, true, true))
    ensures var t := Apply(c, s, SendHeartbeat(m, true, true));
            var id := s.members[m].id.value;
            && m in t.members
            && (id in s.nodes ==>
                  && t.nodes == s.nodes[id := s.nodes[id].(status := Online, lastHeartbeat := s.now)]
                  && t.members[m].loop.failures == 0)
            && (id !in s.nodes ==> t.nodes == s.nodes && t.members[m].loop.failures == s.members[m].loop.failures + 1)
  {
    KnownIsAccepted(c, s, m);
  }
}
