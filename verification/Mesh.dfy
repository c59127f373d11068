/** Membership as one protocol: agents, the coordinator's registry and its health checker, over every
    run with crashes, restarts, lost requests and lost replies.

    Ids and tokens are numbers here: the protocol only compares them, and both come from a generator
    of fresh values. A request is handled before its sender stops waiting for the answer. */
module Mesh {
  import opened MeshTypes
  import opened Registry
  import opened Routing
  import opened Agent

  type Id = nat
  type Token = nat

  /** The empty token. */
  const NO_TOKEN: Token := 0

  /** `adminToken` is the coordinator's; `gap` bounds the time between two staleness sweeps. */
  datatype Config = Config(adminToken: Token, timeout: nat, gap: nat)

  datatype Phase = Beating | MustRegister | Asking(issued: Option<Id>)

  datatype Member = Member(
    profile: Profile, tags: seq<string>, skills: seq<string>,
    id: Option<Id>, token: Token, admin: Token, loop: Loop, phase: Phase)

  datatype Issue = Issue(member: string, token: Token)

  /** The coordinator: `nodes` and `tokens` are the registry, `handlers` the registrations that have
      added their node but not yet stored its token. History: `issued` lists every id ever given out
      and for whom, `answered` those whose handler finished, `contact` the time of the last heartbeat
      or registration the registry recorded for an id, `dropped` the ids whose node was removed, since
      the coordinator started, while its registration was still among the `handlers`. */
  datatype State = State(
    now: int, up: bool, lastSweep: int,
    nodes: map<Id, NodeInfo>, tokens: map<Id, Token>, handlers: map<Id, Token>,
    members: map<string, Member>,
    issued: map<Id, Issue>, answered: set<Id>, contact: map<Id, int>, dropped: set<Id>)

  datatype Action =
    | Advance(d: nat)
    | SweepStale
    | ProbeTrip(id: Id)
    | Deregister(id: Id)
    | CrashDown
    | Restart
    | SendHeartbeat(m: string, delivered: bool, replied: bool)
    | StartRegister(m: string)
    | HandleRegister(m: string, id: Id, token: Token, stamp: int)
    | StoreToken(id: Id)
    | RegisterReply(m: string)
    | RegisterFail(m: string)

  predicate Authorized(c: Config, s: State, token: Token) {
    || c.adminToken == NO_TOKEN
    || (token != NO_TOKEN && (token == c.adminToken || exists id :: id in s.tokens && s.tokens[id] == token))
  }

  /** The registry knows the id and would take the heartbeat. */
  predicate Accepts(c: Config, s: State, m: Member) {
    s.up && m.id.Some? && m.id.value in s.nodes && Authorized(c, s, m.token)
  }

  predicate FreshToken(c: Config, s: State, t: Token) {
    && t != NO_TOKEN && t != c.adminToken
    && (forall m | m in s.members :: t != s.members[m].admin)
    && (forall id | id in s.issued :: t != s.issued[id].token)
  }

  predicate Enabled(c: Config, s: State, a: Action) {
    match a
    case Advance(d) => s.up ==> s.now + d - s.lastSweep <= c.gap
    case SweepStale => s.up
    case ProbeTrip(_) => s.up
    case Deregister(_) => s.up
    case CrashDown => s.up
    case Restart => !s.up
    case SendHeartbeat(m, _, _) => m in s.members && s.members[m].phase.Beating? && s.members[m].id.Some?
    case StartRegister(m) => m in s.members && s.members[m].phase.MustRegister?
    case HandleRegister(m, id, token, stamp) =>
      && s.up && m in s.members && s.members[m].phase == Asking(None) && Authorized(c, s, s.members[m].token)
      && id !in s.issued && FreshToken(c, s, token) && stamp <= s.now
    case StoreToken(id) => s.up && id in s.handlers
    case RegisterReply(m) =>
      && m in s.members && s.members[m].phase.Asking? && s.members[m].phase.issued.Some?
      && s.members[m].phase.issued.value in s.issued && s.members[m].phase.issued.value in s.answered
    case RegisterFail(m) => m in s.members && s.members[m].phase.Asking?
  }

  function AfterHeartbeat(m: Member, ok: bool): Member {
    if ok then m.(loop := LOOP_START)
    else
      var failures := m.loop.failures + 1;
      m.(loop := Loop(failures, m.loop.backoff),
         phase := if failures >= MAX_FAILURES_BEFORE_RECONNECT then MustRegister else Beating)
  }

  /** An attempt to register starts from the admin token. */
  function AfterStart(m: Member): Member {
    m.(token := m.admin, phase := Asking(None))
  }

  function AfterReply(m: Member, id: Id, token: Token): Member {
    m.(id := Some(id), token := token, loop := LOOP_START, phase := Beating)
  }

  /** A failed attempt leaves the admin token in place. Without an id the program has not started its
      loop and registers again from the start. */
  function AfterFail(m: Member): Member {
    if m.id.None? then m.(phase := MustRegister)
    else m.(loop := Loop(m.loop.failures, Doubled(m.loop.backoff)), phase := Beating)
  }

  function Apply(c: Config, s: State, a: Action): State
    requires Enabled(c, s, a)
  {
    match a
    case Advance(d) => s.(now := s.now + d)
    case SweepStale => s.(nodes := MarkStale(s.nodes, s.now, c.timeout), lastSweep := s.now)
    case ProbeTrip(id) => if id in s.nodes then s.(nodes := s.nodes[id := WithStatus(s.nodes[id], Offline)]) else s
    case Deregister(id) =>
      if id !in s.nodes then s
      else
        s.(nodes := s.nodes - {id}, tokens := s.tokens - {id},
           dropped := if id in s.handlers then s.dropped + {id} else s.dropped)
    case CrashDown => s.(up := false, nodes := map[], tokens := map[], handlers := map[], dropped := {})
    case Restart => s.(up := true, lastSweep := s.now)
    case SendHeartbeat(m, delivered, replied) =>
      var me := s.members[m];
      var taken := delivered && Accepts(c, s, me);
      var t := s.(members := s.members[m := AfterHeartbeat(me, taken && replied)]);
      if taken then
        t.(nodes := s.nodes[me.id.value := WithHeartbeat(s.nodes[me.id.value], Online, s.now)],
           contact := s.contact[me.id.value := s.now])
      else t
    case StartRegister(m) =>
      s.(members := s.members[m := AfterStart(s.members[m])])
    case HandleRegister(m, id, token, stamp) =>
      s.(nodes := s.nodes[id := NodeInfo(s.members[m].profile, s.members[m].tags, s.members[m].skills, Online, stamp)],
         handlers := s.handlers[id := token],
         members := s.members[m := s.members[m].(phase := Asking(Some(id)))],
         issued := s.issued[id := Issue(m, token)],
         contact := s.contact[id := s.now])
    case StoreToken(id) =>
      s.(tokens := s.tokens[id := s.handlers[id]], handlers := s.handlers - {id}, answered := s.answered + {id})
    case RegisterReply(m) =>
      var id := s.members[m].phase.issued.value;
      s.(members := s.members[m := AfterReply(s.members[m], id, s.issued[id].token)])
    case RegisterFail(m) =>
      s.(members := s.members[m := AfterFail(s.members[m])])
  }

  /** The identity of the program's agent, under a way of writing ids and tokens as text. */
  ghost function Written(m: Member, idText: Id -> string, tokenText: Token -> string): Identity {
    Identity(if m.id.Some? then idText(m.id.value) else "", tokenText(m.token))
  }

  /** The member after a tick: a heartbeat, and if it was the fifth failure in a row or a later one,
      an attempt to register, which gets `id` and `token` if it is accepted. */
  function AfterOwnSteps(m: Member, t: Tick, id: Id, token: Token): Member {
    var beaten := AfterHeartbeat(m, t.heartbeatOk);
    if !beaten.phase.MustRegister? then beaten
    else if t.attempt.Accepted? then AfterReply(AfterStart(beaten), id, token)
    else AfterFail(AfterStart(beaten))
  }

  /** The steps of an agent in the protocol, taken together, are the ticks of the program's loop: they
      leave the same counter, backoff, id and token. */
  lemma StepsAreTicks(m: Member, t: Tick, id: Id, token: Token, idText: Id -> string, tokenText: Token -> string)
    requires m.phase.Beating? && m.id.Some? && !Interrupted(m.loop, t)
    requires t.attempt.Accepted? ==> t.attempt == Accepted(idText(id), tokenText(token)) && tokenText(token) != ""
    ensures var after := AfterOwnSteps(m, t, id, token);
            && after.phase.Beating? && after.loop == AfterTick(m.loop, t)
            && Written(after, idText, tokenText) ==
                 IdentityAfterTick(Written(m, idText, tokenText), tokenText(m.admin), m.loop, t)
  {
  }

  /** Any number of agents that have not registered yet, in front of an empty coordinator. */
  predicate Init(s: State) {
    && s.up && s.lastSweep == s.now
    && s.nodes == map[] && s.tokens == map[] && s.handlers == map[]
    && s.issued == map[] && s.answered == {} && s.contact == map[] && s.dropped == {}
    && forall m | m in s.members ::
         s.members[m].id.None? && s.members[m].token == s.members[m].admin
         && s.members[m].loop == LOOP_START && s.members[m].phase == MustRegister
  }

  /** The state after a sequence of actions; `None` if one of them is not possible. */
  function Exec(c: Config, s: State, actions: seq<Action>): Option<State> {
    if actions == [] then Some(s)
    else
      match Exec(c, s, actions[..|actions| - 1])
      case None => None
      case Some(t) =>
        var a := actions[|actions| - 1];
        if Enabled(c, t, a) then Some(Apply(c, t, a)) else None
  }

  ghost predicate Reachable(c: Config, s: State) {
    exists s0, actions :: Init(s0) && Exec(c, s0, actions) == Some(s)
  }

  // ---------- invariants ----------

  /** Records, contacts and the last sweep agree: a non-offline node was in touch at most `timeout`
      before the last sweep. */
  ghost predicate FreshNodes(nodes: map<Id, NodeInfo>, contact: map<Id, int>, lastSweep: int, timeout: nat) {
    forall id | id in nodes ::
      && id in contact && nodes[id].lastHeartbeat <= contact[id]
      && (nodes[id].status != Offline ==> contact[id] + timeout >= lastSweep)
  }

  ghost predicate ClockInv(c: Config, s: State) {
    && (s.up ==> s.lastSweep <= s.now <= s.lastSweep + c.gap)
    && (!s.up ==> s.nodes == map[] && s.handlers == map[])
    && (forall id | id in s.contact :: s.contact[id] <= s.now)
  }

  /** Whatever the coordinator holds for an id is what was issued with it. */
  ghost predicate IssuedInv(s: State) {
    && s.contact.Keys <= s.issued.Keys && s.nodes.Keys <= s.issued.Keys && s.answered <= s.issued.Keys
    && (forall id | id in s.tokens :: id in s.answered && s.tokens[id] == s.issued[id].token)
    && (forall id | id in s.handlers :: id in s.issued && s.handlers[id] == s.issued[id].token && id !in s.answered)
  }

  /** Every registered id has its token filed, or on its way, and so has every dropped one. */
  ghost predicate StoredInv(s: State) {
    && (forall id | id in s.nodes :: id in s.handlers || id in s.tokens)
    && (forall id | id in s.handlers || id in s.tokens :: id in s.nodes || id in s.dropped)
    && (forall id | id in s.dropped :: id in s.issued && id !in s.nodes && (id in s.handlers || id in s.tokens))
  }

  ghost predicate UniqueTokens(issued: map<Id, Issue>) {
    forall i, j | i in issued && j in issued && i != j :: issued[i].token != issued[j].token
  }

  ghost predicate DistinctTokens(c: Config, s: State) {
    && (forall id | id in s.issued :: s.issued[id].token != NO_TOKEN && s.issued[id].token != c.adminToken)
    && (forall id, m | id in s.issued && m in s.members :: s.issued[id].token != s.members[m].admin)
  }

  ghost predicate MemberInv(issued: map<Id, Issue>, answered: set<Id>, name: string, m: Member) {
    && (m.token == m.admin || (m.id.Some? && m.id.value in issued && m.token == issued[m.id.value].token))
    && (m.id.Some? ==> m.id.value in answered && m.id.value in issued && issued[m.id.value].member == name)
    && (m.phase.Asking? && m.phase.issued.Some? ==>
          m.phase.issued.value in issued && issued[m.phase.issued.value].member == name)
    && LoopInv(m)
  }

  ghost predicate LoopInv(m: Member) {
    && (m.phase.Beating? ==> m.id.Some? && m.loop.backoff == ClosedFormBackoff(m.loop.failures))
    && (!m.phase.Beating? ==>
          if m.id.None? then m.loop == LOOP_START
          else
            && m.loop.failures >= MAX_FAILURES_BEFORE_RECONNECT
            && m.loop.backoff == ClosedFormBackoff(m.loop.failures - 1))
  }

  ghost predicate Inv(c: Config, s: State) {
    && FreshNodes(s.nodes, s.contact, s.lastSweep, c.timeout)
    && ClockInv(c, s)
    && IssuedInv(s) && StoredInv(s) && DistinctTokens(c, s) && UniqueTokens(s.issued)
    && forall m | m in s.members :: MemberInv(s.issued, s.answered, m, s.members[m])
  }

  lemma FreshStep(c: Config, s: State, a: Action)
    requires FreshNodes(s.nodes, s.contact, s.lastSweep, c.timeout) && ClockInv(c, s) && IssuedInv(s)
             && Enabled(c, s, a)
    ensures var t := Apply(c, s, a); FreshNodes(t.nodes, t.contact, t.lastSweep, c.timeout)
  {
    match a
    case SweepStale =>
    case ProbeTrip(_) =>
    case SendHeartbeat(_, _, _) =>
    case HandleRegister(_, _, _, _) =>
    case _ =>
  }

  lemma ClockStep(c: Config, s: State, a: Action)
    requires ClockInv(c, s) && Enabled(c, s, a)
    ensures ClockInv(c, Apply(c, s, a))
  {
    match a
    case SendHeartbeat(_, _, _) =>
    case HandleRegister(_, _, _, _) =>
    case _ =>
  }

  lemma IssuedStep(c: Config, s: State, a: Action)
    requires IssuedInv(s) && Enabled(c, s, a)
    ensures IssuedInv(Apply(c, s, a))
  {
    match a
    case SweepStale =>
    case SendHeartbeat(_, _, _) =>
    case HandleRegister(_, _, _, _) =>
    case StoreToken(_) =>
    case _ =>
  }

  lemma StoredStep(c: Config, s: State, a: Action)
    requires IssuedInv(s) && StoredInv(s) && Enabled(c, s, a)
    ensures StoredInv(Apply(c, s, a))
  {
    match a
    case Deregister(_) =>
    case SendHeartbeat(_, _, _) =>
    case HandleRegister(_, _, _, _) =>
    case StoreToken(_) =>
    case _ =>
  }

  lemma UniqueStep(c: Config, s: State, a: Action)
    requires UniqueTokens(s.issued) && Enabled(c, s, a)
    ensures UniqueTokens(Apply(c, s, a).issued)
  {
    IssuesOne(c, s, a);
  }

  lemma DistinctStep(c: Config, s: State, a: Action)
    requires DistinctTokens(c, s) && Enabled(c, s, a)
    ensures DistinctTokens(c, Apply(c, s, a))
  {
    var t := Apply(c, s, a);
    NobodyComesOrGoes(c, s, a);
    IssuesOne(c, s, a);
    forall id, m | id in t.issued && m in t.members
      ensures t.issued[id].token != t.members[m].admin
    {
      AdminStays(c, s, a, m);
    }
  }

  lemma NobodyComesOrGoes(c: Config, s: State, a: Action)
    requires Enabled(c, s, a)
    ensures Apply(c, s, a).members.Keys == s.members.Keys
  {
  }

  lemma AdminStays(c: Config, s: State, a: Action, m: string)
    requires Enabled(c, s, a) && m in s.members
    ensures m in Apply(c, s, a).members && Apply(c, s, a).members[m].admin == s.members[m].admin
  {
    if Actor(a) != Some(m) {
      OthersLeaveMembers(c, s, a, m);
    }
  }

  lemma IssuesOne(c: Config, s: State, a: Action)
    requires Enabled(c, s, a)
    ensures Apply(c, s, a).issued == if a.HandleRegister? then s.issued[a.id := Issue(a.m, a.token)] else s.issued
  {
  }

  /** The agent that acts in a step, if any. */
  function Actor(a: Action): Option<string> {
    match a
    case SendHeartbeat(m, _, _) => Some(m)
    case StartRegister(m) => Some(m)
    case HandleRegister(m, _, _, _) => Some(m)
    case RegisterReply(m) => Some(m)
    case RegisterFail(m) => Some(m)
    case _ => None
  }

  lemma OthersLeaveMembers(c: Config, t: State, a: Action, m: string)
    requires Enabled(c, t, a) && m in t.members && Actor(a) != Some(m)
    ensures m in Apply(c, t, a).members && Apply(c, t, a).members[m] == t.members[m]
  {
  }

  /** Issuing more ids and answering more registrations does not disturb an agent. */
  lemma IssuesGrow(c: Config, s: State, a: Action, name: string, m: Member)
    requires IssuedInv(s) && Enabled(c, s, a) && MemberInv(s.issued, s.answered, name, m)
    ensures MemberInv(Apply(c, s, a).issued, Apply(c, s, a).answered, name, m)
  {
    match a
    case HandleRegister(_, id, _, _) =>
      assert m.id != Some(id) && m.phase != Asking(Some(id));
    case _ =>
  }

  lemma OwnMemberStep(c: Config, s: State, a: Action, m: string)
    requires IssuedInv(s) && Enabled(c, s, a) && Actor(a) == Some(m)
    requires m in s.members && MemberInv(s.issued, s.answered, m, s.members[m])
    ensures var t := Apply(c, s, a); m in t.members && MemberInv(t.issued, t.answered, m, t.members[m])
  {
    match a
    case SendHeartbeat(_, _, _) =>
    case StartRegister(_) =>
    case HandleRegister(_, id, _, _) => assert s.members[m].id != Some(id);
    case RegisterReply(_) =>
    case RegisterFail(_) =>
      if s.members[m].id.Some? {
        DoubledClosedForm(s.members[m].loop.failures - 1);
      }
  }

  lemma MembersStep(c: Config, s: State, a: Action, m: string)
    requires IssuedInv(s) && Enabled(c, s, a)
    requires m in s.members && MemberInv(s.issued, s.answered, m, s.members[m])
    ensures var t := Apply(c, s, a); m in t.members && MemberInv(t.issued, t.answered, m, t.members[m])
  {
    if Actor(a) == Some(m) {
      OwnMemberStep(c, s, a, m);
    } else {
      IssuesGrow(c, s, a, m, s.members[m]);
      OthersLeaveMembers(c, s, a, m);
    }
  }

  lemma StepKeepsInv(c: Config, s: State, a: Action)
    requires Inv(c, s) && Enabled(c, s, a)
    ensures Inv(c, Apply(c, s, a))
  {
    FreshStep(c, s, a);
    ClockStep(c, s, a);
    IssuedStep(c, s, a);
    StoredStep(c, s, a);
    DistinctStep(c, s, a);
    UniqueStep(c, s, a);
    var t := Apply(c, s, a);
    forall m | m in t.members
      ensures MemberInv(t.issued, t.answered, m, t.members[m])
    {
      MembersStep(c, s, a, m);
    }
  }

  lemma {:induction false} RunKeepsInv(c: Config, s: State, actions: seq<Action>)
    requires Inv(c, s) && Exec(c, s, actions).Some?
    ensures Inv(c, Exec(c, s, actions).value)
  {
    if actions != [] {
      RunKeepsInv(c, s, actions[..|actions| - 1]);
      StepKeepsInv(c, Exec(c, s, actions[..|actions| - 1]).value, actions[|actions| - 1]);
    }
  }

  lemma ReachableInv(c: Config, s: State)
    requires Reachable(c, s)
    ensures Inv(c, s)
  {
    var s0, actions :| Init(s0) && Exec(c, s0, actions) == Some(s);
    assert ClosedFormBackoff(0) == FIRST_BACKOFF;
    RunKeepsInv(c, s0, actions);
  }

  lemma ReachNext(c: Config, s: State, a: Action)
    requires Reachable(c, s) && Enabled(c, s, a)
    ensures Reachable(c, Apply(c, s, a))
  {
    var s0, actions :| Init(s0) && Exec(c, s0, actions) == Some(s);
    assert (actions + [a])[..|actions|] == actions;
    assert Exec(c, s0, actions + [a]) == Some(Apply(c, s, a));
  }

  // ---------- freshness of routed nodes ----------

  lemma NonOfflineIsFresh(c: Config, s: State, id: Id)
    requires Reachable(c, s) && id in s.nodes && s.nodes[id].status != Offline
    ensures id in s.contact && s.now - s.contact[id] <= c.timeout + c.gap
  {
    ReachableInv(c, s);
  }

  /** Over every run, a node that a routing decision returns, for a message with or without a target,
      has sent its last heartbeat, or registered, at most `timeout` plus one sweep gap before the
      registry was read. */
  lemma RoutedNodeIsFresh(
    c: Config, s: State, rules: seq<RoutingRule>, listing: seq<NodeInfo>, d: Option<nat>, out: Outcome) returns (id: Id)
    requires Reachable(c, s)
    requires forall n | n in listing :: exists id :: id in s.nodes && s.nodes[id] == n
    requires out.Chosen?
    requires Decision(rules, listing, d, out) || exists target: Id :: out == DirectDecision(s.nodes, target)
    ensures id in s.nodes && s.nodes[id] == out.node
    ensures id in s.contact && s.now - s.contact[id] <= c.timeout + c.gap
  {
    if Decision(rules, listing, d, out) {
      FailsExactlyWhenAllOffline(rules, listing, d, out);
      id :| id in s.nodes && s.nodes[id] == out.node;
    } else {
      id :| out == DirectDecision(s.nodes, id);
    }
    NonOfflineIsFresh(c, s, id);
  }

  /** Only a heartbeat or a registration makes a node non-offline. */
  lemma OnlyContactRevives(c: Config, s: State, a: Action, id: Id)
    requires Enabled(c, s, a)
    requires id in Apply(c, s, a).nodes && Apply(c, s, a).nodes[id].status != Offline
    requires id !in s.nodes || s.nodes[id].status == Offline
    ensures id in Apply(c, s, a).contact && Apply(c, s, a).contact[id] == s.now
    ensures || (a.SendHeartbeat? && s.members[a.m].id == Some(id))
            || (a.HandleRegister? && a.id == id)
  {
  }

  // ---------- superseded ids ----------

  /** The id was given out, but no agent uses it or waits for it: it was replaced, or its reply was
      lost. */
  ghost predicate Retired(s: State, id: Id) {
    id in s.issued && forall m | m in s.members :: s.members[m].id != Some(id) && s.members[m].phase != Asking(Some(id))
  }

  /** A step gives an agent no id but the one it asked for, and asks for none that was issued before. */
  lemma NoOldIds(c: Config, s: State, a: Action, m: string, id: Id)
    requires Enabled(c, s, a) && id in s.issued && m in s.members
    requires s.members[m].id != Some(id) && s.members[m].phase != Asking(Some(id))
    ensures m in Apply(c, s, a).members
    ensures Apply(c, s, a).members[m].id != Some(id) && Apply(c, s, a).members[m].phase != Asking(Some(id))
  {
    if Actor(a) != Some(m) {
      OthersLeaveMembers(c, s, a, m);
    }
  }

  lemma RetiredStays(c: Config, s: State, a: Action, id: Id)
    requires Retired(s, id) && Enabled(c, s, a)
    ensures Retired(Apply(c, s, a), id)
  {
    NobodyComesOrGoes(c, s, a);
    IssuesOne(c, s, a);
    forall m | m in Apply(c, s, a).members
      ensures Apply(c, s, a).members[m].id != Some(id) && Apply(c, s, a).members[m].phase != Asking(Some(id))
    {
      NoOldIds(c, s, a, m, id);
    }
  }

  lemma RetiredHasNoContact(c: Config, s: State, a: Action, id: Id)
    requires IssuedInv(s) && Retired(s, id) && Enabled(c, s, a)
    ensures id in s.contact ==> id in Apply(c, s, a).contact && Apply(c, s, a).contact[id] == s.contact[id]
    ensures id !in s.contact ==> id !in Apply(c, s, a).contact
  {
    match a
    case SendHeartbeat(_, _, _) =>
    case HandleRegister(_, _, _, _) =>
    case _ =>
  }

  lemma {:induction false} RetiredForGood(c: Config, s: State, actions: seq<Action>, id: Id)
    requires Inv(c, s) && Retired(s, id) && Exec(c, s, actions).Some?
    ensures var t := Exec(c, s, actions).value;
            && Retired(t, id)
            && (id in t.contact <==> id in s.contact)
            && (id in s.contact ==> t.contact[id] == s.contact[id])
  {
    if actions != [] {
      var init := actions[..|actions| - 1];
      RetiredForGood(c, s, init, id);
      RunKeepsInv(c, s, init);
      RetiredStays(c, Exec(c, s, init).value, actions[|actions| - 1], id);
      RetiredHasNoContact(c, Exec(c, s, init).value, actions[|actions| - 1], id);
    }
  }

  /** Once an id is retired no agent ever uses it again, and at the latest `timeout` plus one sweep
      gap after its last contact it is offline or gone, whatever happens in between. */
  lemma RetiredGoesOffline(c: Config, s: State, actions: seq<Action>, id: Id)
    requires Reachable(c, s) && Retired(s, id) && Exec(c, s, actions).Some?
    requires id in s.contact ==> Exec(c, s, actions).value.now > s.contact[id] + c.timeout + c.gap
    ensures var t := Exec(c, s, actions).value;
            Retired(t, id) && (id in t.nodes ==> t.nodes[id].status == Offline)
  {
    ReachableInv(c, s);
    RetiredForGood(c, s, actions, id);
    RunKeepsInv(c, s, actions);
  }

  /** Of all ids ever issued to an agent, every one but its current one (and one it waits for) is
      retired; so only the current one can stay online. */
  lemma OnlyCurrentIdIsLive(c: Config, s: State, id: Id)
    requires Reachable(c, s) && id in s.issued
    ensures var m := s.issued[id].member;
            Retired(s, id) <==>
              !(m in s.members && (s.members[m].id == Some(id) || s.members[m].phase == Asking(Some(id))))
  {
    ReachableInv(c, s);
    forall m | m in s.members && (s.members[m].id == Some(id) || s.members[m].phase == Asking(Some(id)))
      ensures m == s.issued[id].member
    {
      assert MemberInv(s.issued, s.answered, m, s.members[m]);
    }
  }

  // ---------- rejoining after a restart ----------

  /** The coordinator stays up for agent `m`: it does not crash, no attempt of `m` to register is lost
      or refused, and nobody removes a node of `m`. Heartbeats may be lost, other agents may come, go
      and fail, and nodes may be probed and swept. */
  predicate Serves(m: string, s: State, a: Action) {
    match a
    case CrashDown => false
    case Deregister(id) => !(id in s.issued && s.issued[id].member == m)
    case RegisterFail(x) => x != m
    case _ => true
  }

  predicate ServedRun(c: Config, s: State, actions: seq<Action>, m: string) {
    if actions == [] then true
    else
      var init, a := actions[..|actions| - 1], actions[|actions| - 1];
      && ServedRun(c, s, init, m)
      && var t := Exec(c, s, init);
         t.Some? && Enabled(c, t.value, a) && Serves(m, t.value, a)
  }

  /** Heartbeat ticks of `m`. */
  function Beats(m: string, actions: seq<Action>): nat {
    if actions == [] then 0
    else
      var a := actions[|actions| - 1];
      Beats(m, actions[..|actions| - 1]) + if a.SendHeartbeat? && a.m == m then 1 else 0
  }

  /** How many ticks a member is away from being registered, or about to be. A reply that names an id
      which the coordinator has forgotten costs a full count of failures. */
  function BeatsLeft(nodes: map<Id, NodeInfo>, m: Member): nat {
    match m.phase
    case Beating => if m.id.Some? && m.id.value in nodes then 0 else TicksToRejoin(m.loop)
    case MustRegister => 0
    case Asking(None) => 0
    case Asking(Some(id)) => if id in nodes then 0 else TicksToRejoin(LOOP_START)
  }

  /** Ids of `m` stay registered, and an id that is not registered never is again. */
  lemma ServedNodes(c: Config, s: State, a: Action, m: string, id: Id)
    requires IssuedInv(s) && Enabled(c, s, a) && Serves(m, s, a) && id in s.issued
    ensures s.issued[id].member == m && id in s.nodes ==> id in Apply(c, s, a).nodes
    ensures id !in s.nodes ==> id !in Apply(c, s, a).nodes
    ensures id in Apply(c, s, a).issued && Apply(c, s, a).issued[id] == s.issued[id]
  {
    match a
    case SweepStale =>
    case ProbeTrip(_) =>
    case SendHeartbeat(_, _, _) =>
    case HandleRegister(_, _, _, _) =>
    case _ =>
  }

  lemma ServedByOthers(c: Config, s: State, a: Action, m: string)
    requires IssuedInv(s) && Enabled(c, s, a) && Serves(m, s, a) && s.up && Actor(a) != Some(m)
    requires m in s.members && MemberInv(s.issued, s.answered, m, s.members[m])
    ensures var t := Apply(c, s, a);
            && t.up && m in t.members && t.members[m] == s.members[m]
            && BeatsLeft(t.nodes, t.members[m]) <= BeatsLeft(s.nodes, s.members[m])
  {
    OthersLeaveMembers(c, s, a, m);
    var me := s.members[m];
    if me.phase.Beating? {
      ServedNodes(c, s, a, m, me.id.value);
    } else if me.phase.Asking? && me.phase.issued.Some? {
      ServedNodes(c, s, a, m, me.phase.issued.value);
    }
  }

  /** A heartbeat that fails brings the member one tick closer. */
  lemma ServedBeat(c: Config, s: State, a: Action, m: string)
    requires Enabled(c, s, a) && a.SendHeartbeat? && a.m == m && m in s.members
    ensures var t := Apply(c, s, a);
            var left := BeatsLeft(s.nodes, s.members[m]);
            && t.up == s.up && m in t.members
            && BeatsLeft(t.nodes, t.members[m]) <= if left == 0 then 0 else left - 1
  {
  }

  lemma ServedOwn(c: Config, s: State, a: Action, m: string)
    requires Enabled(c, s, a) && Serves(m, s, a) && Actor(a) == Some(m) && !a.SendHeartbeat?
    ensures var t := Apply(c, s, a);
            && t.up == s.up && m in s.members && m in t.members
            && BeatsLeft(t.nodes, t.members[m]) <= BeatsLeft(s.nodes, s.members[m])
  {
    match a
    case StartRegister(_) =>
    case HandleRegister(_, id, _, _) => assert id in Apply(c, s, a).nodes;
    case RegisterReply(_) =>
  }

  lemma {:induction false} ServedRunCounts(c: Config, s: State, actions: seq<Action>, m: string)
    requires Inv(c, s) && s.up && m in s.members && ServedRun(c, s, actions, m)
    ensures Exec(c, s, actions).Some?
    ensures var t := Exec(c, s, actions).value;
            && t.up && m in t.members
            && var left := BeatsLeft(s.nodes, s.members[m]);
               BeatsLeft(t.nodes, t.members[m]) <= if Beats(m, actions) >= left then 0 else left - Beats(m, actions)
  {
    if actions != [] {
      var init, a := actions[..|actions| - 1], actions[|actions| - 1];
      ServedRunCounts(c, s, init, m);
      RunKeepsInv(c, s, init);
      var t := Exec(c, s, init).value;
      if Actor(a) != Some(m) {
        ServedByOthers(c, t, a, m);
      } else if a.SendHeartbeat? {
        ServedBeat(c, t, a, m);
      } else {
        ServedOwn(c, t, a, m);
      }
    }
  }

  /** What was issued stays issued to the same agent, and an id that is not registered never is again. */
  lemma {:induction false} IssuedForGood(c: Config, s: State, actions: seq<Action>, id: Id)
    requires Inv(c, s) && id in s.issued && Exec(c, s, actions).Some?
    ensures var t := Exec(c, s, actions).value;
            id in t.issued && t.issued[id] == s.issued[id] && (id !in s.nodes ==> id !in t.nodes)
  {
    if actions != [] {
      var init, a := actions[..|actions| - 1], actions[|actions| - 1];
      IssuedForGood(c, s, init, id);
      RunKeepsInv(c, s, init);
      IssuedStays(c, Exec(c, s, init).value, a, id);
    }
  }

  lemma IssuedStays(c: Config, s: State, a: Action, id: Id)
    requires IssuedInv(s) && Enabled(c, s, a) && id in s.issued
    ensures id in Apply(c, s, a).issued && Apply(c, s, a).issued[id] == s.issued[id]
    ensures id !in s.nodes ==> id !in Apply(c, s, a).nodes
  {
    match a
    case SweepStale =>
    case SendHeartbeat(_, _, _) =>
    case HandleRegister(_, _, _, _) =>
    case _ =>
  }

  /** From any state of an agent, whether in its loop, about to register, or waiting for a reply that
      names an id the coordinator has forgotten: after five heartbeat ticks at a coordinator that
      serves it, whenever it is back in its loop, it holds an id that is registered there and was
      issued to it. */
  lemma RegisteredAfterFiveTicks(c: Config, s: State, actions: seq<Action>, m: string)
    requires Reachable(c, s) && s.up && m in s.members && ServedRun(c, s, actions, m) && Beats(m, actions) >= 5
    ensures Exec(c, s, actions).Some?
    ensures var t := Exec(c, s, actions).value;
            && m in t.members
            && (t.members[m].phase.Beating? ==>
                  var id := t.members[m].id;
                  id.Some? && id.value in t.nodes && id.value in t.issued && t.issued[id.value].member == m)
  {
    ReachableInv(c, s);
    ServedRunCounts(c, s, actions, m);
    RunKeepsInv(c, s, actions);
    var t := Exec(c, s, actions).value;
    assert MemberInv(s.issued, s.answered, m, s.members[m]);
    assert MemberInv(t.issued, t.answered, m, t.members[m]);
  }

  /** In particular an agent whose id the coordinator does not know holds another id by then, one that
      is new unless it was the one in a reply on its way. */
  lemma RejoinsWithinFiveTicks(c: Config, s: State, actions: seq<Action>, m: string)
    requires Reachable(c, s) && s.up && m in s.members && ServedRun(c, s, actions, m) && Beats(m, actions) >= 5
    requires s.members[m].id.Some? && s.members[m].id.value !in s.nodes
    ensures Exec(c, s, actions).Some?
    ensures var t := Exec(c, s, actions).value;
            && m in t.members
            && (t.members[m].phase.Beating? ==>
                  var id := t.members[m].id;
                  && id.Some? && id != s.members[m].id && id.value in t.nodes
                  && id.value in t.issued && t.issued[id.value].member == m
                  && (id.value in s.issued ==> s.members[m].phase == Asking(id)))
  {
    RegisteredAfterFiveTicks(c, s, actions, m);
    ReachableInv(c, s);
    assert MemberInv(s.issued, s.answered, m, s.members[m]);
    IssuedForGood(c, s, actions, s.members[m].id.value);
    var t := Exec(c, s, actions).value;
    if t.members[m].phase.Beating? && t.members[m].id.value in s.issued {
      var id := t.members[m].id.value;
      IssuedForGood(c, s, actions, id);
      OnlyCurrentIdIsLive(c, s, id);
      if Retired(s, id) {
        RetiredForGood(c, s, actions, id);
      }
    }
  }

  /** A restarted coordinator is up and knows nobody, and the agents know nothing of it. */
  lemma RestartForgetsEveryone(c: Config, s: State) returns (t: State)
    requires Reachable(c, s) && s.up
    ensures Enabled(c, s, CrashDown) && Enabled(c, Apply(c, s, CrashDown), Restart)
    ensures t == Apply(c, Apply(c, s, CrashDown), Restart) && Reachable(c, t)
    ensures t.up && t.nodes == map[] && t.tokens == map[] && t.handlers == map[]
    ensures t.members == s.members && t.issued == s.issued && t.now == s.now
  {
    ReachNext(c, s, CrashDown);
    var down := Apply(c, s, CrashDown);
    ReachNext(c, down, Restart);
    t := Apply(c, down, Restart);
  }

  /** After a crash and a restart at any moment of any run, every agent that was registered holds a new,
      registered id after five of its heartbeat ticks, whenever it is in its loop. */
  lemma RejoinsAfterRestart(c: Config, s: State, actions: seq<Action>, m: string) returns (u: State)
    requires Reachable(c, s) && s.up && m in s.members && s.members[m].id.Some?
    requires ServedRun(c, Apply(c, Apply(c, s, CrashDown), Restart), actions, m) && Beats(m, actions) >= 5
    ensures u == Apply(c, Apply(c, s, CrashDown), Restart) && Exec(c, u, actions).Some?
    ensures var t := Exec(c, u, actions).value;
            && m in t.members
            && (t.members[m].phase.Beating? ==>
                  var id := t.members[m].id;
                  && id.Some? && id != s.members[m].id && id.value in t.nodes
                  && id.value in t.issued && t.issued[id.value].member == m)
  {
    u := RestartForgetsEveryone(c, s);
    RejoinsWithinFiveTicks(c, u, actions, m);
  }

  // ---------- token agreement ----------

  /** The check of the node's own handler on a forwarded message, which carries the token the
      registry holds for the node. */
  predicate NodeTakesForwarded(s: State, m: Member)
    requires m.id.Some?
  {
    m.token == NO_TOKEN || (m.id.value in s.tokens && s.tokens[m.id.value] == m.token)
  }

  /** The agent holds the admin token or the one issued with its current id; in the second case, while
      that id is registered, the registry holds the same token. */
  lemma TokenAgreement(c: Config, s: State, name: string)
    requires Reachable(c, s) && name in s.members
    ensures var m := s.members[name];
            || m.token == m.admin
            || (&& m.id.Some? && m.id.value in s.issued && m.token == s.issued[m.id.value].token
                && (m.id.value in s.nodes ==> m.id.value in s.tokens && s.tokens[m.id.value] == m.token))
  {
    ReachableInv(c, s);
    assert MemberInv(s.issued, s.answered, name, s.members[name]);
  }

  /** While its id is registered, a node refuses forwarded messages exactly when it is back on a
      non-empty admin token. */
  lemma ForwardingFailsExactlyOnAdminToken(c: Config, s: State, name: string)
    requires Reachable(c, s) && name in s.members
    requires s.members[name].id.Some? && s.members[name].id.value in s.nodes
    ensures var m := s.members[name];
            NodeTakesForwarded(s, m) <==> !(m.token == m.admin && m.admin != NO_TOKEN)
  {
    ReachableInv(c, s);
    assert MemberInv(s.issued, s.answered, name, s.members[name]);
  }

  /** A token is filed for an id that is not registered exactly when its node was removed while its
      registration was still being handled, and that handler has finished. */
  lemma OrphanTokens(c: Config, s: State, id: Id)
    requires Reachable(c, s)
    ensures id in s.tokens && id !in s.nodes <==> id in s.dropped && id !in s.handlers
  {
    ReachableInv(c, s);
  }

  /** At a coordinator with an admin token, the token issued with an id works exactly once it is filed,
      and then as long as the node is registered, or was removed too early for its token to go too. */
  lemma TokenWorksExactly(c: Config, s: State, id: Id)
    requires Reachable(c, s) && id in s.issued
    ensures Authorized(c, s, s.issued[id].token) <==>
              c.adminToken == NO_TOKEN || (id !in s.handlers && (id in s.nodes || id in s.dropped))
  {
    ReachableInv(c, s);
    OrphanTokens(c, s, id);
    var token := s.issued[id].token;
    if other :| other in s.tokens && s.tokens[other] == token {
      assert other == id;
    }
    if id in s.tokens {
      assert s.tokens[id] == token;
    }
  }

  /** Removing a node takes its token out of use, unless the token is not filed yet. */
  lemma RemovalRevokesFiledTokens(c: Config, s: State, id: Id)
    requires Reachable(c, s) && c.adminToken != NO_TOKEN && s.up && id in s.nodes
    ensures var t := Apply(c, s, Deregister(id));
            && id in t.issued && !Authorized(c, t, t.issued[id].token)
            && (id in t.dropped <==> id in s.handlers)
  {
    ReachableInv(c, s);
    ReachNext(c, s, Deregister(id));
    TokenWorksExactly(c, Apply(c, s, Deregister(id)), id);
  }

  ghost predicate LateToken(s: State, id: Id, token: Token) {
    id in s.dropped && id in s.tokens && s.tokens[id] == token
  }

  lemma LateTokenStep(c: Config, s: State, a: Action, id: Id, token: Token)
    requires IssuedInv(s) && StoredInv(s) && LateToken(s, id, token) && Enabled(c, s, a) && !a.CrashDown?
    ensures LateToken(Apply(c, s, a), id, token)
  {
    match a
    case Deregister(_) =>
    case SendHeartbeat(_, _, _) =>
    case StoreToken(_) =>
    case _ =>
  }

  /** A token that was filed too late works until the coordinator goes down. */
  lemma {:induction false} LateTokenStays(c: Config, s: State, actions: seq<Action>, id: Id, token: Token)
    requires Inv(c, s) && LateToken(s, id, token) && Exec(c, s, actions).Some? && CrashDown !in actions
    ensures LateToken(Exec(c, s, actions).value, id, token)
    ensures token != NO_TOKEN ==> Authorized(c, Exec(c, s, actions).value, token)
  {
    if actions != [] {
      var init, a := actions[..|actions| - 1], actions[|actions| - 1];
      assert a in actions && forall x | x in init :: x in actions;
      LateTokenStays(c, s, init, id, token);
      RunKeepsInv(c, s, init);
      LateTokenStep(c, Exec(c, s, init).value, a, id, token);
    }
  }

  /** The late case does occur: a node removed between the two halves of its registration. Its token
      works although the node is gone, in every run from there that does not crash. */
  lemma RemovedNodeCanKeepItsToken(profile: Profile, later: seq<Action>) returns (c: Config, s: State)
    requires CrashDown !in later
    ensures Reachable(c, s) && c.adminToken != NO_TOKEN && 7 !in s.nodes && s.tokens == map[7 := 9]
            && Authorized(c, s, 9)
    ensures Exec(c, s, later).Some? ==> Authorized(c, Exec(c, s, later).value, 9)
  {
    c := Config(1, 30, 20);
    s := Fresh(c, profile);
    s := Asked(c, s, "n", 7, 9);
    s := RemovedEarly(c, s, 7, 9);
    assert 7 in s.tokens && s.tokens[7] == 9;
    if Exec(c, s, later).Some? {
      ReachableInv(c, s);
      LateTokenStays(c, s, later, 7, 9);
    }
  }

  /** A node is removed before its token is filed. */
  lemma RemovedEarly(c: Config, s: State, id: Id, token: Token) returns (t: State)
    requires Reachable(c, s) && s.up && id in s.nodes && s.handlers == map[id := token] && s.tokens == map[]
    ensures Reachable(c, t) && id !in t.nodes && t.tokens == map[id := token] && t.handlers == map[] && id in t.dropped
    ensures t.issued == s.issued
  {
    ReachNext(c, s, Deregister(id));
    t := Apply(c, s, Deregister(id));
    ReachNext(c, t, StoreToken(id));
    t := Apply(c, t, StoreToken(id));
  }

  /** One heartbeat, and the state it leads to. */
  lemma Beat(c: Config, s: State, m: string, arrives: bool) returns (t: State)
    requires Reachable(c, s) && m in s.members && s.members[m].phase.Beating? && s.members[m].id.Some?
    ensures Enabled(c, s, SendHeartbeat(m, arrives, arrives))
    ensures Reachable(c, t) && t == Apply(c, s, SendHeartbeat(m, arrives, arrives))
  {
    ReachNext(c, s, SendHeartbeat(m, arrives, arrives));
    t := Apply(c, s, SendHeartbeat(m, arrives, arrives));
  }

  /** The admin-token case does occur: after five lost heartbeats and a failed attempt to register
      again, a heartbeat gets through. The node is online, so messages are routed to it, and it
      refuses every one of them. */
  lemma OnlineNodeCanRefuseMessages(profile: Profile) returns (c: Config, s: State)
    ensures Reachable(c, s) && "n" in s.members && s.members["n"].id == Some(7) && s.members["n"].phase.Beating?
    ensures 7 in s.nodes && s.nodes[7].status == Online
    ensures !NodeTakesForwarded(s, s.members["n"])
  {
    c := Config(1, 30, 20);
    s := JoinOne(c, profile);
    for k := 0 to 5
      invariant Reachable(c, s) && s.up && s.members.Keys == {"n"}
      invariant s.nodes.Keys == {7} && s.tokens == map[7 := 9]
      invariant s.members["n"].id == Some(7) && s.members["n"].admin == 1 && s.members["n"].loop.failures == k
      invariant s.members["n"].phase == if k < 5 then Beating else MustRegister
    {
      s := Beat(c, s, "n", false);
    }
    s := AttemptFails(c, s, "n");
    s := Beat(c, s, "n", true);
  }

  /** An attempt to register whose request or reply is lost. */
  lemma AttemptFails(c: Config, s: State, m: string) returns (t: State)
    requires Reachable(c, s) && m in s.members && s.members[m].phase.MustRegister? && s.members[m].id.Some?
    ensures Reachable(c, t) && t.up == s.up && t.nodes == s.nodes && t.tokens == s.tokens
            && t.members.Keys == s.members.Keys
    ensures t.members[m].id == s.members[m].id && t.members[m].phase.Beating?
    ensures t.members[m].token == t.members[m].admin == s.members[m].admin
  {
    ReachNext(c, s, StartRegister(m));
    t := Apply(c, s, StartRegister(m));
    ReachNext(c, t, RegisterFail(m));
    t := Apply(c, t, RegisterFail(m));
  }

  /** A mesh of one agent, registered under id 7 with token 9. */
  lemma JoinOne(c: Config, profile: Profile) returns (s: State)
    requires c.adminToken == 1
    ensures Reachable(c, s) && s.up && s.members.Keys == {"n"} && s.nodes.Keys == {7} && s.tokens == map[7 := 9]
    ensures s.members["n"] == Member(profile, [], [], Some(7), 9, 1, LOOP_START, Beating)
  {
    s := Fresh(c, profile);
    s := Asked(c, s, "n", 7, 9);
    s := Joined(c, s, "n", 7, 9);
  }

  /** One agent that has not registered yet. */
  lemma Fresh(c: Config, profile: Profile) returns (s: State)
    requires c.adminToken == 1
    ensures Reachable(c, s) && s.up
            && s.members == map["n" := Member(profile, [], [], None, 1, 1, LOOP_START, MustRegister)]
    ensures s.nodes == map[] && s.tokens == map[] && s.handlers == map[] && s.issued == map[]
  {
    s := State(0, true, 0, map[], map[], map[],
               map["n" := Member(profile, [], [], None, 1, 1, LOOP_START, MustRegister)], map[], {}, map[], {});
    assert Init(s) && Exec(c, s, []) == Some(s);
  }

  lemma Asked(c: Config, s: State, m: string, id: Id, token: Token) returns (t: State)
    requires Reachable(c, s) && s.up && m in s.members && s.members[m].phase == MustRegister
    requires s.nodes == map[] && s.tokens == map[] && s.handlers == map[] && s.issued == map[]
    requires Authorized(c, s, s.members[m].admin) && FreshToken(c, s, token)
    ensures Reachable(c, t) && t.up && t.members.Keys == s.members.Keys
    ensures t.members[m] == s.members[m].(token := s.members[m].admin, phase := Asking(Some(id)))
    ensures t.nodes.Keys == {id} && t.tokens == map[] && t.handlers == map[id := token]
            && t.issued == map[id := Issue(m, token)]
  {
    ReachNext(c, s, StartRegister(m));
    t := Apply(c, s, StartRegister(m));
    ReachNext(c, t, HandleRegister(m, id, token, s.now));
    t := Apply(c, t, HandleRegister(m, id, token, s.now));
  }

  lemma Joined(c: Config, s: State, m: string, id: Id, token: Token) returns (t: State)
    requires Reachable(c, s) && s.up && m in s.members && s.members[m].phase == Asking(Some(id))
    requires s.handlers == map[id := token] && s.tokens == map[] && s.issued == map[id := Issue(m, token)]
    ensures Reachable(c, t) && t.up && t.members.Keys == s.members.Keys && t.nodes == s.nodes
            && t.tokens == map[id := token]
    ensures t.members[m] == s.members[m].(id := Some(id), token := token, loop := LOOP_START, phase := Beating)
  {
    ReachNext(c, s, StoreToken(id));
    t := Apply(c, s, StoreToken(id));
    ReachNext(c, t, RegisterReply(m));
    t := Apply(c, t, RegisterReply(m));
  }
}
