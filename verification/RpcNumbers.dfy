/** Request numbers of the gateway client. The program increments its counter and then reads it, outside
    any lock; here these are the three steps they are. `RpcModel` takes a number in one step, which is
    what the three steps amount to as long as no two of them overlap. */
module RpcNumbers {
  import opened MeshTypes

  /** A call on its way to a number: it has loaded the counter, or stored it plus one, or read its number. */
  datatype Pc = Ready | Loaded(v: nat) | Stored | Took(n: nat)

  /** `overlapped` says that some call started its increment while another was on its way. */
  datatype State = State(seqNo: nat, calls: seq<Pc>, overlapped: bool)

  const INIT := State(0, [], false)

  datatype Action = Arrive | Load(k: nat) | Store(k: nat) | Use(k: nat)

  predicate OnTheWay(pc: Pc) {
    pc.Loaded? || pc.Stored?
  }

  predicate SomeoneOnTheWay(calls: seq<Pc>) {
    exists j :: 0 <= j < |calls| && OnTheWay(calls[j])
  }

  predicate Enabled(s: State, a: Action) {
    match a
    case Arrive => true
    case Load(k) => k < |s.calls| && s.calls[k].Ready?
    case Store(k) => k < |s.calls| && s.calls[k].Loaded?
    case Use(k) => k < |s.calls| && s.calls[k].Stored?
  }

  function Apply(s: State, a: Action): State
    requires Enabled(s, a)
  {
    match a
    case Arrive => s.(calls := s.calls + [Ready])
    case Load(k) =>
      s.(calls := s.calls[k := Loaded(s.seqNo)], overlapped := s.overlapped || SomeoneOnTheWay(s.calls))
    case Store(k) => s.(seqNo := s.calls[k].v + 1, calls := s.calls[k := Stored])
    case Use(k) => s.(calls := s.calls[k := Took(s.seqNo)])
  }

  function ExecFrom(start: State, actions: seq<Action>): Option<State> {
    if actions == [] then Some(start)
    else
      match ExecFrom(start, actions[..|actions| - 1])
      case None => None
      case Some(s) =>
        var a := actions[|actions| - 1];
        if Enabled(s, a) then Some(Apply(s, a)) else None
  }

  ghost predicate Distinct(s: State) {
    forall j, k :: 0 <= j < k < |s.calls| && s.calls[j].Took? ==> s.calls[k] != s.calls[j]
  }

  /** Without overlap at most one call is on its way, and what it is about to read is new. */
  ghost predicate Inv(s: State) {
    && (forall j, k :: 0 <= j < k < |s.calls| && OnTheWay(s.calls[j]) ==> !OnTheWay(s.calls[k]))
    && (forall k :: 0 <= k < |s.calls| && s.calls[k].Loaded? ==> s.calls[k].v == s.seqNo)
    && (forall j, k :: 0 <= j < |s.calls| && 0 <= k < |s.calls| && s.calls[j].Took? && s.calls[k].Stored? ==>
          s.calls[j].n < s.seqNo)
    && (forall k :: 0 <= k < |s.calls| && s.calls[k].Took? ==> s.calls[k].n <= s.seqNo)
    && Distinct(s)
  }

  lemma InvStep(s: State, a: Action)
    requires Inv(s) && Enabled(s, a) && !Apply(s, a).overlapped
    ensures Inv(Apply(s, a))
  {
    if a.Load? {
      assert forall j :: 0 <= j < |s.calls| ==> !OnTheWay(s.calls[j]);
    } else if a.Store? || a.Use? {
      assert OnTheWay(s.calls[a.k]);
      assert forall j :: 0 <= j < |s.calls| && j != a.k ==> !OnTheWay(s.calls[j]);
    }
  }

  lemma {:induction false} InvAlways(actions: seq<Action>)
    requires ExecFrom(INIT, actions).Some? && !ExecFrom(INIT, actions).value.overlapped
    ensures Inv(ExecFrom(INIT, actions).value)
  {
    if actions != [] {
      InvAlways(actions[..|actions| - 1]);
      InvStep(ExecFrom(INIT, actions[..|actions| - 1]).value, actions[|actions| - 1]);
    }
  }

  /** In every run in which no two increments overlap, all numbers differ. */
  lemma DistinctUnlessOverlapped(actions: seq<Action>)
    requires ExecFrom(INIT, actions).Some?
    ensures ExecFrom(INIT, actions).value.overlapped || Distinct(ExecFrom(INIT, actions).value)
  {
    if !ExecFrom(INIT, actions).value.overlapped {
      InvAlways(actions);
    }
  }

  /** That is tight: whenever one call is on its way and another starts, both may read the same number,
      from every state. The one that started first stores before the other does, and reads last. */
  lemma OverlapCanShareANumber(s: State, j: nat, k: nat) returns (actions: seq<Action>, t: State)
    requires j < |s.calls| && k < |s.calls| && j != k && OnTheWay(s.calls[j]) && s.calls[k].Ready?
    ensures ExecFrom(s, actions) == Some(t) && |t.calls| == |s.calls|
    ensures t.calls[j].Took? && t.calls[k] == t.calls[j]
  {
    actions, t := Step(s, [], s, Load(k));
    if s.calls[j].Loaded? {
      actions, t := Step(s, actions, t, Store(j));
    }
    actions, t := Step(s, actions, t, Store(k));
    actions, t := Step(s, actions, t, Use(k));
    actions, t := Step(s, actions, t, Use(j));
  }

  lemma Step(s: State, actions: seq<Action>, u: State, a: Action) returns (more: seq<Action>, t: State)
    requires ExecFrom(s, actions) == Some(u) && Enabled(u, a)
    ensures t == Apply(u, a) && ExecFrom(s, more) == Some(t)
    ensures forall x | x in more :: x in actions || x == a
  {
    more, t := actions + [a], Apply(u, a);
    assert more[..|actions|] == actions;
  }

  /** A call that is not disturbed gets the next number, in the one step that `RpcModel` has for it. */
  lemma UndisturbedTakesNext(s: State, k: nat) returns (actions: seq<Action>, t: State)
    requires k < |s.calls| && s.calls[k].Ready?
    ensures ExecFrom(s, actions) == Some(t) && forall a | a in actions :: a in {Load(k), Store(k), Use(k)}
    ensures t.seqNo == s.seqNo + 1 && t.calls == s.calls[k := Took(s.seqNo + 1)]
  {
    actions, t := Step(s, [], s, Load(k));
    actions, t := Step(s, actions, t, Store(k));
    actions, t := Step(s, actions, t, Use(k));
  }

  /** So two calls can send requests with the same id. */
  lemma TwoCallsOneNumber() returns (actions: seq<Action>, s: State)
    ensures ExecFrom(INIT, actions) == Some(s) && s.calls == [Took(1), Took(1)]
  {
    actions, s := Step(INIT, [], INIT, Arrive);
    actions, s := Step(INIT, actions, s, Arrive);
    actions, s := Step(INIT, actions, s, Load(0));
    actions, s := Step(INIT, actions, s, Load(1));
    actions, s := Step(INIT, actions, s, Store(0));
    actions, s := Step(INIT, actions, s, Store(1));
    actions, s := Step(INIT, actions, s, Use(0));
    actions, s := Step(INIT, actions, s, Use(1));
  }
}
