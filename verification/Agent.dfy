/** The node agent: registration, and the heartbeat loop that re-registers after repeated failures. */
module Agent {
  import opened MeshTypes

  const MAX_FAILURES_BEFORE_RECONNECT := 5
  const FIRST_BACKOFF := 5
  const MAX_RECONNECT_BACKOFF := 120

  /** The loop's own variables; the backoff is in seconds. */
  datatype Loop = Loop(failures: nat, backoff: nat)

  const LOOP_START := Loop(0, FIRST_BACKOFF)

  /** How an attempt to register ends. `Stopped` means that the agent was stopped while waiting for
      the backoff to pass. */
  datatype Attempt = Accepted(id: string, token: string) | Refused | Stopped

  /** What one heartbeat tick meets; `attempt` only matters on a tick that tries to register again. */
  datatype Tick = Tick(heartbeatOk: bool, attempt: Attempt)

  function Doubled(backoff: nat): nat {
    if 2 * backoff > MAX_RECONNECT_BACKOFF then MAX_RECONNECT_BACKOFF else 2 * backoff
  }

  predicate TriesToRegister(l: Loop, t: Tick) {
    !t.heartbeatOk && l.failures + 1 >= MAX_FAILURES_BEFORE_RECONNECT
  }

  /** Stopped while waiting to register: the iteration is not completed. */
  predicate Interrupted(l: Loop, t: Tick) {
    TriesToRegister(l, t) && t.attempt.Stopped?
  }

  /** The loop variables after a completed iteration. */
  function AfterTick(l: Loop, t: Tick): Loop {
    if t.heartbeatOk then LOOP_START
    else if !TriesToRegister(l, t) then Loop(l.failures + 1, l.backoff)
    else
      match t.attempt
      case Accepted(_, _) => LOOP_START
      case Refused => Loop(l.failures + 1, Doubled(l.backoff))
      case Stopped => l
  }

  function AfterTicks(l: Loop, ticks: seq<Tick>): Loop {
    if ticks == [] then l else AfterTick(AfterTicks(l, ticks[..|ticks| - 1]), ticks[|ticks| - 1])
  }

  // ---------- the backoff in closed form ----------

  function PowerOfTwo(n: nat): nat {
    if n == 0 then 1 else 2 * PowerOfTwo(n - 1)
  }

  /** min(5 * 2^max(0, f - 4), 120) */
  function ClosedFormBackoff(failures: nat): nat {
    var b := FIRST_BACKOFF * PowerOfTwo(if failures < 4 then 0 else failures - 4);
    if b > MAX_RECONNECT_BACKOFF then MAX_RECONNECT_BACKOFF else b
  }

  lemma {:induction false} PowerGrows(n: nat)
    ensures PowerOfTwo(n) >= 1 && (n >= 5 ==> PowerOfTwo(n) >= 32)
  {
    if n == 5 {
      assert PowerOfTwo(5) == 2 * PowerOfTwo(4) == 4 * PowerOfTwo(3) == 8 * PowerOfTwo(2);
    } else if n > 0 {
      PowerGrows(n - 1);
    }
  }

  /** One refused attempt on top of f failures moves the closed form from f to f + 1. */
  lemma DoubledClosedForm(failures: nat)
    requires failures + 1 >= MAX_FAILURES_BEFORE_RECONNECT
    ensures ClosedFormBackoff(failures + 1) == Doubled(ClosedFormBackoff(failures))
  {
    PowerGrows(failures - 4);
    assert PowerOfTwo(failures + 1 - 4) == 2 * PowerOfTwo(failures - 4);
  }

  /** After every completed iteration with f consecutive failures the backoff is the closed form. */
  lemma {:induction false} BackoffIsClosedForm(ticks: seq<Tick>)
    ensures var l := AfterTicks(LOOP_START, ticks); l.backoff == ClosedFormBackoff(l.failures)
  {
    if ticks != [] {
      var init, t := ticks[..|ticks| - 1], ticks[|ticks| - 1];
      BackoffIsClosedForm(init);
      var l := AfterTicks(LOOP_START, init);
      if l.failures + 1 >= MAX_FAILURES_BEFORE_RECONNECT {
        DoubledClosedForm(l.failures);
      }
    }
  }

  /** The wait before an attempt is the backoff of the failures before it: five seconds the first
      time, and never more than two minutes. */
  lemma WaitsAreBounded(ticks: seq<Tick>, t: Tick)
    requires TriesToRegister(AfterTicks(LOOP_START, ticks), t)
    ensures var l := AfterTicks(LOOP_START, ticks);
            && l.backoff == ClosedFormBackoff(l.failures)
            && l.failures >= 4 && 5 <= l.backoff <= 120
            && (l.failures == 4 ==> l.backoff == 5) && (l.failures >= 9 ==> l.backoff == 120)
  {
    BackoffIsClosedForm(ticks);
    var l := AfterTicks(LOOP_START, ticks);
    PowerGrows(l.failures - 4);
  }

  /** The agent was in touch on the last tick: its heartbeat got through, or it registered again. */
  predicate InTouch(ticks: seq<Tick>) {
    && ticks != []
    && var t := ticks[|ticks| - 1];
       t.heartbeatOk || (t.attempt.Accepted? && AfterTicks(LOOP_START, ticks[..|ticks| - 1]).failures >= 4)
  }

  /** The loop counts the heartbeats that failed since the agent was last in touch, and tries to
      register on the fifth and every later one. */
  lemma {:induction false} FailuresSinceInTouch(ticks: seq<Tick>) returns (n: nat)
    requires Completes(ticks)
    ensures n <= |ticks| && AfterTicks(LOOP_START, ticks).failures == |ticks| - n
    ensures n == 0 || InTouch(ticks[..n])
    ensures forall i :: n < i <= |ticks| ==> !InTouch(ticks[..i]) && !ticks[i - 1].heartbeatOk
    ensures forall t :: TriesToRegister(AfterTicks(LOOP_START, ticks), t) <==> !t.heartbeatOk && |ticks| - n >= 4
  {
    if ticks == [] {
      return 0;
    }
    var init, t := ticks[..|ticks| - 1], ticks[|ticks| - 1];
    n := FailuresSinceInTouch(init);
    assert ticks[..|ticks|] == ticks;
    assert forall i :: 0 <= i <= |init| ==> ticks[..i] == init[..i];
    if InTouch(ticks) {
      n := |ticks|;
    }
  }

  /** No tick of the run stops the agent in a backoff. */
  predicate Completes(ticks: seq<Tick>) {
    if ticks == [] then true
    else
      var init := ticks[..|ticks| - 1];
      Completes(init) && !Interrupted(AfterTicks(LOOP_START, init), ticks[|ticks| - 1])
  }

  /** The waits of a run, by the closed form. */
  function WaitsIn(ticks: seq<Tick>): seq<nat> {
    if ticks == [] then []
    else
      var init := ticks[..|ticks| - 1];
      var l := AfterTicks(LOOP_START, init);
      WaitsIn(init) + if TriesToRegister(l, ticks[|ticks| - 1]) then [ClosedFormBackoff(l.failures)] else []
  }

  // ---------- identity ----------

  /** The node id and the token the agent sends. */
  datatype Identity = Identity(nodeId: string, token: string)

  /** An accepted registration replaces the id, and the token unless the reply has none. */
  function AfterRegister(who: Identity, a: Attempt): Identity {
    match a
    case Accepted(id, token) => Identity(id, if token != "" then token else who.token)
    case _ => who
  }

  function IdentityAfterTick(who: Identity, admin: string, l: Loop, t: Tick): Identity {
    if TriesToRegister(l, t) && !Interrupted(l, t) then AfterRegister(who.(token := admin), t.attempt) else who
  }

  function IdentityAfter(who: Identity, admin: string, l: Loop, ticks: seq<Tick>): Identity {
    if ticks == [] then who
    else
      var init := ticks[..|ticks| - 1];
      IdentityAfterTick(IdentityAfter(who, admin, l, init), admin, AfterTicks(l, init), ticks[|ticks| - 1])
  }

  /** Ticks at a reachable coordinator that does not know the node: heartbeats fail, an attempt to
      register is accepted. */
  predicate ServedButUnknown(ticks: seq<Tick>) {
    forall t | t in ticks :: !t.heartbeatOk && t.attempt.Accepted?
  }

  function TicksToRejoin(l: Loop): nat {
    if l.failures + 1 >= MAX_FAILURES_BEFORE_RECONNECT then 1 else MAX_FAILURES_BEFORE_RECONNECT - l.failures
  }

  /** From any loop state the agent keeps its id for exactly `TicksToRejoin - 1` such ticks and takes
      the new one on the next; that is at most five ticks. */
  lemma {:induction false} RejoinsOnTime(who: Identity, admin: string, l: Loop, ticks: seq<Tick>)
    requires ServedButUnknown(ticks) && |ticks| <= TicksToRejoin(l)
    ensures TicksToRejoin(l) <= 5
    ensures |ticks| < TicksToRejoin(l) ==>
              IdentityAfter(who, admin, l, ticks) == who
                && AfterTicks(l, ticks) == Loop(l.failures + |ticks|, l.backoff)
    ensures |ticks| == TicksToRejoin(l) ==>
              && IdentityAfter(who, admin, l, ticks) == AfterRegister(who.(token := admin), ticks[|ticks| - 1].attempt)
              && AfterTicks(l, ticks) == LOOP_START
  {
    if ticks != [] {
      var init, t := ticks[..|ticks| - 1], ticks[|ticks| - 1];
      assert t in ticks;
      assert forall x | x in init :: x in ticks;
      RejoinsOnTime(who, admin, l, init);
    }
  }

  // ---------- the program's form ----------

  class Agent {
    var nodeId: string
    var token: string
    const adminToken: string

    ghost function Who(): Identity
      reads this
    {
      Identity(nodeId, token)
    }

    constructor (token: string)
      ensures Who() == Identity("", token) && adminToken == token
    {
      nodeId, this.token, adminToken := "", token, token;
    }

    /** `reply` is what the coordinator's answer, or its absence, amounts to. */
    method Register(reply: Attempt) returns (ok: bool)
      modifies this
      ensures ok <==> reply.Accepted?
      ensures Who() == AfterRegister(old(Who()), reply)
      ensures nodeId == if ok then reply.id else old(nodeId)
      ensures token == if ok && reply.token != "" then reply.token else old(token)
    {
      if !reply.Accepted? {
        return false;
      }
      nodeId := reply.id;
      if reply.token != "" {
        token := reply.token;
      }
      return true;
    }

    /** Goes back to the admin token first, and keeps it when the attempt fails. */
    method Reconnect(reply: Attempt) returns (ok: bool)
      modifies this
      ensures ok <==> reply.Accepted?
      ensures Who() == AfterRegister(old(Who()).(token := adminToken), reply)
      ensures nodeId == if ok then reply.id else old(nodeId)
      ensures token == if ok && reply.token != "" then reply.token else adminToken
    {
      token := adminToken;
      ok := Register(reply);
    }

    /** One iteration; `waited` is the backoff it waited, if any. */
    method Iterate(l: Loop, t: Tick) returns (next: Loop, stopped: bool, ghost waited: Option<nat>)
      modifies this
      ensures next == AfterTick(l, t)
      ensures stopped <==> Interrupted(l, t)
      ensures Who() == IdentityAfterTick(old(Who()), adminToken, l, t)
      ensures waited == if TriesToRegister(l, t) then Some(l.backoff) else None
    {
      var consecutiveFailures: nat, reconnectBackoff: nat := l.failures, l.backoff;
      if t.heartbeatOk {
        return LOOP_START, false, None;
      }
      consecutiveFailures := consecutiveFailures + 1;
      if consecutiveFailures < MAX_FAILURES_BEFORE_RECONNECT {
        return Loop(consecutiveFailures, reconnectBackoff), false, None;
      }
      waited := Some(reconnectBackoff);
      if t.attempt.Stopped? {
        return l, true, waited;
      }
      var ok := Reconnect(t.attempt);
      if ok {
        return LOOP_START, false, waited;
      }
      reconnectBackoff := reconnectBackoff * 2;
      if reconnectBackoff > MAX_RECONNECT_BACKOFF {
        reconnectBackoff := MAX_RECONNECT_BACKOFF;
      }
      return Loop(consecutiveFailures, reconnectBackoff), false, waited;
    }

    /** The loop, over the ticks it meets. It completes `completed` iterations, and ends early exactly
        when it is stopped during a backoff; `l` is its variables after the last completed one. */
    method HeartbeatLoop(ticks: seq<Tick>) returns (completed: nat, l: Loop, ghost waits: seq<nat>)
      modifies this
      ensures completed <= |ticks|
      ensures l == AfterTicks(LOOP_START, ticks[..completed]) && l.backoff == ClosedFormBackoff(l.failures)
      ensures Completes(ticks[..completed]) && (completed < |ticks| ==> Interrupted(l, ticks[completed]))
      ensures Who() == IdentityAfter(old(Who()), adminToken, LOOP_START, ticks[..completed])
      ensures waits == WaitsIn(if completed < |ticks| then ticks[..completed + 1] else ticks)
    {
      l, waits := LOOP_START, [];
      for i := 0 to |ticks|
        invariant l == AfterTicks(LOOP_START, ticks[..i]) && Completes(ticks[..i])
        invariant Who() == IdentityAfter(old(Who()), adminToken, LOOP_START, ticks[..i])
        invariant waits == WaitsIn(ticks[..i])
      {
        assert ticks[..i + 1][..i] == ticks[..i];
        BackoffIsClosedForm(ticks[..i]);
        var stopped: bool;
        ghost var waited;
        l, stopped, waited := Iterate(l, ticks[i]);
        waits := waits + if waited.Some? then [waited.value] else [];
        if stopped {
          return i, l, waits;
        }
      }
      assert ticks[..|ticks|] == ticks;
      BackoffIsClosedForm(ticks);
      return |ticks|, l, waits;
    }
  }
}
