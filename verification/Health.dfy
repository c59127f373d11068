/** The coordinator's health checker: a staleness sweep and a consecutive-failure probe detector. */
module Health {
  import opened MeshTypes
  import opened Registry

  const FAIL_THRESHOLD := 3

  /** Node records and, for each node with failures to remember, how many. */
  datatype Watch = Watch(nodes: map<string, NodeInfo>, fails: map<string, nat>)

  function Count(fails: map<string, nat>, id: string): nat {
    if id in fails then fails[id] else 0
  }

  /** One probe outcome. The failure that reaches the threshold takes the node offline and resets
      its count. */
  function Probe(w: Watch, id: string, ok: bool): Watch {
    if ok then w.(fails := w.fails - {id})
    else if Count(w.fails, id) + 1 < FAIL_THRESHOLD then w.(fails := w.fails[id := Count(w.fails, id) + 1])
    else Watch(if id in w.nodes then w.nodes[id := WithStatus(w.nodes[id], Offline)] else w.nodes, w.fails - {id})
  }

  // ---------- every sequence of events ----------

  /** `Sweep` is the staleness sweep; a heartbeat for an unknown id changes nothing. */
  datatype Event =
    | Probed(id: string, ok: bool)
    | Heartbeat(id: string, status: NodeStatus, now: int)
    | Joined(node: NodeInfo)
    | Left(id: string)
    | Sweep(now: int, timeout: int)

  function Step(w: Watch, e: Event): Watch {
    match e
    case Probed(id, ok) => Probe(w, id, ok)
    case Heartbeat(id, status, now) =>
      if id in w.nodes then w.(nodes := w.nodes[id := WithHeartbeat(w.nodes[id], status, now)]) else w
    case Joined(n) => if n.profile.id in w.nodes then w else w.(nodes := w.nodes[n.profile.id := n])
    case Left(id) => w.(nodes := w.nodes - {id})
    case Sweep(now, timeout) => w.(nodes := MarkStale(w.nodes, now, timeout))
  }

  function Watched(w: Watch, events: seq<Event>): Watch {
    if events == [] then w else Step(Watched(w, events[..|events| - 1]), events[|events| - 1])
  }

  /** Failed probes of `id` since its last successful one. */
  function FailuresInARow(events: seq<Event>, id: string): nat {
    if events == [] then 0
    else
      var before := FailuresInARow(events[..|events| - 1], id);
      match events[|events| - 1]
      case Probed(x, ok) => if x != id then before else if ok then 0 else before + 1
      case _ => before
  }

  const START := Watch(map[], map[])

  /** For every sequence of probes, heartbeats, registrations, removals and sweeps: the remembered
      count is the number of failures since the last success or trip, and lies in 1..2 when present. */
  lemma {:induction false} CountIsFailuresSinceTrip(events: seq<Event>, id: string)
    ensures Count(Watched(START, events).fails, id) == FailuresInARow(events, id) % 3
    ensures id in Watched(START, events).fails ==> 1 <= Watched(START, events).fails[id] <= 2
  {
    if events != [] {
      CountIsFailuresSinceTrip(events[..|events| - 1], id);
    }
  }

  lemma ThirdFailure(n: nat)
    ensures (n + 1) % 3 == 0 <==> n % 3 + 1 >= 3
  {
  }

  lemma ProbeTrips(w: Watch, id: string, ok: bool)
    ensures Probe(w, id, ok).nodes == if !ok && Count(w.fails, id) + 1 >= FAIL_THRESHOLD && id in w.nodes
                                      then w.nodes[id := WithStatus(w.nodes[id], Offline)] else w.nodes
  {
  }

  /** A probe takes a node offline exactly on every third failure in a row, and changes no other
      record. */
  lemma TripsOnEveryThirdFailure(events: seq<Event>, id: string, ok: bool)
    ensures var w := Watched(START, events);
            var next := Watched(START, events + [Probed(id, ok)]);
            var trips := !ok && (FailuresInARow(events, id) + 1) % 3 == 0;
            next.nodes == if trips && id in w.nodes then w.nodes[id := WithStatus(w.nodes[id], Offline)] else w.nodes
  {
    var more := events + [Probed(id, ok)];
    assert more[..|events|] == events;
    CountIsFailuresSinceTrip(events, id);
    ThirdFailure(FailuresInARow(events, id));
    ProbeTrips(Watched(START, events), id, ok);
  }

  // ---------- one round, in any completion order ----------

  /** The nodes a round probes. */
  predicate IsProbed(w: Watch, id: string) {
    id in w.nodes && w.nodes[id].status != Offline
  }

  function ProbedIds(w: Watch): set<string> {
    set id | id in w.nodes && IsProbed(w, id)
  }

  function ProbeInOrder(w: Watch, order: seq<string>, answers: map<string, bool>): Watch
    requires forall id | id in order :: id in answers
  {
    if order == [] then w
    else
      var id := order[|order| - 1];
      Probe(ProbeInOrder(w, order[..|order| - 1], answers), id, answers[id])
  }

  /** What a round has done once the probes of `done` have answered. */
  function RoundSoFar(w: Watch, done: set<string>, answers: map<string, bool>): Watch
    requires done <= answers.Keys
  {
    Watch(
      map id | id in w.nodes ::
        if id in done && !answers[id] && Count(w.fails, id) + 1 >= FAIL_THRESHOLD then WithStatus(w.nodes[id], Offline)
        else w.nodes[id],
      map id | id in w.fails.Keys + done && (id in done ==> !answers[id] && Count(w.fails, id) + 1 < FAIL_THRESHOLD) ::
        if id in done then Count(w.fails, id) + 1 else w.fails[id])
  }

  lemma NothingDone(w: Watch, answers: map<string, bool>)
    ensures RoundSoFar(w, {}, answers) == w
  {
    assert RoundSoFar(w, {}, answers).nodes == w.nodes;
    assert RoundSoFar(w, {}, answers).fails == w.fails;
  }

  lemma OneMoreNodes(w: Watch, done: set<string>, id: string, answers: map<string, bool>)
    requires done <= answers.Keys && id in answers && id !in done
    ensures RoundSoFar(w, done + {id}, answers).nodes == Probe(RoundSoFar(w, done, answers), id, answers[id]).nodes
  {
    var so := RoundSoFar(w, done, answers);
    assert Count(so.fails, id) == Count(w.fails, id);
    ProbeTrips(so, id, answers[id]);
  }

  lemma OneMoreFails(w: Watch, done: set<string>, id: string, answers: map<string, bool>)
    requires done <= answers.Keys && id in answers && id !in done
    ensures RoundSoFar(w, done + {id}, answers).fails == Probe(RoundSoFar(w, done, answers), id, answers[id]).fails
  {
    var so := RoundSoFar(w, done, answers);
    assert Count(so.fails, id) == Count(w.fails, id);
  }

  lemma OneMoreAnswer(w: Watch, done: set<string>, id: string, answers: map<string, bool>)
    requires done <= answers.Keys && id in answers && id !in done
    ensures RoundSoFar(w, done + {id}, answers) == Probe(RoundSoFar(w, done, answers), id, answers[id])
  {
    OneMoreNodes(w, done, id, answers);
    OneMoreFails(w, done, id, answers);
  }

  lemma {:induction false} OrderGivesRound(w: Watch, order: seq<string>, answers: map<string, bool>)
    requires forall id | id in order :: id in answers
    requires forall i, j :: 0 <= i < j < |order| ==> order[i] != order[j]
    ensures ProbeInOrder(w, order, answers) == RoundSoFar(w, (set id | id in order), answers)
  {
    var ids := set id | id in order;
    if order == [] {
      NothingDone(w, answers);
      assert ids == {};
    } else {
      var init, last := order[..|order| - 1], order[|order| - 1];
      OrderGivesRound(w, init, answers);
      OneMoreAnswer(w, (set id | id in init), last, answers);
      assert order == init + [last];
      assert ids == (set id | id in init) + {last};
    }
  }

  /** The state after a round does not depend on the order in which its probes complete. */
  lemma CompletionOrderIsIrrelevant(w: Watch, a: seq<string>, b: seq<string>, answers: map<string, bool>)
    requires forall id | id in a :: id in answers
    requires forall i, j :: 0 <= i < j < |a| ==> a[i] != a[j]
    requires multiset(a) == multiset(b)
    ensures forall id | id in b :: id in answers
    ensures ProbeInOrder(w, a, answers) == ProbeInOrder(w, b, answers)
  {
    forall id
      ensures id in a <==> id in b
    {
      assert id in a <==> id in multiset(a);
      assert id in b <==> id in multiset(b);
    }
    forall i, j | 0 <= i < j < |b|
      ensures b[i] != b[j]
    {
      if b[i] == b[j] {
        TwoPlacesTwice(b, i, j);
        OnceWhenDistinct(a, b[i]);
      }
    }
    OrderGivesRound(w, a, answers);
    OrderGivesRound(w, b, answers);
    assert (set id | id in a) == (set id | id in b);
  }

  lemma TwoPlacesTwice(s: seq<string>, i: nat, j: nat)
    requires i < j < |s| && s[i] == s[j]
    ensures multiset(s)[s[i]] >= 2
  {
    assert s == s[..j] + [s[j]] + s[j + 1..];
    assert s[..j][i] in multiset(s[..j]);
  }

  lemma {:induction false} OnceWhenDistinct(s: seq<string>, x: string)
    requires forall i, j :: 0 <= i < j < |s| ==> s[i] != s[j]
    ensures multiset(s)[x] <= 1
  {
    if s != [] {
      var init, last := s[..|s| - 1], s[|s| - 1];
      OnceWhenDistinct(init, x);
      assert s == init + [last];
      assert last !in init;
      assert x !in init ==> x !in multiset(init);
    }
  }

  lemma OneFewer<T>(all: set<T>, waiting: set<T>, x: T)
    requires x in waiting && waiting <= all
    ensures all - (waiting - {x}) == all - waiting + {x}
  {
  }

  // ---------- a silent node ----------

  /** Failed probes a node is away from being offline. */
  function Distance(w: Watch, id: string): nat {
    if !IsProbed(w, id) then 0
    else if Count(w.fails, id) >= FAIL_THRESHOLD then 1
    else FAIL_THRESHOLD - Count(w.fails, id)
  }

  /** Nothing in the events speaks for the node: no heartbeat, no registration, no answered probe. */
  predicate Silent(events: seq<Event>, id: string) {
    forall e | e in events ::
      match e
      case Probed(x, ok) => x == id ==> !ok
      case Heartbeat(x, _, _) => x != id
      case Joined(n) => n.profile.id != id
      case _ => true
  }

  lemma SilenceNeverHelps(w: Watch, e: Event, id: string)
    requires Silent([e], id)
    ensures Distance(Step(w, e), id) <= Distance(w, id)
    ensures e == Probed(id, false) ==>
              Distance(Step(w, e), id) <= if Distance(w, id) == 0 then 0 else Distance(w, id) - 1
  {
    assert e in [e];
  }

  /** A round that probes a silent node, among any other events, brings it one failure closer. */
  lemma {:induction false} SilentRound(w: Watch, events: seq<Event>, id: string)
    requires Silent(events, id)
    ensures Distance(Watched(w, events), id) <= Distance(w, id)
    ensures Probed(id, false) in events ==>
              Distance(Watched(w, events), id) <= if Distance(w, id) == 0 then 0 else Distance(w, id) - 1
  {
    if events != [] {
      var init, e := events[..|events| - 1], events[|events| - 1];
      assert events == init + [e];
      assert forall x | x in init :: x in events;
      assert e in events;
      SilentRound(w, init, id);
      SilenceNeverHelps(Watched(w, init), e, id);
    }
  }

  /** The events of a round include a failed probe of the node if the node was online at its start. */
  predicate RoundFor(w: Watch, events: seq<Event>, id: string) {
    Silent(events, id) && (IsProbed(w, id) ==> Probed(id, false) in events)
  }

  /** A silent node is offline (or gone) after at most three rounds, whatever else happens. */
  lemma SilentNodeIsOfflineAfterThreeRounds(w: Watch, r1: seq<Event>, r2: seq<Event>, r3: seq<Event>, id: string)
    requires RoundFor(w, r1, id)
    requires RoundFor(Watched(w, r1), r2, id)
    requires RoundFor(Watched(Watched(w, r1), r2), r3, id)
    ensures !IsProbed(Watched(Watched(Watched(w, r1), r2), r3), id)
  {
    SilentRound(w, r1, id);
    SilentRound(Watched(w, r1), r2, id);
    SilentRound(Watched(Watched(w, r1), r2), r3, id);
  }

  // ---------- the program's form ----------

  lemma DropRaised(fails: map<string, nat>, id: string, n: nat)
    ensures fails[id := n] - {id} == fails - {id}
  {
  }

  class HealthChecker {
    const registry: Registry
    const timeout: int
    const activeProbe: bool
    var probeFailures: map<string, nat>

    ghost function View(): Watch
      reads this, registry
    {
      Watch(registry.contents, probeFailures)
    }

    constructor (registry: Registry, timeout: int)
      ensures this.registry == registry && this.timeout == timeout && activeProbe && probeFailures == map[]
    {
      this.registry, this.timeout, activeProbe := registry, timeout, true;
      probeFailures := map[];
    }

    method RecordProbeFailure(id: string)
      requires registry.Valid()
      modifies this, registry`contents, registry.nodes.Values
      ensures registry.Valid() && registry.Isolated() && unchanged(registry`nodes)
      ensures View() == Probe(old(View()), id, false)
    {
      probeFailures := probeFailures[id := Count(probeFailures, id) + 1];
      var count := probeFailures[id];
      if count >= FAIL_THRESHOLD {
        DropRaised(old(probeFailures), id, count);
        Trip(id);
      }
    }

    method Trip(id: string)
      requires registry.Valid()
      modifies this, registry`contents, registry.nodes.Values
      ensures registry.Valid() && registry.Isolated() && unchanged(registry`nodes)
      ensures probeFailures == old(probeFailures) - {id}
      ensures registry.contents ==
                if id in old(registry.contents)
                  then old(registry.contents)[id := WithStatus(old(registry.contents)[id], Offline)]
                else old(registry.contents)
    {
      var found := registry.UpdateStatus(id, Offline);
      probeFailures := probeFailures - {id};
    }

    method ClearProbeFailure(id: string)
      modifies this
      ensures View() == Probe(old(View()), id, true)
    {
      probeFailures := probeFailures - {id};
    }

    method Answer(id: string, ok: bool)
      requires registry.Valid()
      modifies this, registry`contents, registry.nodes.Values
      ensures registry.Valid() && unchanged(registry`nodes)
      ensures View() == Probe(old(View()), id, ok)
    {
      if ok {
        ClearProbeFailure(id);
      } else {
        RecordProbeFailure(id);
      }
    }

    /** One more probe of a round answers. */
    method OneAnswer(ghost w: Watch, ghost done: set<string>, id: string, answers: map<string, bool>)
      requires registry.Valid() && done <= answers.Keys && id in answers && id !in done
      requires View() == RoundSoFar(w, done, answers)
      modifies this, registry`contents, registry.nodes.Values
      ensures registry.Valid() && unchanged(registry`nodes)
      ensures View() == RoundSoFar(w, done + {id}, answers)
    {
      OneMoreAnswer(w, done, id, answers);
      Answer(id, answers[id]);
    }

    /** One round. The probes answer in an arbitrary order; `answers` says what each answers. The
        outcome is the same for every order. */
    method ProbeNodes(answers: map<string, bool>)
      requires registry.Valid() && registry.contents.Keys <= answers.Keys
      modifies this, registry`contents, registry`issued, registry`issuedLists, registry.nodes.Values
      ensures registry.Valid()
      ensures View() == RoundSoFar(old(View()), ProbedIds(old(View())), answers)
    {
      ghost var w := View();
      var nodes := registry.List();
      var waiting := set n | n in nodes && n.status != Offline :: n.profile.id;
      assert waiting == ProbedIds(w) by {
        ListedIsRegistered(nodes, w);
      }
      AwaitAll(waiting, answers);
    }

    /** Waits for the probes of a set of nodes, in any order. */
    method AwaitAll(ids: set<string>, answers: map<string, bool>)
      requires registry.Valid() && ids <= answers.Keys
      modifies this, registry`contents, registry.nodes.Values
      ensures registry.Valid()
      ensures View() == RoundSoFar(old(View()), ids, answers)
    {
      ghost var w := View();
      var waiting := ids;
      assert ids - waiting == {};
      NothingDone(w, answers);
      while waiting != {}
        invariant registry.Valid() && unchanged(registry`nodes)
        invariant waiting <= ids
        invariant View() == RoundSoFar(w, ids - waiting, answers)
        decreases waiting
      {
        var id :| id in waiting;
        OneAnswer(w, ids - waiting, id, answers);
        OneFewer(ids, waiting, id);
        waiting := waiting - {id};
      }
      assert ids - waiting == ids;
    }

    lemma ListedIsRegistered(nodes: seq<Node>, w: Watch)
      requires IsListing(Infos(nodes), w.nodes)
      ensures (set n | n in nodes && n.status != Offline :: n.profile.id) == ProbedIds(w)
    {
      var ids := set n | n in nodes && n.status != Offline :: n.profile.id;
      var infos := Infos(nodes);
      forall id
        ensures id in ids <==> id in w.nodes && IsProbed(w, id)
      {
        if id in ids {
          var i :| 0 <= i < |nodes| && nodes[i].profile.id == id && nodes[i].status != Offline;
          assert infos[i] == nodes[i].Info();
        }
        if id in w.nodes && IsProbed(w, id) {
          var i :| 0 <= i < |infos| && infos[i].profile.id == id;
          assert nodes[i] in nodes;
        }
      }
    }

    /** One tick of the loop: the staleness sweep, then a round of probes. */
    method Tick(now: int, answers: map<string, bool>)
      requires registry.Valid() && registry.contents.Keys <= answers.Keys
      modifies this, registry`contents, registry`issued, registry`issuedLists, registry.nodes.Values
      ensures registry.Valid()
      ensures var swept := Step(old(View()), Sweep(now, timeout));
              View() == if activeProbe then RoundSoFar(swept, ProbedIds(swept), answers) else swept
    {
      registry.MarkOfflineIfStale(timeout, now);
      if activeProbe {
        ProbeNodes(answers);
      }
    }
  }
}
