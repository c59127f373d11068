/** The router: an in-place rule list and the routing decision. */
module Router {
  import opened MeshTypes
  import opened Routing
  import opened RuleList
  import opened RuleStore
  import opened Registry

  // ---------- the loops of a routing decision ----------

  lemma InfosOfPrefix(ns: seq<Node>, i: nat)
    requires i < |ns|
    ensures Infos(ns[..i + 1]) == Infos(ns[..i]) + [ns[i].Info()]
    ensures Infos(ns)[..i] == Infos(ns[..i])
  {
  }

  method FilterOnline(nodes: seq<Node>) returns (out: seq<Node>)
    ensures Infos(out) == EligibleNodes(None, Infos(nodes))
    ensures forall n | n in out :: n in nodes
  {
    out := [];
    for i := 0 to |nodes|
      invariant Infos(out) == EligibleNodes(None, Infos(nodes[..i]))
      invariant forall n | n in out :: n in nodes
    {
      InfosOfPrefix(nodes, i);
      if nodes[i].status != Offline {
        out := out + [nodes[i]];
      }
    }
    assert nodes[..|nodes|] == nodes;
  }

  /** For a rule that is no wildcard, on online nodes, these are the rule's eligible nodes. */
  method MatchNodes(rule: RoutingRule, nodes: seq<Node>) returns (out: seq<Node>)
    ensures !IsWildcard(rule.criteria) && (forall n | n in nodes :: n.status != Offline) ==>
              Infos(out) == EligibleNodes(Some(rule), Infos(nodes))
    ensures forall n | n in nodes :: n in out <==> MatchesCriteria(rule.criteria, n.Info())
    ensures forall n | n in out :: n in nodes
  {
    out := [];
    for i := 0 to |nodes|
      invariant !IsWildcard(rule.criteria) && (forall n | n in nodes :: n.status != Offline) ==>
                  Infos(out) == EligibleNodes(Some(rule), Infos(nodes[..i]))
      invariant forall n | n in nodes[..i] :: n in out <==> MatchesCriteria(rule.criteria, n.Info())
      invariant forall n | n in out :: n in nodes[..i]
    {
      InfosOfPrefix(nodes, i);
      assert nodes[..i + 1] == nodes[..i] + [nodes[i]];
      if MatchesCriteria(rule.criteria, nodes[i].Info()) {
        out := out + [nodes[i]];
      }
    }
    assert nodes[..|nodes|] == nodes;
  }

  method LeastBusy(nodes: seq<Node>) returns (best: Node?)
    ensures best == null <==> nodes == []
    ensures best != null ==> best in nodes && best.Info() == LeastBusyOf(Infos(nodes))
  {
    best := null;
    for i := 0 to |nodes|
      invariant best == null <==> i == 0
      invariant best != null ==> best in nodes && best.Info() == LeastBusyOf(Infos(nodes[..i]))
    {
      InfosOfPrefix(nodes, i);
      assert Infos(nodes[..i + 1])[..i] == Infos(nodes[..i]);
      if best == null {
        best := nodes[i];
      } else if StatusPriority(nodes[i].status) < StatusPriority(best.status) {
        best := nodes[i];
      }
    }
    assert nodes[..|nodes|] == nodes;
  }

  /** Every strategy the API accepts is least-busy; null stands for the error on no nodes. */
  method ApplyStrategy(strategy: string, nodes: seq<Node>) returns (best: Node?)
    ensures best == null <==> nodes == []
    ensures best != null ==> best in nodes && best.Info() == LeastBusyOf(Infos(nodes))
  {
    if |nodes| == 0 {
      return null;
    }
    best := LeastBusy(nodes);
  }

  /** The first candidate of the target's name or id. */
  method FindNamed(nodes: seq<Node>, target: string) returns (k: Option<nat>)
    ensures k.None? ==> forall n | n in Infos(nodes) :: !Named(n, target)
    ensures k.Some? ==> k.value < |nodes| && Named(Infos(nodes)[k.value], target)
                        && forall j :: 0 <= j < k.value ==> !Named(Infos(nodes)[j], target)
  {
    for i := 0 to |nodes|
      invariant forall j :: 0 <= j < i ==> !Named(Infos(nodes)[j], target)
    {
      if nodes[i].profile.name == target || nodes[i].profile.id == target {
        return Some(i);
      }
    }
    return None;
  }

  /** One round of the rule loop: the node rule `k` picks, or null to go on with the next rule. */
  method EvaluateRule(rules: seq<RoutingRule>, k: nat, online: seq<Node>, ghost infos: seq<NodeInfo>)
    returns (node: Node?)
    requires k < |rules| && online != [] && Infos(online) == EligibleNodes(None, infos)
    requires forall j :: 0 <= j < k ==> !Decides(rules[j], infos)
    ensures node == null ==> !Decides(rules[k], infos)
    ensures node != null ==> node in online && Decision(rules, infos, Some(k), Chosen(node.Info()))
  {
    var rule := rules[k];
    if IsWildcard(rule.criteria) {
      WildcardIsEveryone(rule, infos);
      node := ApplyStrategy(rule.strategy, online);
      LeastBusyDecides(rules, infos, Some(k), node.Info());
      return;
    }
    OnlineIsOnline(online, infos);
    var candidates := MatchNodes(rule, online);
    FilterTwice(rule, infos);
    if |candidates| == 0 {
      IdleRule(rule, infos);
      return null;
    }
    node := PickCandidate(rules, k, candidates, infos);
  }

  /** The choice among the candidates of a rule that is no wildcard. */
  method PickCandidate(rules: seq<RoutingRule>, k: nat, candidates: seq<Node>, ghost infos: seq<NodeInfo>)
    returns (node: Node?)
    requires k < |rules| && !IsWildcard(rules[k].criteria)
    requires candidates != [] && Infos(candidates) == EligibleNodes(Some(rules[k]), infos)
    requires forall j :: 0 <= j < k ==> !Decides(rules[j], infos)
    ensures node == null ==> !Decides(rules[k], infos)
    ensures node != null ==> node in candidates && Decision(rules, infos, Some(k), Chosen(node.Info()))
  {
    var rule := rules[k];
    if rule.target != "" {
      var c := FindNamed(candidates, rule.target);
      if c.Some? {
        NamedCandidateDecides(rules, infos, k, c.value, candidates[c.value].Info());
        return candidates[c.value];
      }
      // an explicit target without a candidate skips the rule
      IdleRule(rule, infos);
      return null;
    }
    node := LeastBusy(candidates);
    CandidateDecides(rule, infos);
    LeastBusyDecides(rules, infos, Some(k), node.Info());
  }

  lemma OnlineIsOnline(online: seq<Node>, infos: seq<NodeInfo>)
    requires Infos(online) == EligibleNodes(None, infos)
    ensures forall n | n in online :: n.status != Offline
  {
    EligibleNodesMembers(None, infos);
    forall i | 0 <= i < |online|
      ensures online[i].status != Offline
    {
      assert Infos(online)[i] in Infos(online);
    }
  }

  /** The untargeted decision, on the copies the router took. */
  method Decide(rules: seq<RoutingRule>, nodes: seq<Node>, ghost infos: seq<NodeInfo>)
    returns (node: Node?, ghost d: Option<nat>)
    requires infos == Infos(nodes)
    ensures node == null ==> Decision(rules, infos, d, NoOnlineNodes)
    ensures node != null ==> node in nodes && Decision(rules, infos, d, Chosen(node.Info()))
  {
    var online := FilterOnline(nodes);
    OfflineWhenEmpty(infos);
    if |online| == 0 {
      d := FindDecider(rules, infos);
      return null, d;
    }
    for k := 0 to |rules|
      invariant forall j :: 0 <= j < k ==> !Decides(rules[j], infos)
      invariant Infos(online) == EligibleNodes(None, infos)
    {
      node := EvaluateRule(rules, k, online, infos);
      if node != null {
        return node, Some(k);
      }
    }
    node := LeastBusy(online);
    LeastBusyDecides(rules, infos, None, node.Info());
    return node, None;
  }

  lemma CandidateDecides(rule: RoutingRule, nodes: seq<NodeInfo>)
    requires !HasTarget(rule) && EligibleNodes(Some(rule), nodes) != []
    ensures Decides(rule, nodes)
  {
    EligibleNodesMembers(Some(rule), nodes);
    assert EligibleNodes(Some(rule), nodes)[0] in nodes;
  }

  /** The registry lists its nodes in the order of a map iteration. Whatever two listings of the same
      registry a message might meet, the decisions on them agree. */
  lemma AnyListingDecidesAlike(
    rules: seq<RoutingRule>, contents: map<string, NodeInfo>, a: seq<NodeInfo>, b: seq<NodeInfo>,
    d: Option<nat>, e: Option<nat>, x: Outcome, y: Outcome)
    requires IsListing(a, contents) && IsListing(b, contents)
    requires Decision(rules, a, d, x) && Decision(rules, b, e, y)
    ensures SameDecision(rules, d, e, x, y)
  {
    ListingsAgree(a, b, contents);
    OrderIndependence(rules, a, b, d, e, x, y);
  }

  // ---------- the program's form ----------

  datatype RouteError = NoFreshId | PersistFailed(cause: SaveError)

  /** The rule list is a slice: the first `len` cells of a backing array that edits overwrite in
      place and replace only when it is full. */
  class Router {
    var data: array<RoutingRule>
    var len: nat
    const registry: Registry
    const store: Store?
    /** Every array ever copied out for a caller, a routing decision or a save. */
    ghost var issued: set<array<RoutingRule>>

    ghost predicate Valid()
      reads this
    {
      len <= data.Length && data !in issued
    }

    function Rules(): seq<RoutingRule>
      requires len <= data.Length
      reads this, data
    {
      data[..len]
    }

    /** Between two states of the router, no array handed out before has changed. */
    twostate predicate Isolated()
      reads *
    {
      && old(issued) <= issued
      && forall a | a in old(issued) :: a[..] == old(a[..])
    }

    /** The list starts as what the store holds; a store that cannot be read gives an empty list. */
    constructor (registry: Registry, store: Store?, readable: bool)
      ensures Valid() && this.registry == registry && this.store == store && issued == {}
      ensures store == null ==> Rules() == []
      ensures store != null ==> var r := Load(store.disk.files, readable); Rules() == if r.Loaded? then r.rules else []
    {
      this.registry, this.store := registry, store;
      issued := {};
      data := new RoutingRule[0];
      len := 0;
      new;
      if store != null {
        var loaded := store.LoadRules(readable);
        if loaded.Loaded? {
          data := new RoutingRule[|loaded.rules|](i requires 0 <= i < |loaded.rules| => loaded.rules[i]);
          len := |loaded.rules|;
          assert Rules() == loaded.rules;
        }
      }
    }

    /** `append`: writes into spare capacity, or moves to a bigger array. */
    method Append(rule: RoutingRule)
      requires Valid()
      modifies this`data, this`len, data
      ensures Valid() && Rules() == old(Rules()) + [rule]
      ensures data == old(data) || fresh(data)
    {
      if len < data.Length {
        data[len] := rule;
      } else {
        var spare: nat :| spare >= 0;
        var bigger := new RoutingRule[len + 1 + spare];
        for i := 0 to len
          invariant data == old(data) && len == old(len) && bigger[..i] == data[..i]
          invariant data[..] == old(data[..])
        {
          bigger[i] := data[i];
        }
        bigger[len] := rule;
        data := bigger;
      }
      len := len + 1;
    }

    /** `append(rules[:i], rules[i+1:]...)`: shifts the tail down in the same array. */
    method Delete(i: nat)
      requires Valid() && i < len
      modifies this`len, data
      ensures Valid() && Rules() == Without(old(Rules()), i)
    {
      for j := i to len - 1
        invariant len == old(len)
        invariant forall k :: 0 <= k < j ==> data[k] == old(data[if k < i then k else k + 1])
        invariant forall k :: j < k < len ==> data[k] == old(data[k])
      {
        data[j] := data[j + 1];
      }
      len := len - 1;
      assert forall k :: 0 <= k < len ==> Without(old(Rules()), i)[k] == old(data[if k < i then k else k + 1]);
    }

    /** A private copy of the list, as a save and a routing decision take it. */
    method CopyRules() returns (copy: array<RoutingRule>)
      requires Valid()
      modifies this`issued
      ensures Valid() && Isolated() && fresh(copy) && issued == old(issued) + {copy}
      ensures copy[..] == Rules()
    {
      copy := new RoutingRule[len];
      for i := 0 to len
        invariant copy[..i] == data[..i] && issued == old(issued) && data[..] == old(data[..])
      {
        copy[i] := data[i];
      }
      issued := issued + {copy};
    }

    method ListRules() returns (out: array<RoutingRule>)
      requires Valid()
      modifies this`issued
      ensures Valid() && Isolated() && fresh(out) && out in issued && out[..] == Rules()
    {
      out := CopyRules();
    }

    /** `freshId` is the outcome of the id generator, `io` what the save meets. The rule stays in memory
        even when saving it fails. */
    method AddRule(rule: RoutingRule, freshId: Option<string>, io: SaveIo) returns (err: Option<RouteError>)
      requires Valid() && (store != null ==> store.disk.Valid())
      modifies this, data, if store == null then {} else {store.disk}
      ensures Valid() && Isolated() && (store != null ==> store.disk.Valid())
      ensures Rules() == if freshId.None? then old(Rules()) else old(Rules()) + [rule.(id := freshId.value)]
      ensures err == if freshId.None? then Some(NoFreshId) else if store == null then None else PersistError(io)
      ensures store != null ==>
                MainFile(store.disk.files) == if err.None? then Some(Whole(Rules()))
                  else MainFile(old(store.disk.files))
    {
      if freshId.None? {
        return Some(NoFreshId);
      }
      var copy := AddUnderLock(rule.(id := freshId.value));
      err := Persist(copy, io);
    }

    /** The region of an addition under the router lock: the edit, and the copy that will be saved. */
    method AddUnderLock(rule: RoutingRule) returns (copy: array<RoutingRule>)
      requires Valid()
      modifies this, data
      ensures Valid() && Isolated() && fresh(copy) && copy in issued
      ensures copy[..] == Rules() == old(Rules()) + [rule]
    {
      Append(rule);
      copy := CopyRules();
    }

    /** Removes the first rule of an id; `found` says whether there was one. */
    method RemoveRule(id: string, io: SaveIo) returns (found: bool, err: Option<RouteError>)
      requires Valid() && (store != null ==> store.disk.Valid())
      modifies this, data, if store == null then {} else {store.disk}
      ensures Valid() && Isolated() && (store != null ==> store.disk.Valid())
      ensures Rules() == RemoveFirst(old(Rules()), id)
      ensures found <==> HasId(old(Rules()), id)
      ensures !found ==> issued == old(issued)
      ensures err == if !found || store == null then None else PersistError(io)
      ensures store != null ==>
                MainFile(store.disk.files) ==
                  if found && err.None? then Some(Whole(Rules())) else MainFile(old(store.disk.files))
    {
      var copy := RemoveUnderLock(id);
      if copy == null {
        return false, None;
      }
      err := Persist(copy, io);
      return true, err;
    }

    /** The region of a removal under the router lock: the edit, and the copy that will be saved; null
        if there is no such rule. */
    method RemoveUnderLock(id: string) returns (copy: array?<RoutingRule>)
      requires Valid()
      modifies this, data
      ensures Valid() && Isolated() && Rules() == RemoveFirst(old(Rules()), id)
      ensures copy != null <==> HasId(old(Rules()), id)
      ensures copy == null ==> issued == old(issued)
      ensures copy != null ==> fresh(copy) && copy in issued && copy[..] == Rules()
    {
      ghost var before := Rules();
      for i := 0 to len
        invariant Rules() == before && Valid() && issued == old(issued) && data == old(data) && len == |before|
        invariant forall j :: 0 <= j < i ==> before[j].id != id
        invariant Isolated()
      {
        if data[i].id == id {
          assert before[i] in before;
          assert IndexOf(before, id) == Some(i) by {
            var k := IndexOf(before, id);
            assert k.Some? && k.value <= i && k.value >= i;
          }
          Delete(i);
          copy := CopyRules();
          return copy;
        }
      }
      return null;
    }

    static function PersistError(io: SaveIo): Option<RouteError> {
      match SaveFailure(io)
      case None => None
      case Some(cause) => Some(PersistFailed(cause))
    }

    method Persist(rules: array<RoutingRule>, io: SaveIo) returns (err: Option<RouteError>)
      requires Valid() && (store != null ==> store.disk.Valid())
      modifies if store == null then {} else {store.disk}
      ensures Valid() && Rules() == old(Rules()) && rules[..] == old(rules[..])
      ensures forall a | a in issued :: a[..] == old(a[..])
      ensures err == if store == null then None else PersistError(io)
      ensures err.Some? ==> err.value == PersistFailed(SaveFailure(io).value)
      ensures store != null ==> store.disk.Valid()
      ensures store != null ==> MainFile(store.disk.files) ==
                                if err.None? then Some(Whole(rules[..])) else MainFile(old(store.disk.files))
    {
      if store == null {
        return None;
      }
      ghost var trace;
      var cause;
      cause, trace := store.SaveRules(rules[..], io);
      err := if cause.None? then None else Some(PersistFailed(cause.value));
    }

    /** Picks the node for a message; null is the error in `out`. For a message without a target the
        decision is the one `Decision` allows on some listing of the registry. */
    method Route(target: string)
      returns (node: Node?, out: Outcome, ghost snapshot: seq<NodeInfo>, ghost d: Option<nat>)
      requires Valid() && registry.Valid()
      modifies this`issued, registry`issued, registry`issuedLists
      ensures Valid() && Isolated() && registry.Valid() && registry.Isolated()
      ensures target != "" ==> out == DirectDecision(registry.contents, target)
      ensures target != "" ==>
                && (out.TargetNotFound? <==> target !in registry.contents)
                && (out.TargetOffline? <==> target in registry.contents && registry.contents[target].status == Offline)
                && (node != null ==> target in registry.contents && node.Info() == registry.contents[target])
      ensures target == "" ==> IsListing(snapshot, registry.contents) && Decision(Rules(), snapshot, d, out)
      ensures node != null <==> out.Chosen?
      ensures node != null ==> fresh(node) && fresh(node.lists) && node.Info() == out.node
      ensures Rules() == old(Rules())
    {
      snapshot, d := [], None;
      if target != "" {
        node := registry.Get(target);
        if node == null {
          return null, TargetNotFound, snapshot, d;
        }
        if node.status == Offline {
          return null, TargetOffline, snapshot, d;
        }
        return node, Chosen(node.Info()), snapshot, d;
      }
      var rules := CopyRules();
      var nodes := registry.List();
      snapshot := Infos(nodes);
      node, d := Decide(rules[..], nodes, snapshot);
      out := if node == null then NoOnlineNodes else Chosen(node.Info());
    }
  }
}
