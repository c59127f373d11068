/** What a routing decision is, said without loops: which rule decides and which node it picks.

    A registry snapshot is a sequence of node records in an arbitrary order (the program iterates a
    hash map). `Decision` relates rules, a snapshot and an outcome. */
module Routing {
  import opened MeshTypes

  /** Lower is more available. */
  function StatusPriority(s: NodeStatus): nat {
    match s
    case Online => 0
    case Busy => 1
    case _ => 2
  }

  predicate Matches(rule: RoutingRule, n: NodeInfo) {
    MatchesCriteria(rule.criteria, n)
  }

  predicate HasTarget(rule: RoutingRule) {
    rule.target != ""
  }

  predicate Named(n: NodeInfo, target: string) {
    n.profile.name == target || n.profile.id == target
  }

  /** The nodes a rule (or, for `None`, the fallback) may choose from. */
  predicate Eligible(rule: Option<RoutingRule>, n: NodeInfo) {
    n.status != Offline && (rule.None? || IsWildcard(rule.value.criteria) || Matches(rule.value, n))
  }

  /** A rule decides when it is a wildcard, or it has an eligible node and, if it names a target, an
      eligible node of that name or id. */
  ghost predicate Decides(rule: RoutingRule, nodes: seq<NodeInfo>) {
    || IsWildcard(rule.criteria)
    || exists n :: n in nodes && Eligible(Some(rule), n) && (HasTarget(rule) ==> Named(n, rule.target))
  }

  /** `d` is the first deciding rule, or `None` if no rule decides. */
  ghost predicate FirstDecider(rules: seq<RoutingRule>, nodes: seq<NodeInfo>, d: Option<nat>) {
    match d
    case None => forall j :: 0 <= j < |rules| ==> !Decides(rules[j], nodes)
    case Some(k) => k < |rules| && Decides(rules[k], nodes) && forall j :: 0 <= j < k ==> !Decides(rules[j], nodes)
  }

  /** Position `i` holds the first eligible node of least status priority. */
  ghost predicate FirstLeastBusy(rule: Option<RoutingRule>, nodes: seq<NodeInfo>, i: nat) {
    && i < |nodes| && Eligible(rule, nodes[i])
    && (forall j :: 0 <= j < |nodes| && Eligible(rule, nodes[j]) ==>
          StatusPriority(nodes[i].status) <= StatusPriority(nodes[j].status))
    && (forall j :: 0 <= j < i && Eligible(rule, nodes[j]) ==>
          StatusPriority(nodes[i].status) < StatusPriority(nodes[j].status))
  }

  /** Position `i` holds the first eligible node of the rule's target name or id. */
  ghost predicate FirstNamed(rule: RoutingRule, nodes: seq<NodeInfo>, i: nat) {
    && i < |nodes| && Eligible(Some(rule), nodes[i]) && Named(nodes[i], rule.target)
    && forall j :: 0 <= j < i && Eligible(Some(rule), nodes[j]) ==> !Named(nodes[j], rule.target)
  }

  ghost predicate PickedBy(rule: Option<RoutingRule>, nodes: seq<NodeInfo>, i: nat) {
    if rule.Some? && !IsWildcard(rule.value.criteria) && HasTarget(rule.value)
    then FirstNamed(rule.value, nodes, i)
    else FirstLeastBusy(rule, nodes, i)
  }

  datatype Outcome = Chosen(node: NodeInfo) | TargetNotFound | TargetOffline | NoOnlineNodes

  predicate AllOffline(nodes: seq<NodeInfo>) {
    forall n | n in nodes :: n.status == Offline
  }

  function RuleAt(rules: seq<RoutingRule>, d: Option<nat>): Option<RoutingRule>
    requires d.Some? ==> d.value < |rules|
  {
    match d
    case None => None
    case Some(k) => Some(rules[k])
  }

  /** The outcome is the node that is picked, or a failure if none is. */
  ghost predicate Picks(rule: Option<RoutingRule>, nodes: seq<NodeInfo>, out: Outcome) {
    match out
    case Chosen(n) => exists i: nat :: PickedBy(rule, nodes, i) && nodes[i] == n
    case NoOnlineNodes => forall i: nat :: !PickedBy(rule, nodes, i)
    case _ => false
  }

  /** The decision for a message without a target of its own. */
  ghost predicate Decision(rules: seq<RoutingRule>, nodes: seq<NodeInfo>, d: Option<nat>, out: Outcome) {
    FirstDecider(rules, nodes, d) && Picks(RuleAt(rules, d), nodes, out)
  }

  /** The decision for a message addressed to one node id. */
  function DirectDecision<K>(contents: map<K, NodeInfo>, target: K): Outcome {
    if target !in contents then TargetNotFound
    else if contents[target].status == Offline then TargetOffline
    else Chosen(contents[target])
  }

  // ---------- lists, as the program builds them ----------

  function EligibleNodes(rule: Option<RoutingRule>, nodes: seq<NodeInfo>): seq<NodeInfo> {
    if nodes == [] then []
    else
      var before := EligibleNodes(rule, nodes[..|nodes| - 1]);
      var n := nodes[|nodes| - 1];
      if Eligible(rule, n) then before + [n] else before
  }

  /** A left-to-right minimum that keeps the earlier of two equals. */
  function LeastBusyOf(nodes: seq<NodeInfo>): NodeInfo
    requires nodes != []
  {
    var n := nodes[|nodes| - 1];
    if |nodes| == 1 then n
    else
      var best := LeastBusyOf(nodes[..|nodes| - 1]);
      if StatusPriority(n.status) < StatusPriority(best.status) then n else best
  }

  lemma {:induction false} EligibleNodesMembers(rule: Option<RoutingRule>, nodes: seq<NodeInfo>)
    ensures forall n :: n in EligibleNodes(rule, nodes) <==> n in nodes && Eligible(rule, n)
  {
    if nodes != [] {
      EligibleNodesMembers(rule, nodes[..|nodes| - 1]);
      assert nodes == nodes[..|nodes| - 1] + [nodes[|nodes| - 1]];
    }
  }

  /** Filtering the online nodes by a rule is filtering the snapshot by it. */
  lemma {:induction false} FilterTwice(rule: RoutingRule, nodes: seq<NodeInfo>)
    ensures EligibleNodes(Some(rule), EligibleNodes(None, nodes)) == EligibleNodes(Some(rule), nodes)
  {
    if nodes != [] {
      var init, n := nodes[..|nodes| - 1], nodes[|nodes| - 1];
      FilterTwice(rule, init);
      if Eligible(None, n) {
        var online := EligibleNodes(None, init);
        assert (online + [n])[..|online + [n]| - 1] == online;
      }
    }
  }

  lemma {:induction false} LeastBusyIsFirst(rule: Option<RoutingRule>, nodes: seq<NodeInfo>) returns (i: nat)
    requires EligibleNodes(rule, nodes) != []
    ensures FirstLeastBusy(rule, nodes, i) && nodes[i] == LeastBusyOf(EligibleNodes(rule, nodes))
  {
    var init, n := nodes[..|nodes| - 1], nodes[|nodes| - 1];
    var before := EligibleNodes(rule, init);
    assert (before + [n])[..|before|] == before;
    if before == [] {
      i := |nodes| - 1;
      EligibleNodesMembers(rule, init);
      assert forall j :: 0 <= j < i ==> nodes[j] in init;
    } else {
      var k := LeastBusyIsFirst(rule, init);
      i := if Eligible(rule, n) && StatusPriority(n.status) < StatusPriority(nodes[k].status) then |nodes| - 1 else k;
      LastOrEarlier(rule, nodes, k, i);
    }
  }

  lemma LastOrEarlier(rule: Option<RoutingRule>, nodes: seq<NodeInfo>, k: nat, i: nat)
    requires nodes != [] && FirstLeastBusy(rule, nodes[..|nodes| - 1], k)
    requires var n := nodes[|nodes| - 1];
             i == if Eligible(rule, n) && StatusPriority(n.status) < StatusPriority(nodes[k].status) then |nodes| - 1
               else k
    ensures FirstLeastBusy(rule, nodes, i)
  {
    var init := nodes[..|nodes| - 1];
    assert forall j :: 0 <= j < |init| ==> init[j] == nodes[j];
  }

  lemma {:induction false} FirstNamedExists(nodes: seq<NodeInfo>, target: string) returns (k: nat)
    requires exists n :: n in nodes && Named(n, target)
    ensures k < |nodes| && Named(nodes[k], target) && forall j :: 0 <= j < k ==> !Named(nodes[j], target)
  {
    var n :| n in nodes && Named(n, target);
    if Named(nodes[0], target) {
      return 0;
    }
    assert n in nodes[1..];
    k := FirstNamedExists(nodes[1..], target);
    assert forall j :: 0 < j < k + 1 ==> nodes[j] == nodes[1..][j - 1];
    k := k + 1;
  }

  /** The first named candidate is the first named eligible node of the snapshot. */
  lemma {:induction false} NamedCandidateIsFirst(rule: RoutingRule, nodes: seq<NodeInfo>, k: nat) returns (i: nat)
    requires var c := EligibleNodes(Some(rule), nodes);
             k < |c| && Named(c[k], rule.target) && forall j :: 0 <= j < k ==> !Named(c[j], rule.target)
    ensures FirstNamed(rule, nodes, i) && nodes[i] == EligibleNodes(Some(rule), nodes)[k]
  {
    var init, n := nodes[..|nodes| - 1], nodes[|nodes| - 1];
    var before := EligibleNodes(Some(rule), init);
    EligibleNodesMembers(Some(rule), init);
    var c := EligibleNodes(Some(rule), nodes);
    assert forall j :: 0 <= j < |before| ==> before[j] == c[j];
    assert forall j :: 0 <= j < |init| ==> init[j] == nodes[j];
    if k < |before| {
      i := NamedCandidateIsFirst(rule, init, k);
    } else {
      i := |nodes| - 1;
      forall j | 0 <= j < i && Eligible(Some(rule), nodes[j])
        ensures !Named(nodes[j], rule.target)
      {
        assert init[j] in before;
        var m :| 0 <= m < |before| && before[m] == init[j];
        assert c[m] == nodes[j];
      }
    }
  }

  // ---------- from the lists the program builds to decisions ----------

  lemma {:induction false} WildcardIsEveryone(rule: RoutingRule, nodes: seq<NodeInfo>)
    requires IsWildcard(rule.criteria)
    ensures EligibleNodes(Some(rule), nodes) == EligibleNodes(None, nodes)
  {
    if nodes != [] {
      WildcardIsEveryone(rule, nodes[..|nodes| - 1]);
    }
  }

  lemma OfflineWhenEmpty(nodes: seq<NodeInfo>)
    ensures EligibleNodes(None, nodes) == [] <==> AllOffline(nodes)
  {
    EligibleNodesMembers(None, nodes);
    var online := EligibleNodes(None, nodes);
    if online != [] {
      assert online[0] in online;
    }
  }

  /** A least-busy choice among the nodes of the deciding rule (or of the fallback). */
  lemma LeastBusyDecides(rules: seq<RoutingRule>, nodes: seq<NodeInfo>, d: Option<nat>, x: NodeInfo)
    requires FirstDecider(rules, nodes, d)
    requires d.Some? ==> IsWildcard(rules[d.value].criteria) || !HasTarget(rules[d.value])
    requires EligibleNodes(RuleAt(rules, d), nodes) != [] && x == LeastBusyOf(EligibleNodes(RuleAt(rules, d), nodes))
    ensures Decision(rules, nodes, d, Chosen(x))
  {
    var rule := RuleAt(rules, d);
    EligibleNodesMembers(rule, nodes);
    assert EligibleNodes(rule, nodes)[0] in nodes;
    var i := LeastBusyIsFirst(rule, nodes);
    assert PickedBy(rule, nodes, i);
  }

  /** The first named candidate of a targeted rule. */
  lemma NamedCandidateDecides(rules: seq<RoutingRule>, nodes: seq<NodeInfo>, k: nat, c: nat, x: NodeInfo)
    requires k < |rules| && !IsWildcard(rules[k].criteria) && HasTarget(rules[k])
    requires forall j :: 0 <= j < k ==> !Decides(rules[j], nodes)
    requires var cs := EligibleNodes(Some(rules[k]), nodes);
             && c < |cs| && cs[c] == x && Named(x, rules[k].target)
             && forall j :: 0 <= j < c ==> !Named(cs[j], rules[k].target)
    ensures Decision(rules, nodes, Some(k), Chosen(x))
  {
    var cs := EligibleNodes(Some(rules[k]), nodes);
    EligibleNodesMembers(Some(rules[k]), nodes);
    assert cs[c] in cs;
    assert Decides(rules[k], nodes);
    var i := NamedCandidateIsFirst(rules[k], nodes, c);
    assert PickedBy(Some(rules[k]), nodes, i);
  }

  lemma IdleRule(rule: RoutingRule, nodes: seq<NodeInfo>)
    requires !IsWildcard(rule.criteria)
    requires forall n | n in EligibleNodes(Some(rule), nodes) :: HasTarget(rule) && !Named(n, rule.target)
    ensures !Decides(rule, nodes)
  {
    EligibleNodesMembers(Some(rule), nodes);
  }

  // ---------- properties of decisions ----------

  /** Rules, snapshot and message determine the outcome. */
  lemma DecisionIsUnique(rules: seq<RoutingRule>, nodes: seq<NodeInfo>, d: Option<nat>, e: Option<nat>, x: Outcome,
      y: Outcome)
    requires Decision(rules, nodes, d, x) && Decision(rules, nodes, e, y)
    ensures d == e && x == y
  {
    SameDecider(rules, nodes, nodes, d, e);
    if x.Chosen? && y.Chosen? {
      var i: nat :| PickedBy(RuleAt(rules, d), nodes, i) && nodes[i] == x.node;
      var j: nat :| PickedBy(RuleAt(rules, e), nodes, j) && nodes[j] == y.node;
      assert i <= j && j <= i;
    }
  }

  /** Every snapshot has a decision, and it chooses a node unless all of them are offline. */
  lemma DecisionExists(rules: seq<RoutingRule>, nodes: seq<NodeInfo>) returns (d: Option<nat>, out: Outcome)
    ensures Decision(rules, nodes, d, out)
    ensures out.Chosen? <==> !AllOffline(nodes)
  {
    d := FindDecider(rules, nodes);
    if AllOffline(nodes) {
      return d, NoOnlineNodes;
    }
    var rule := RuleAt(rules, d);
    var w :| w in nodes && w.status != Offline;
    EligibleNodesMembers(rule, nodes);
    if rule.Some? && !IsWildcard(rule.value.criteria) {
      var c := EligibleNodes(rule, nodes);
      var n :| n in nodes && Eligible(rule, n) && (HasTarget(rule.value) ==> Named(n, rule.value.target));
      assert n in c;
      if HasTarget(rule.value) {
        var k := FirstNamedExists(c, rule.value.target);
        var i := NamedCandidateIsFirst(rule.value, nodes, k);
        assert PickedBy(rule, nodes, i);
        out := Chosen(nodes[i]);
        return;
      }
    } else {
      assert w in EligibleNodes(rule, nodes);
    }
    var i := LeastBusyIsFirst(rule, nodes);
    assert PickedBy(rule, nodes, i);
    out := Chosen(nodes[i]);
  }

  lemma {:induction false} FindDecider(rules: seq<RoutingRule>, nodes: seq<NodeInfo>) returns (d: Option<nat>)
    ensures FirstDecider(rules, nodes, d)
  {
    if rules == [] {
      return None;
    }
    var init := rules[..|rules| - 1];
    d := FindDecider(init, nodes);
    assert forall j :: 0 <= j < |init| ==> init[j] == rules[j];
    if d.None? && Decides(rules[|rules| - 1], nodes) {
      d := Some(|rules| - 1);
    }
  }

  /** An untargeted message fails exactly when no node is non-offline, whatever the rules are. */
  lemma FailsExactlyWhenAllOffline(rules: seq<RoutingRule>, nodes: seq<NodeInfo>, d: Option<nat>, out: Outcome)
    requires Decision(rules, nodes, d, out)
    ensures !out.Chosen? <==> forall n | n in nodes :: n.status == Offline
    ensures out.Chosen? ==> out.node in nodes && out.node.status != Offline
  {
    var e, other := DecisionExists(rules, nodes);
    DecisionIsUnique(rules, nodes, d, e, out, other);
  }

  /** Position `i` holds the first eligible node that is online; if none is, the first that is busy; if
      none is either, the first eligible node. */
  ghost predicate FirstOfBestStatus(rule: Option<RoutingRule>, nodes: seq<NodeInfo>, i: nat) {
    && i < |nodes| && Eligible(rule, nodes[i])
    && match nodes[i].status
       case Online => forall j :: 0 <= j < i && Eligible(rule, nodes[j]) ==> nodes[j].status != Online
       case Busy =>
         && (forall j :: 0 <= j < |nodes| && Eligible(rule, nodes[j]) ==> nodes[j].status != Online)
         && (forall j :: 0 <= j < i && Eligible(rule, nodes[j]) ==> nodes[j].status != Busy)
       case Offline => false
       case Unknown(_) =>
         && (forall j :: 0 <= j < |nodes| && Eligible(rule, nodes[j]) ==> nodes[j].status !in {Online, Busy})
         && (forall j :: 0 <= j < i ==> !Eligible(rule, nodes[j]))
  }

  /** Least busy means online before busy before anything else, and then first come. */
  lemma LeastBusyIsBestStatus(rule: Option<RoutingRule>, nodes: seq<NodeInfo>, i: nat)
    ensures FirstLeastBusy(rule, nodes, i) <==> FirstOfBestStatus(rule, nodes, i)
  {
  }

  /** Whenever no target decides, the message goes to the first eligible online node, and to a busy one
      only if no eligible node is online. */
  lemma OnlineBeforeBusy(rules: seq<RoutingRule>, nodes: seq<NodeInfo>, d: Option<nat>, x: NodeInfo) returns (i: nat)
    requires Decision(rules, nodes, d, Chosen(x))
    requires d.Some? ==> IsWildcard(rules[d.value].criteria) || !HasTarget(rules[d.value])
    ensures FirstOfBestStatus(RuleAt(rules, d), nodes, i) && nodes[i] == x
    ensures (exists n :: n in nodes && Eligible(RuleAt(rules, d), n) && n.status == Online) ==> x.status == Online
    ensures (exists n :: n in nodes && Eligible(RuleAt(rules, d), n) && n.status == Busy) ==>
              x.status == Online || x.status == Busy
  {
    i :| PickedBy(RuleAt(rules, d), nodes, i) && nodes[i] == x;
    LeastBusyIsBestStatus(RuleAt(rules, d), nodes, i);
  }

  /** The node a rule chooses is not offline, has what the rule asks for, and is the one it names. */
  lemma ChosenFitsItsRule(rules: seq<RoutingRule>, nodes: seq<NodeInfo>, k: nat, x: NodeInfo)
    requires Decision(rules, nodes, Some(k), Chosen(x)) && rules[k].criteria.wildcard != Some(true)
    ensures x in nodes && x.status != Offline
    ensures rules[k].criteria.gpu == Some(true) ==> x.profile.gpu
    ensures rules[k].criteria.os != "" ==> x.profile.os == rules[k].criteria.os
    ensures rules[k].criteria.skill != "" ==> rules[k].criteria.skill in x.skills + x.tags
    ensures rules[k].target != "" ==> rules[k].target in {x.profile.name, x.profile.id}
  {
    var i: nat :| PickedBy(RuleAt(rules, Some(k)), nodes, i) && nodes[i] == x;
  }

  /** A rule that is passed over is no wildcard, and has nobody: a node that is not offline and has what
      the rule asks for is not the one it names. */
  lemma PassedRuleHasNobody(rules: seq<RoutingRule>, nodes: seq<NodeInfo>, d: Option<nat>, out: Outcome, j: nat,
      n: NodeInfo)
    requires Decision(rules, nodes, d, out) && j < |rules| && (d.Some? ==> j < d.value)
    ensures rules[j].criteria.wildcard != Some(true)
    ensures var mc := rules[j].criteria;
            && n in nodes && n.status != Offline
            && (mc.gpu == Some(true) ==> n.profile.gpu)
            && (mc.os in {"", n.profile.os})
            && (mc.skill == "" || mc.skill in n.skills + n.tags) ==>
              rules[j].target != "" && rules[j].target != n.profile.name && rules[j].target != n.profile.id
  {
    assert !Decides(rules[j], nodes);
  }

  ghost predicate SameElements(a: seq<NodeInfo>, b: seq<NodeInfo>) {
    forall n :: n in a <==> n in b
  }

  lemma SameDecider(rules: seq<RoutingRule>, a: seq<NodeInfo>, b: seq<NodeInfo>, d: Option<nat>, e: Option<nat>)
    requires SameElements(a, b)
    requires FirstDecider(rules, a, d) && FirstDecider(rules, b, e)
    ensures d == e
  {
    assert forall r | r in rules :: Decides(r, a) <==> Decides(r, b);
    if d.Some? && e.Some? {
      assert !(d.value < e.value);
      assert !(e.value < d.value);
    }
  }

  /** The same rule decides, the outcome is of the same kind, a least-busy choice has the same status,
      and a targeted choice is an eligible node of the target's name or id. */
  ghost predicate SameDecision(rules: seq<RoutingRule>, d: Option<nat>, e: Option<nat>, x: Outcome, y: Outcome)
    requires d.Some? ==> d.value < |rules|
  {
    && d == e
    && (if x.Chosen? then y.Chosen? else x == y)
    && (x.Chosen? ==>
          var rule := RuleAt(rules, d);
          && Eligible(rule, x.node) && Eligible(rule, y.node)
          && if rule.Some? && !IsWildcard(rule.value.criteria) && HasTarget(rule.value)
             then Named(x.node, rule.value.target) && Named(y.node, rule.value.target)
             else x.node.status == y.node.status || (x.node.status.Unknown? && y.node.status.Unknown?))
  }

  /** Decisions on the same records agree, in whatever order the records come. */
  lemma OrderIndependence(
    rules: seq<RoutingRule>, a: seq<NodeInfo>, b: seq<NodeInfo>, d: Option<nat>, e: Option<nat>, x: Outcome, y: Outcome)
    requires SameElements(a, b)
    requires Decision(rules, a, d, x) && Decision(rules, b, e, y)
    ensures SameDecision(rules, d, e, x, y)
  {
    SameDecider(rules, a, b, d, e);
    FailsExactlyWhenAllOffline(rules, a, d, x);
    FailsExactlyWhenAllOffline(rules, b, e, y);
    if x.Chosen? {
      var i: nat :| PickedBy(RuleAt(rules, d), a, i) && a[i] == x.node;
      var j: nat :| PickedBy(RuleAt(rules, e), b, j) && b[j] == y.node;
      assert a[i] in b && b[j] in a;
    }
  }

  // ---------- editing the rule list ----------

  /** Appending a rule does not change a decision that an existing rule makes. */
  lemma AppendKeepsDecision(rules: seq<RoutingRule>, extra: RoutingRule, nodes: seq<NodeInfo>, d: Option<nat>,
      out: Outcome)
    requires Decision(rules, nodes, d, out) && d.Some?
    ensures Decision(rules + [extra], nodes, d, out)
  {
    assert FirstDecider(rules + [extra], nodes, d);
    assert RuleAt(rules + [extra], d) == RuleAt(rules, d);
  }

  /** Appending a rule that does not decide changes nothing at all. */
  lemma AppendIdleRule(rules: seq<RoutingRule>, extra: RoutingRule, nodes: seq<NodeInfo>, d: Option<nat>, out: Outcome)
    requires Decision(rules, nodes, d, out) && !Decides(extra, nodes)
    ensures Decision(rules + [extra], nodes, d, out)
  {
    assert FirstDecider(rules + [extra], nodes, d);
    assert RuleAt(rules + [extra], d) == RuleAt(rules, d);
  }

  function Without(rules: seq<RoutingRule>, i: nat): seq<RoutingRule>
    requires i < |rules|
  {
    rules[..i] + rules[i + 1..]
  }

  /** Where rule `d` is once rule `i` is gone. */
  function Shifted(d: Option<nat>, i: nat): Option<nat> {
    if d.Some? && i < d.value then Some(d.value - 1) else d
  }

  lemma RemovalKeepsDecider(rules: seq<RoutingRule>, i: nat, nodes: seq<NodeInfo>, d: Option<nat>)
    requires i < |rules| && FirstDecider(rules, nodes, d) && d != Some(i)
    ensures FirstDecider(Without(rules, i), nodes, Shifted(d, i))
    ensures RuleAt(Without(rules, i), Shifted(d, i)) == RuleAt(rules, d)
  {
    var rest := Without(rules, i);
    assert forall j :: 0 <= j < |rest| ==> rest[j] == if j < i then rules[j] else rules[j + 1];
  }

  /** Removing any rule but the deciding one keeps the outcome. */
  lemma RemovalKeepsDecision(rules: seq<RoutingRule>, i: nat, nodes: seq<NodeInfo>, d: Option<nat>, out: Outcome)
    requires i < |rules| && Decision(rules, nodes, d, out) && d != Some(i)
    ensures Decision(Without(rules, i), nodes, Shifted(d, i), out)
  {
    RemovalKeepsDecider(rules, i, nodes, d);
  }

  /** Everything behind a wildcard rule is irrelevant. */
  lemma NothingAfterWildcard(front: seq<RoutingRule>, w: RoutingRule, back: seq<RoutingRule>, nodes: seq<NodeInfo>,
      d: Option<nat>, out: Outcome)
    requires IsWildcard(w.criteria)
    ensures Decision(front + [w] + back, nodes, d, out) <==> Decision(front + [w], nodes, d, out)
  {
    var long, short := front + [w] + back, front + [w];
    assert long[|front|] == w && short[|front|] == w;
    assert forall j :: 0 <= j < |short| ==> long[j] == short[j];
    if d.Some? && d.value < |long| {
      assert d.value > |front| ==> !FirstDecider(long, nodes, d) by {
        assert Decides(long[|front|], nodes);
      }
      if d.value < |short| {
        assert RuleAt(long, d) == RuleAt(short, d);
        assert FirstDecider(long, nodes, d) <==> FirstDecider(short, nodes, d);
      }
    } else if d.None? {
      assert Decides(long[|front|], nodes) && Decides(short[|front|], nodes);
    }
  }
}
