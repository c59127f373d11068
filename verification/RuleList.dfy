/** The ordered rule list: which rules the API accepts, and how edits change the list. */
module RuleList {
  import opened MeshTypes
  import opened Routing

  datatype RuleError = NoCriterion | WildcardWithCriteria | WildcardWithTarget | InvalidStrategy

  predicate HasCriteria(mc: MatchCriteria) {
    mc.gpu.Some? || mc.os != "" || mc.skill != ""
  }

  function ValidateRule(rule: RoutingRule): Option<RuleError> {
    var isWild := IsWildcard(rule.criteria);
    var hasCriteria := HasCriteria(rule.criteria);
    if !isWild && !hasCriteria then Some(NoCriterion)
    else if isWild && hasCriteria then Some(WildcardWithCriteria)
    else if isWild && rule.target != "" then Some(WildcardWithTarget)
    else if rule.strategy !in {"", "least-busy"} then Some(InvalidStrategy)
    else None
  }

  /** A wildcard on its own, or no wildcard and at least one criterion; and a strategy that exists. */
  predicate ValidRule(rule: RoutingRule) {
    && rule.strategy in {"", "least-busy"}
    && if rule.criteria.wildcard == Some(true)
       then rule.criteria == MatchCriteria(None, "", "", Some(true)) && rule.target == ""
       else rule.criteria.gpu.Some? || rule.criteria.os != "" || rule.criteria.skill != ""
  }

  /** The check of the API, with its four refusals, accepts exactly these rules. */
  lemma ValidateAcceptsExactly(rule: RoutingRule)
    ensures ValidateRule(rule).None? <==> ValidRule(rule)
  {
  }

  /** Of the rules that are accepted, those that match every node are the wildcards and, although they are
      no wildcards, the rules that ask for nothing but "gpu: false". */
  lemma CatchAllExactly(rule: RoutingRule)
    requires ValidRule(rule)
    ensures (forall n :: MatchesCriteria(rule.criteria, n)) <==>
              rule.criteria.wildcard == Some(true) || rule.criteria.(wildcard := None) == ANY_NODE.(gpu := Some(false))
  {
    var bare := NodeInfo(Profile("", "", "", "", "", false, 0), [], [], Online, 0);
    if MatchesCriteria(rule.criteria, bare) {
      match rule.criteria.gpu
      case None =>
      case Some(b) => assert !b;
    }
  }

  predicate ValidRules(rules: seq<RoutingRule>) {
    forall i :: 0 <= i < |rules| ==> ValidRule(rules[i])
  }

  /** The same rule with its wildcard flag dropped. */
  function Plain(rule: RoutingRule): RoutingRule {
    rule.(criteria := rule.criteria.(wildcard := None))
  }

  function PlainRules(rules: seq<RoutingRule>): seq<RoutingRule> {
    seq(|rules|, i requires 0 <= i < |rules| => Plain(rules[i]))
  }

  lemma PlainRuleDecidesAlike(rule: RoutingRule, nodes: seq<NodeInfo>)
    requires ValidRule(rule) && !AllOffline(nodes)
    ensures Decides(rule, nodes) <==> Decides(Plain(rule), nodes)
    ensures forall n :: Eligible(Some(rule), n) <==> Eligible(Some(Plain(rule)), n)
    ensures forall i: nat :: PickedBy(Some(rule), nodes, i) <==> PickedBy(Some(Plain(rule)), nodes, i)
  {
    if IsWildcard(rule.criteria) {
      var w :| w in nodes && w.status != Offline;
      assert Eligible(Some(Plain(rule)), w);
    }
    assert forall n :: Eligible(Some(rule), n) <==> Eligible(Some(Plain(rule)), n);
    forall i: nat
      ensures PickedBy(Some(rule), nodes, i) <==> PickedBy(Some(Plain(rule)), nodes, i)
    {
      if IsWildcard(rule.criteria) || !HasTarget(rule) {
        assert FirstLeastBusy(Some(rule), nodes, i) <==> FirstLeastBusy(Some(Plain(rule)), nodes, i);
      } else {
        assert FirstNamed(rule, nodes, i) <==> FirstNamed(Plain(rule), nodes, i);
      }
    }
  }

  lemma PlainRulePicksAlike(rule: RoutingRule, nodes: seq<NodeInfo>, out: Outcome)
    requires ValidRule(rule) && !AllOffline(nodes)
    ensures Picks(Some(rule), nodes, out) <==> Picks(Some(Plain(rule)), nodes, out)
  {
    PlainRuleDecidesAlike(rule, nodes);
    if out.Chosen? {
      assert forall i: nat :: PickedBy(Some(rule), nodes, i) && nodes[i] == out.node <==>
                              PickedBy(Some(Plain(rule)), nodes, i) && nodes[i] == out.node;
    }
  }

  /** On accepted rules the wildcard branch of a routing decision never discards a target or a
      criterion: dropping every wildcard flag decides every message alike. */
  lemma WildcardBranchDiscardsNothing(rules: seq<RoutingRule>, nodes: seq<NodeInfo>, d: Option<nat>, out: Outcome)
    requires ValidRules(rules) && !AllOffline(nodes)
    ensures Decision(rules, nodes, d, out) <==> Decision(PlainRules(rules), nodes, d, out)
  {
    var plain := PlainRules(rules);
    forall j | 0 <= j < |rules|
      ensures Decides(rules[j], nodes) <==> Decides(plain[j], nodes)
    {
      PlainRuleDecidesAlike(rules[j], nodes);
    }
    assert FirstDecider(rules, nodes, d) <==> FirstDecider(plain, nodes, d);
    if d.Some? && d.value < |rules| {
      PlainRulePicksAlike(rules[d.value], nodes, out);
    }
  }

  /** On a rule the API would refuse, the branch does discard: a wildcard with a target ignores it. */
  lemma RefusedWildcardDiscardsTarget()
    ensures var rule := RoutingRule("r", MatchCriteria(None, "", "", Some(true)), "b", "");
            var n := NodeInfo(Profile("a", "a", "", "", "", false, 0), [], [], Online, 0);
            !ValidRule(rule) && Decision([rule], [n], Some(0), Chosen(n)) && !Decides(Plain(rule), [n])
  {
    var rule := RoutingRule("r", MatchCriteria(None, "", "", Some(true)), "b", "");
    var n := NodeInfo(Profile("a", "a", "", "", "", false, 0), [], [], Online, 0);
    var nodes := [n];
    assert nodes[0] == n && n in nodes;
    assert PickedBy(RuleAt([rule], Some(0)), nodes, 0);
    assert "a"[0] != "b"[0];
    assert !Named(n, "b");
  }

  // ---------- edits ----------

  predicate HasId(rules: seq<RoutingRule>, id: string) {
    exists r :: r in rules && r.id == id
  }

  /** Position of the first rule with an id. */
  function IndexOf(rules: seq<RoutingRule>, id: string): (i: Option<nat>)
    ensures i.None? ==> forall r | r in rules :: r.id != id
    ensures i.Some? ==>
              && i.value < |rules| && rules[i.value].id == id
              && forall j :: 0 <= j < i.value ==> rules[j].id != id
  {
    if rules == [] then None
    else if rules[0].id == id then Some(0)
    else
      match IndexOf(rules[1..], id)
      case None => None
      case Some(j) => Some(j + 1)
  }

  /** The list without its first rule of that id; the list itself if there is none. */
  function RemoveFirst(rules: seq<RoutingRule>, id: string): seq<RoutingRule> {
    match IndexOf(rules, id)
    case None => rules
    case Some(i) => Without(rules, i)
  }

  /** Adding a rule under an id nobody holds and removing that id gives the old list back. */
  lemma RemoveUndoesAdd(rules: seq<RoutingRule>, rule: RoutingRule)
    requires forall r | r in rules :: r.id != rule.id
    ensures RemoveFirst(rules + [rule], rule.id) == rules
  {
    var i := IndexOf(rules + [rule], rule.id);
    assert (rules + [rule])[|rules|] == rule;
    assert rule in rules + [rule];
    assert forall j :: 0 <= j < |rules| ==> (rules + [rule])[j] == rules[j] && rules[j] in rules;
    assert Without(rules + [rule], |rules|) == rules;
  }

  lemma RemoveKeepsValid(rules: seq<RoutingRule>, id: string)
    requires ValidRules(rules)
    ensures ValidRules(RemoveFirst(rules, id))
  {
    match IndexOf(rules, id) {
      case None =>
      case Some(i) =>
        var rest := Without(rules, i);
        assert forall j :: 0 <= j < |rest| ==> rest[j] == if j < i then rules[j] else rules[j + 1];
    }
  }
}
