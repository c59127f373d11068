/** The coordinator's set of known nodes: records that are changed in place, handed out as copies. */
module Registry {
  import opened MeshTypes

  // ---------- what the operations do to the contents ----------

  function WithStatus(n: NodeInfo, status: NodeStatus): NodeInfo {
    n.(status := status)
  }

  function WithHeartbeat(n: NodeInfo, status: NodeStatus, now: int): NodeInfo {
    n.(status := status, lastHeartbeat := now)
  }

  predicate Stale(n: NodeInfo, now: int, timeout: int) {
    n.status != Offline && now - n.lastHeartbeat > timeout
  }

  function Marked(n: NodeInfo, now: int, timeout: int): NodeInfo {
    if Stale(n, now, timeout) then WithStatus(n, Offline) else n
  }

  /** Every node that is silent for longer than `timeout` goes offline; no node comes back. */
  function MarkStale<K>(nodes: map<K, NodeInfo>, now: int, timeout: int): map<K, NodeInfo> {
    map id | id in nodes :: Marked(nodes[id], now, timeout)
  }

  /** A listing names every node once, in any order. */
  ghost predicate IsListing(infos: seq<NodeInfo>, nodes: map<string, NodeInfo>) {
    && (forall i :: 0 <= i < |infos| ==> infos[i].profile.id in nodes && nodes[infos[i].profile.id] == infos[i])
    && (forall i, j :: 0 <= i < j < |infos| ==> infos[i].profile.id != infos[j].profile.id)
    && (forall id :: id in nodes ==> exists i :: 0 <= i < |infos| && infos[i].profile.id == id)
  }

  /** Two listings of the same nodes hold the same records. */
  lemma ListingsAgree(a: seq<NodeInfo>, b: seq<NodeInfo>, nodes: map<string, NodeInfo>)
    requires IsListing(a, nodes) && IsListing(b, nodes)
    ensures forall n :: n in a <==> n in b
    ensures |a| == |b|
  {
    forall n
      ensures n in a ==> n in b
      ensures n in b ==> n in a
    {
      if n in a {
        var i :| 0 <= i < |a| && a[i] == n;
        var j :| 0 <= j < |b| && b[j].profile.id == n.profile.id;
      }
      if n in b {
        var j :| 0 <= j < |b| && b[j] == n;
        var i :| 0 <= i < |a| && a[i].profile.id == n.profile.id;
      }
    }
    ListingLength(a, nodes);
    ListingLength(b, nodes);
  }

  lemma ListingLength(a: seq<NodeInfo>, nodes: map<string, NodeInfo>)
    requires IsListing(a, nodes)
    ensures |a| == |nodes|
  {
    var ids := seq(|a|, i requires 0 <= i < |a| => a[i].profile.id);
    DistinctCount(ids);
    assert (set id | id in ids) == nodes.Keys by {
      forall id
        ensures id in ids <==> id in nodes
      {
        if id in nodes {
          var i :| 0 <= i < |a| && a[i].profile.id == id;
          assert ids[i] == id;
        }
      }
    }
    assert |nodes| == |nodes.Keys|;
  }

  lemma {:induction false} DistinctCount<T>(xs: seq<T>)
    requires forall i, j :: 0 <= i < j < |xs| ==> xs[i] != xs[j]
    ensures |set x | x in xs| == |xs|
  {
    if xs == [] {
      assert (set x | x in xs) == {};
    } else {
      var init, last := xs[..|xs| - 1], xs[|xs| - 1];
      DistinctCount(init);
      assert xs == init + [last];
      assert (set x | x in xs) == (set x | x in init) + {last};
    }
  }

  // ---------- the program's form ----------

  /** The tag and skill lists of a record, in memory of their own: a copy of a record that shared
      them would see the other's changes. */
  class Lists {
    var tags: seq<string>
    var skills: seq<string>

    constructor (tags: seq<string>, skills: seq<string>)
      ensures this.tags == tags && this.skills == skills
    {
      this.tags, this.skills := tags, skills;
    }
  }

  /** A node record. The registry changes `status` and `lastHeartbeat` in place. */
  class Node {
    const profile: Profile
    const lists: Lists
    var status: NodeStatus
    var lastHeartbeat: int

    constructor (info: NodeInfo)
      ensures Info() == info && fresh(lists)
    {
      profile := info.profile;
      lists := new Lists(info.tags, info.skills);
      status, lastHeartbeat := info.status, info.lastHeartbeat;
    }

    function Info(): NodeInfo
      reads this, lists
    {
      NodeInfo(profile, lists.tags, lists.skills, status, lastHeartbeat)
    }

    predicate IsStale(now: int, timeout: int)
      reads this
    {
      status != Offline && now - lastHeartbeat > timeout
    }
  }

  ghost function Infos(ns: seq<Node>): (infos: seq<NodeInfo>)
    reads ns, set n | n in ns :: n.lists
    ensures |infos| == |ns|
    ensures forall i :: 0 <= i < |ns| ==> infos[i] == ns[i].Info()
  {
    seq(|ns|, i requires 0 <= i < |ns| reads ns, set n | n in ns :: n.lists => ns[i].Info())
  }

  /** Takes the silent records of a set offline, in any order. */
  method MarkAll(ns: set<Node>, timeout: int, now: int)
    modifies ns
    ensures forall n | n in ns :: n.lastHeartbeat == old(n.lastHeartbeat)
    ensures forall n | n in ns :: n.status == if old(n.IsStale(now, timeout)) then Offline else old(n.status)
  {
    var rest := ns;
    while rest != {}
      invariant rest <= ns
      invariant forall n | n in ns :: n.lastHeartbeat == old(n.lastHeartbeat)
      invariant forall n | n in ns :: n.status == if n !in rest && old(n.IsStale(now, timeout)) then Offline
                else old(n.status)
      decreases rest
    {
      var n :| n in rest;
      rest := rest - {n};
      if n.status == Offline {
        continue;
      }
      if now - n.lastHeartbeat > timeout {
        n.status := Offline;
      }
    }
  }

  /** A deep copy: the record and its lists are new objects. */
  method CopyNode(n: Node) returns (cp: Node)
    ensures fresh(cp) && fresh(cp.lists)
    ensures cp.Info() == n.Info()
  {
    cp := new Node(n.Info());
  }

  /** `order` names every record of a set once. */
  ghost predicate IsOrder(order: seq<Node>, ns: set<Node>) {
    && (forall n | n in order :: n in ns)
    && (forall n | n in ns :: n in order)
    && forall i, j :: 0 <= i < j < |order| ==> order[i] != order[j]
  }

  /** Copies a set of records in any order. */
  method CopyAll(ns: set<Node>) returns (out: seq<Node>, ghost order: seq<Node>)
    ensures forall n | n in out :: fresh(n) && fresh(n.lists)
    ensures IsOrder(order, ns) && |out| == |order|
    ensures forall i :: 0 <= i < |out| ==> out[i].Info() == order[i].Info()
  {
    out, order := [], [];
    var rest := ns;
    while rest != {}
      invariant rest <= ns
      invariant forall n | n in out :: fresh(n) && fresh(n.lists)
      invariant IsOrder(order, ns - rest) && |out| == |order|
      invariant forall i :: 0 <= i < |out| ==> out[i].Info() == order[i].Info()
      decreases rest
    {
      var n :| n in rest;
      var cp := CopyNode(n);
      out, order := out + [cp], order + [n];
      rest := rest - {n};
    }
  }

  class Registry {
    var nodes: map<string, Node>
    var nodeTokens: map<string, string>
    /** What the records say. */
    ghost var contents: map<string, NodeInfo>
    /** Every copy ever handed out to a caller, and the lists of those copies. */
    ghost var issued: set<Node>
    ghost var issuedLists: set<Lists>

    /** Records are filed under their ids, and no record the registry keeps, nor the lists of one,
        was ever handed out. */
    ghost predicate Valid()
      reads this, nodes.Values, set id | id in nodes :: nodes[id].lists
    {
      && (forall id :: id in nodes <==> id in contents)
      && (forall id | id in nodes :: nodes[id].profile.id == id && nodes[id].Info() == contents[id])
      && (forall id | id in nodes :: nodes[id] !in issued && nodes[id].lists !in issuedLists)
    }

    /** Between two states of the registry, nothing handed out before has changed. */
    twostate predicate Isolated()
      reads *
    {
      && old(issued) <= issued && old(issuedLists) <= issuedLists
      && (forall n | n in old(issued) :: unchanged(n))
      && forall l | l in old(issuedLists) :: unchanged(l)
    }

    constructor ()
      ensures Valid() && contents == map[] && nodeTokens == map[] && issued == {} && issuedLists == {}
    {
      nodes, nodeTokens := map[], map[];
      contents, issued, issuedLists := map[], {}, {};
    }

    /** Takes over the record; false if the id is taken. */
    method Add(node: Node) returns (ok: bool)
      requires Valid()
      requires node !in issued && node.lists !in issuedLists
      modifies this
      ensures Valid() && Isolated() && issued == old(issued) && issuedLists == old(issuedLists)
      ensures ok <==> node.profile.id !in old(contents)
      ensures contents == if ok then old(contents)[node.profile.id := node.Info()] else old(contents)
      ensures nodeTokens == old(nodeTokens)
    {
      if node.profile.id in nodes {
        return false;
      }
      nodes := nodes[node.profile.id := node];
      contents := contents[node.profile.id := node.Info()];
      assert forall id | id in old(nodes) :: nodes[id] == old(nodes)[id] && nodes[id].Info() == old(nodes[id].Info());
      return true;
    }

    method Remove(id: string) returns (ok: bool)
      requires Valid()
      modifies this
      ensures Valid() && Isolated() && issued == old(issued) && issuedLists == old(issuedLists)
      ensures ok <==> id in old(contents)
      ensures contents == if ok then old(contents) - {id} else old(contents)
      ensures nodeTokens == if ok then old(nodeTokens) - {id} else old(nodeTokens)
    {
      if id !in nodes {
        return false;
      }
      nodes := nodes - {id};
      nodeTokens := nodeTokens - {id};
      contents := contents - {id};
      return true;
    }

    method SetNodeToken(id: string, token: string)
      requires Valid()
      modifies this`nodeTokens
      ensures Valid() && Isolated()
      ensures nodeTokens == old(nodeTokens)[id := token]
    {
      nodeTokens := nodeTokens[id := token];
    }

    method ValidateNodeToken(token: string) returns (ok: bool)
      ensures ok <==> exists id :: id in nodeTokens && nodeTokens[id] == token
    {
      var ids := nodeTokens.Keys;
      while ids != {}
        invariant ids <= nodeTokens.Keys
        invariant forall id | id in nodeTokens && id !in ids :: nodeTokens[id] != token
        decreases ids
      {
        var id :| id in ids;
        if nodeTokens[id] == token {
          return true;
        }
        ids := ids - {id};
      }
      return false;
    }

    /** The empty string stands for no token, as in the program. */
    function GetNodeToken(id: string): string
      reads this
    {
      if id in nodeTokens then nodeTokens[id] else ""
    }

    method Get(id: string) returns (n: Node?)
      requires Valid()
      modifies this`issued, this`issuedLists
      ensures Valid() && Isolated()
      ensures n == null <==> id !in contents
      ensures n != null ==> fresh(n) && fresh(n.lists) && n in issued && n.lists in issuedLists
      ensures n != null ==> n.Info() == contents[id]
    {
      if id !in nodes {
        return null;
      }
      n := CopyNode(nodes[id]);
      issued, issuedLists := issued + {n}, issuedLists + {n.lists};
    }

    /** Copies of all records, in the arbitrary order of a map iteration. */
    method List() returns (out: seq<Node>)
      requires Valid()
      modifies this`issued, this`issuedLists
      ensures Valid() && Isolated()
      ensures forall n | n in out :: fresh(n) && fresh(n.lists) && n in issued && n.lists in issuedLists
      ensures IsListing(Infos(out), contents)
    {
      ghost var order: seq<Node>;
      out, order := CopyAll(nodes.Values);
      OrderIsListing(out, order);
      HandOut(out);
    }

    /** Notes that copies now belong to a caller. */
    ghost method HandOut(ns: seq<Node>)
      requires Valid()
      requires forall id | id in nodes :: nodes[id] !in ns && forall n | n in ns :: n.lists != nodes[id].lists
      modifies this`issued, this`issuedLists
      ensures Valid() && issued == old(issued) + (set n | n in ns)
      ensures issuedLists == old(issuedLists) + (set n | n in ns :: n.lists)
      ensures Infos(ns) == old(Infos(ns))
    {
      issued, issuedLists := issued + (set n | n in ns), issuedLists + (set n | n in ns :: n.lists);
      forall i | 0 <= i < |ns|
        ensures Infos(ns)[i] == old(Infos(ns))[i]
      {
        assert ns[i].Info() == old(ns[i].Info());
      }
    }

    lemma OrderIsListing(out: seq<Node>, order: seq<Node>)
      requires Valid() && IsOrder(order, nodes.Values) && |out| == |order|
      requires forall i :: 0 <= i < |out| ==> out[i].Info() == order[i].Info()
      ensures IsListing(Infos(out), contents)
    {
      var infos := Infos(out);
      forall i | 0 <= i < |infos|
        ensures infos[i].profile.id in nodes && nodes[infos[i].profile.id] == order[i]
      {
        assert order[i] in nodes.Values;
        var id :| id in nodes && nodes[id] == order[i];
      }
      forall id | id in contents
        ensures exists i :: 0 <= i < |infos| && infos[i].profile.id == id
      {
        assert nodes[id] in order;
        var i :| 0 <= i < |order| && order[i] == nodes[id];
      }
    }

    /** Writes both mutable fields of a record in place. */
    method Put(id: string, status: NodeStatus, lastHeartbeat: int)
      requires Valid() && id in nodes
      modifies this`contents, nodes[id]
      ensures Valid() && Isolated() && unchanged(this`nodes)
      ensures contents == old(contents)[id := WithHeartbeat(old(contents)[id], status, lastHeartbeat)]
    {
      var n := nodes[id];
      n.status := status;
      n.lastHeartbeat := lastHeartbeat;
      contents := contents[id := WithHeartbeat(contents[id], status, lastHeartbeat)];
      forall k | k in nodes
        ensures nodes[k].Info() == contents[k]
      {
        if k == id {
          assert nodes[k].lists == old(nodes[k].lists);
        } else {
          assert nodes[k].profile.id != n.profile.id;
          assert nodes[k].Info() == old(nodes[k].Info());
        }
      }
    }

    method UpdateStatus(id: string, status: NodeStatus) returns (ok: bool)
      requires Valid()
      modifies this`contents, if id in nodes then {nodes[id]} else {}
      ensures Valid() && Isolated() && unchanged(this`nodes)
      ensures ok <==> id in old(contents)
      ensures contents == if ok then old(contents)[id := old(contents)[id].(status := status)] else old(contents)
    {
      if id !in nodes {
        return false;
      }
      Put(id, status, nodes[id].lastHeartbeat);
      return true;
    }

    /** `now` is the clock read under the lock. */
    method RecordHeartbeat(id: string, status: NodeStatus, now: int) returns (ok: bool)
      requires Valid()
      modifies this`contents, if id in nodes then {nodes[id]} else {}
      ensures Valid() && Isolated() && unchanged(this`nodes)
      ensures ok <==> id in old(contents)
      ensures contents == if ok then old(contents)[id := old(contents)[id].(status := status, lastHeartbeat := now)]
              else old(contents)
    {
      if id !in nodes {
        return false;
      }
      Put(id, status, now);
      return true;
    }

    method MarkOfflineIfStale(timeout: int, now: int)
      requires Valid()
      modifies this`contents, nodes.Values
      ensures Valid() && Isolated() && unchanged(this`nodes)
      ensures contents == MarkStale(old(contents), now, timeout)
      ensures contents.Keys == old(contents).Keys
      ensures forall id | id in contents ::
                var n := old(contents)[id];
                contents[id] ==
                  if n.status != Offline && n.lastHeartbeat + timeout < now then n.(status := Offline) else n
    {
      MarkAll(nodes.Values, timeout, now);
      contents := MarkStale(contents, now, timeout);
      forall id | id in nodes
        ensures nodes[id].profile.id == id && nodes[id].Info() == contents[id]
      {
        var n := nodes[id];
        assert n.lists.tags == old(n.lists.tags) && n.lists.skills == old(n.lists.skills);
        assert old(n.Info()) == old(contents)[id];
        assert n.Info() == Marked(old(n.Info()), now, timeout);
      }
    }
  }
}
