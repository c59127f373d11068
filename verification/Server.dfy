/** The coordinator's handlers: what each request may change, and which status it answers. */
module Server {
  import opened MeshTypes
  import opened RuleList
  import opened RuleStore
  import opened Registry
  import opened Router
  import opened PrivateRange
  import Health
  import Mesh

  datatype RegisterRequest = RegisterRequest(
    name: string, endpoint: string, os: string, arch: string, gpu: bool, memoryGb: int,
    tags: seq<string>, skills: seq<string>)

  const PREFIX := "Bearer "
  const MAX_ID_RETRIES := 3

  // ---------- who may call ----------

  predicate KnownToken<K(!new)>(tokens: map<K, string>, token: string) {
    exists id :: id in tokens && tokens[id] == token
  }

  ghost predicate Authorized<K(!new)>(admin: string, tokens: map<K, string>, header: string) {
    || admin == ""
    || exists token | header == PREFIX + token :: token != "" && (token == admin || KnownToken(tokens, token))
  }

  lemma HeaderHasOneToken(token: string, header: string)
    requires header == PREFIX + token
    ensures |header| == |PREFIX| + |token| && header[..|PREFIX|] == PREFIX && header[|PREFIX|..] == token
  {
  }

  /** Removing a node whose token is filed stops that token from working, unless another node has the
      same one or it is the admin token, and only then. */
  lemma RemovalRevokes(admin: string, tokens: map<string, string>, id: string)
    requires admin != "" && id in tokens && tokens[id] != ""
    ensures var header := PREFIX + tokens[id];
            && Authorized(admin, tokens, header)
            && (Authorized(admin, tokens - {id}, header) <==>
                  tokens[id] == admin || exists other | other in tokens :: other != id && tokens[other] == tokens[id])
  {
    var token, header, fewer := tokens[id], PREFIX + tokens[id], tokens - {id};
    HeaderHasOneToken(token, header);
    assert KnownToken(tokens, token);
    forall t | header == PREFIX + t
      ensures t == token
    {
      HeaderHasOneToken(t, header);
    }
    if KnownToken(fewer, token) {
      var other :| other in fewer && fewer[other] == token;
      assert other in tokens && other != id && tokens[other] == token;
    }
    if other :| other in tokens && other != id && tokens[other] == token {
      assert other in fewer && fewer[other] == token;
    }
  }

  /** The protocol's check of a token is this one, under any way of writing tokens as text in which only
      the empty token is empty and different tokens differ. */
  lemma SameCheckAsProtocol(c: Mesh.Config, s: Mesh.State, token: Mesh.Token, text: Mesh.Token -> string)
    requires text(Mesh.NO_TOKEN) == "" && forall a, b :: text(a) == text(b) ==> a == b
    ensures Authorized(text(c.adminToken), map id | id in s.tokens :: text(s.tokens[id]), PREFIX + text(token)) <==>
              Mesh.Authorized(c, s, token)
  {
    var tokens := map id | id in s.tokens :: text(s.tokens[id]);
    var header := PREFIX + text(token);
    forall t | header == PREFIX + t
      ensures t == text(token)
    {
      HeaderHasOneToken(t, header);
      HeaderHasOneToken(text(token), header);
    }
    if id :| id in s.tokens && s.tokens[id] == token {
      assert id in tokens && tokens[id] == text(token);
    }
    if KnownToken(tokens, text(token)) {
      var id :| id in tokens && tokens[id] == text(token);
      assert text(s.tokens[id]) == text(token);
    }
  }

  /** With an admin token set, no header passes that is not the prefix and a token: not the prefix alone,
      although an unset token is the empty text. */
  lemma BareHeaderIsRefused(admin: string, tokens: map<string, string>, header: string)
    requires admin != "" && (|header| <= 7 || header[..7] != "Bearer ")
    ensures !Authorized(admin, tokens, header)
  {
    forall token | header == PREFIX + token
      ensures token == ""
    {
      HeaderHasOneToken(token, header);
    }
  }

  // ---------- ids ----------

  /** The generator gives up at the first failed draw, and after `MAX_ID_RETRIES` taken ids. */
  predicate FirstFree(draws: seq<Option<string>>, taken: set<string>, i: nat) {
    && i < |draws| && draws[i].Some? && draws[i].value !in taken
    && forall j :: 0 <= j < i ==> draws[j].Some? && draws[j].value in taken
  }

  method GenerateUniqueId(draws: seq<Option<string>>, taken: set<string>) returns (id: Option<string>)
    requires |draws| == 3
    ensures id.Some? ==> exists i: nat :: FirstFree(draws, taken, i) && id == draws[i]
    ensures id.None? ==> forall i: nat :: !FirstFree(draws, taken, i)
  {
    for i := 0 to MAX_ID_RETRIES
      invariant forall j :: 0 <= j < i ==> draws[j].Some? && draws[j].value in taken
    {
      if draws[i].None? {
        return None;
      }
      if draws[i].value !in taken {
        assert FirstFree(draws, taken, i);
        return draws[i];
      }
    }
    return None;
  }

  // ---------- endpoints ----------

  type FourBytes = b: seq<Byte> | |b| == 4 witness [0, 0, 0, 0]

  /** A parsed address: whether the library calls it loopback or link-local, and its four bytes if it
      has an IPv4 form. */
  datatype Ip = Ip(special: bool, v4: Option<FourBytes>)

  /** What the library makes of an endpoint: its host and port, the host as an address, and otherwise
      the addresses its name resolves to, some of which may not parse. */
  datatype Lookup = Lookup(split: Option<(string, string)>, ip: Option<Ip>, resolved: Option<seq<Option<Ip>>>)

  predicate IsPrivate(ip: Ip) {
    ip.special || (ip.v4.Some? && InPrivateBlock(Numeric(ip.v4.value)))
  }

  /** A host that is an address counts by that address; a name counts by any of its addresses, and not
      at all if it does not resolve. */
  predicate MeetsPrivate(net: Lookup) {
    match net.ip
    case Some(ip) => IsPrivate(ip)
    case None => net.resolved.Some? && exists a :: a in net.resolved.value && a.Some? && IsPrivate(a.value)
  }

  predicate EndpointAllowed(endpoint: string, net: Lookup, allowPrivate: bool) {
    && net.split.Some? && net.split.value.0 != "" && net.split.value.1 != ""
    && '/' !in endpoint
    && (allowPrivate || !MeetsPrivate(net))
  }

  predicate PrivateByOctets(ip: Ip) {
    || ip.special
    || (ip.v4.Some? &&
        var b := ip.v4.value; b[0] == 10 || (b[0] == 172 && 16 <= b[1] <= 31) || (b[0] == 192 && b[1] == 168))
  }

  /** An endpoint is refused if and only if it has no host, no port or a slash, or private endpoints are not
      allowed and it is a private address itself, or is a name for at least one. */
  lemma RefusedEndpoints(endpoint: string, net: Lookup, allowPrivate: bool)
    ensures !EndpointAllowed(endpoint, net, allowPrivate) <==>
              || net.split.None? || net.split.value.0 == "" || net.split.value.1 == ""
              || (exists i :: 0 <= i < |endpoint| && endpoint[i] == '/')
              || (!allowPrivate && net.ip.Some? && PrivateByOctets(net.ip.value))
              || (!allowPrivate && net.ip.None? && net.resolved.Some?
                  && exists ip :: Some(ip) in net.resolved.value && PrivateByOctets(ip))
  {
    forall ip: Ip
      ensures IsPrivate(ip) <==> PrivateByOctets(ip)
    {
      if ip.v4.Some? {
        PrivateBlocksByOctets(ip.v4.value);
      }
    }
    if net.resolved.Some? {
      if a :| a in net.resolved.value && a.Some? && IsPrivate(a.value) {
        assert Some(a.value) in net.resolved.value && PrivateByOctets(a.value);
      }
      if ip :| Some(ip) in net.resolved.value && PrivateByOctets(ip) {
        assert Some(ip) in net.resolved.value && IsPrivate(ip);
      }
    }
  }

  method ValidateEndpoint(endpoint: string, net: Lookup, allowPrivate: bool) returns (ok: bool)
    ensures ok <==> EndpointAllowed(endpoint, net, allowPrivate)
  {
    if net.split.None? {
      return false;
    }
    var (host, port) := net.split.value;
    if host == "" || port == "" {
      return false;
    }
    for i := 0 to |endpoint|
      invariant '/' !in endpoint[..i]
    {
      if endpoint[i] == '/' {
        return false;
      }
    }
    assert endpoint[..|endpoint|] == endpoint;
    if allowPrivate {
      return true;
    }
    if net.ip.Some? {
      var private := IsPrivateIp(net.ip.value.special, net.ip.value.v4);
      return !private;
    }
    if net.resolved.None? {
      return true;
    }
    var addrs := net.resolved.value;
    for i := 0 to |addrs|
      invariant forall j :: 0 <= j < i ==> !(addrs[j].Some? && IsPrivate(addrs[j].value))
    {
      if addrs[i].Some? {
        var private := IsPrivateIp(addrs[i].value.special, addrs[i].value.v4);
        if private {
          return false;
        }
      }
    }
    return true;
  }

  /** The records after one event of the sequences that the health checker's results are about. */
  ghost function After(nodes: map<string, NodeInfo>, e: Health.Event): map<string, NodeInfo> {
    Health.Step(Health.Watch(nodes, map[]), e).nodes
  }

  class Server {
    const registry: Registry
    const router: Router
    const admin: string
    const allowPrivate: bool

    constructor (registry: Registry, router: Router, admin: string, allowPrivate: bool)
      ensures this.registry == registry && this.router == router
      ensures this.admin == admin && this.allowPrivate == allowPrivate
    {
      this.registry, this.router, this.admin, this.allowPrivate := registry, router, admin, allowPrivate;
    }

    method RequireAuth(header: string) returns (ok: bool)
      ensures ok <==> Authorized(admin, registry.nodeTokens, header)
    {
      if admin == "" {
        return true;
      }
      if |header| <= |PREFIX| || header[..|PREFIX|] != PREFIX {
        forall token | header == PREFIX + token
          ensures token == ""
        {
          HeaderHasOneToken(token, header);
        }
        return false;
      }
      var token := header[|PREFIX|..];
      assert header == PREFIX + token;
      forall t | header == PREFIX + t
        ensures t == token
      {
        HeaderHasOneToken(t, header);
      }
      if token == admin {
        return true;
      }
      ok := registry.ValidateNodeToken(token);
    }

    /** The checks of a registration, and the id and token it will get. `net` is what the library makes
        of the endpoint, `draws` and `token` are the outcomes of the random generator. */
    method PrepareRegistration(req: Option<RegisterRequest>, net: Lookup, draws: seq<Option<string>>,
        token: Option<string>)
      returns (status: int, id: string)
      requires |draws| == 3
      ensures status in {201, 400, 500}
      ensures status == 400 <==>
                || req.None? || req.value.name == "" || req.value.endpoint == ""
                || !EndpointAllowed(req.value.endpoint, net, allowPrivate)
      ensures status == 201 ==>
              token.Some? && exists i: nat :: FirstFree(draws, registry.nodes.Keys, i) && draws[i] == Some(id)
      ensures status == 500 ==> token.None? || forall i: nat :: !FirstFree(draws, registry.nodes.Keys, i)
    {
      id := "";
      if req.None? || req.value.name == "" || req.value.endpoint == "" {
        return 400, id;
      }
      var allowed := ValidateEndpoint(req.value.endpoint, net, allowPrivate);
      if !allowed {
        return 400, id;
      }
      var drawn := GenerateUniqueId(draws, registry.nodes.Keys);
      if drawn.None? || token.None? {
        return 500, id;
      }
      return 201, drawn.value;
    }

    /** The first of the two locked regions of a registration. The id was free when it was drawn, but
        another registration may have taken it since. */
    method AddNode(req: RegisterRequest, id: string, now: int) returns (status: int)
      requires registry.Valid()
      modifies registry
      ensures registry.Valid() && registry.Isolated()
      ensures status == if id in old(registry.contents) then 409 else 201
      ensures var n := NodeInfo(Profile(id, req.name, req.endpoint, req.os, req.arch, req.gpu, req.memoryGb),
                                req.tags, req.skills, Online, now);
              && (status == 201 ==> registry.contents == old(registry.contents)[id := n])
              && (status == 409 ==> registry.contents == old(registry.contents))
              && registry.contents == After(old(registry.contents), Health.Joined(n))
      ensures registry.nodeTokens == old(registry.nodeTokens)
    {
      var node := new Node(NodeInfo(
        Profile(id, req.name, req.endpoint, req.os, req.arch, req.gpu, req.memoryGb), req.tags, req.skills, Online,
          now));
      var ok := registry.Add(node);
      return if ok then 201 else 409;
    }

    /** The second one, after which the agent is answered: the token is filed whether or not the node is
        still there. */
    method FileToken(id: string, token: string)
      requires registry.Valid()
      modifies registry`nodeTokens
      ensures registry.Valid() && registry.Isolated() && registry.GetNodeToken(id) == token
      ensures registry.nodeTokens == old(registry.nodeTokens)[id := token]
    {
      registry.SetNodeToken(id, token);
    }

    method HandleDeregister(id: string) returns (status: int)
      requires registry.Valid()
      modifies registry
      ensures registry.Valid() && registry.Isolated()
      ensures status == if id in old(registry.contents) then 204 else 404
      ensures registry.contents == old(registry.contents) - {id} == After(old(registry.contents), Health.Left(id))
      ensures registry.nodeTokens == if status == 204 then old(registry.nodeTokens) - {id} else old(registry.nodeTokens)
      ensures status == 204 ==> registry.GetNodeToken(id) == ""
    {
      var ok := registry.Remove(id);
      return if ok then 204 else 404;
    }

    /** A malformed body is `None`. */
    method HandleHeartbeat(id: string, status: Option<NodeStatus>, now: int) returns (answer: int)
      requires registry.Valid()
      modifies registry`contents, registry.nodes.Values
      ensures registry.Valid() && registry.Isolated()
      ensures answer ==
                if status.None? || status.value !in {Online, Busy, Offline} then 400
                else if id !in old(registry.contents) then 404 else 204
      ensures registry.contents ==
                if answer == 204
                then old(registry.contents)[
                  id := old(registry.contents)[id].(status := status.value, lastHeartbeat := now)]
                else old(registry.contents)
      ensures answer in {204, 404} ==>
                registry.contents == After(old(registry.contents), Health.Heartbeat(id, status.value, now))
    {
      if status.None? || !ValidNodeStatus(status.value) {
        return 400;
      }
      var ok := registry.RecordHeartbeat(id, status.value, now);
      return if ok then 204 else 404;
    }

    /** The rule stays in memory when saving it fails, although the caller is told it was not added. */
    method HandleAddRule(rule: Option<RoutingRule>, freshId: Option<string>, io: SaveIo) returns (status: int)
      requires router.Valid() && (router.store != null ==> router.store.disk.Valid())
      modifies router, router.data, if router.store == null then {} else {router.store.disk}
      ensures router.Valid() && router.Isolated() && (router.store != null ==> router.store.disk.Valid())
      ensures status ==
                if rule.None? || !ValidRule(rule.value) then 400
                else if freshId.None? || (router.store != null && SaveFailure(io).Some?) then 500 else 201
      ensures router.Rules() ==
                if status == 400 || freshId.None? then old(router.Rules())
                else old(router.Rules()) + [rule.value.(id := freshId.value)]
      ensures router.store != null ==>
                MainFile(router.store.disk.files) ==
                  if status == 201 then Some(Whole(router.Rules())) else MainFile(old(router.store.disk.files))
      ensures ValidRules(old(router.Rules())) ==> ValidRules(router.Rules())
    {
      if rule.None? {
        return 400;
      }
      ValidateAcceptsExactly(rule.value);
      if ValidateRule(rule.value).Some? {
        return 400;
      }
      var err := router.AddRule(rule.value, freshId, io);
      return if err.Some? then 500 else 201;
    }

    method HandleDeleteRule(id: string, io: SaveIo) returns (status: int)
      requires router.Valid() && (router.store != null ==> router.store.disk.Valid())
      modifies router, router.data, if router.store == null then {} else {router.store.disk}
      ensures router.Valid() && router.Isolated() && (router.store != null ==> router.store.disk.Valid())
      ensures status ==
                if !HasId(old(router.Rules()), id) then 404
                else if router.store != null && SaveFailure(io).Some? then 500 else 204
      ensures router.Rules() == RemoveFirst(old(router.Rules()), id)
      ensures router.store != null ==>
                MainFile(router.store.disk.files) ==
                  if status == 204 then Some(Whole(router.Rules())) else MainFile(old(router.store.disk.files))
      ensures ValidRules(old(router.Rules())) ==> ValidRules(router.Rules())
    {
      ghost var before := router.Rules();
      var found, err := router.RemoveRule(id, io);
      if ValidRules(before) {
        RemoveKeepsValid(before, id);
      }
      return if err.Some? then 500 else if !found then 404 else 204;
    }
  }
}
