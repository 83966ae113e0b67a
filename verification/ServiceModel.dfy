/** Service configurations: defaults and validation. */
module ServiceModel {
  import opened Strings

  datatype BackendTarget = BackendTarget(addr: string, weight: int, tags: map<string, string>)

  datatype BackendGroup = BackendGroup(name: string, targets: seq<BackendTarget>)

  datatype ServiceRoute = ServiceRoute(hosts: seq<string>, prefix: string, dest: string, weight: int)

  datatype UdpPolicy = UdpPolicy(
    dialTimeoutMs: int, readTimeoutMs: int, writeTimeoutMs: int, sessionTtlMs: int, maxPacketSize: int)

  datatype Policy = Policy(
    layer: string, protocols: seq<string>, addr: string, port: int, udp: UdpPolicy,
    strategy: string, maxAttempts: int, budgetRatio: real, maxHops: int, sampleRate: int)

  datatype ServiceConfig = ServiceConfig(
    name: string, resourceVersion: int, routes: seq<ServiceRoute>, groups: seq<BackendGroup>, policy: Policy)

  // Defaults ---------------------------------------------------------------------------------------

  function Or(value: int, fallback: int): int { if value <= 0 then fallback else value }

  function DefaultProtocols(text: Text, layer: string): seq<string> {
    var l := text.Fold(layer);
    if l == "l4-tcp" then ["tcp"] else if l == "l4-udp" then ["udp"] else ["http"]
  }

  function DefaultPolicy(text: Text, p: Policy): Policy {
    var layer := if text.trim(p.layer) == "" then "l7-http" else p.layer;
    p.(addr := if text.trim(p.addr) == "" then "0.0.0.0" else p.addr,
       layer := layer,
       protocols := if p.protocols == [] then DefaultProtocols(text, layer) else p.protocols,
       sampleRate := Or(p.sampleRate, 1),
       udp := UdpPolicy(Or(p.udp.dialTimeoutMs, 2000), Or(p.udp.readTimeoutMs, 2000),
                        Or(p.udp.writeTimeoutMs, 2000), Or(p.udp.sessionTtlMs, 30000),
                        Or(p.udp.maxPacketSize, 65535)))
  }

  function DefaultRoute(r: ServiceRoute): ServiceRoute {
    r.(weight := if r.weight == 0 then 100 else r.weight, hosts := if r.hosts == [] then ["*"] else r.hosts)
  }

  function DefaultTarget(t: BackendTarget): BackendTarget { t.(weight := if t.weight == 0 then 100 else t.weight) }

  function DefaultGroup(g: BackendGroup): BackendGroup {
    g.(targets := seq(|g.targets|, i requires 0 <= i < |g.targets| => DefaultTarget(g.targets[i])))
  }

  function WithDefaults(text: Text, c: ServiceConfig): ServiceConfig {
    c.(policy := DefaultPolicy(text, c.policy),
       routes := seq(|c.routes|, i requires 0 <= i < |c.routes| => DefaultRoute(c.routes[i])),
       groups := seq(|c.groups|, i requires 0 <= i < |c.groups| => DefaultGroup(c.groups[i])))
  }

  method ApplyDefaults(text: Text, c: ServiceConfig) returns (r: ServiceConfig)
    ensures r == WithDefaults(text, c)
  {
    var routes: seq<ServiceRoute> := [];
    for i := 0 to |c.routes|
      invariant |routes| == i && forall k :: 0 <= k < i ==> routes[k] == DefaultRoute(c.routes[k])
    {
      routes := routes + [DefaultRoute(c.routes[i])];
    }
    var groups: seq<BackendGroup> := [];
    for i := 0 to |c.groups|
      invariant |groups| == i && forall k :: 0 <= k < i ==> groups[k] == DefaultGroup(c.groups[k])
    {
      var targets: seq<BackendTarget> := [];
      for j := 0 to |c.groups[i].targets|
        invariant |targets| == j && forall k :: 0 <= k < j ==> targets[k] == DefaultTarget(c.groups[i].targets[k])
      {
        targets := targets + [DefaultTarget(c.groups[i].targets[j])];
      }
      groups := groups + [c.groups[i].(targets := targets)];
    }
    r := c.(policy := DefaultPolicy(text, c.policy), routes := routes, groups := groups);
  }

  /** Defaulting again changes nothing: what BuildPlan relies on when it defaults stored configs. */
  lemma DefaultsAreIdempotent(text: Text, c: ServiceConfig)
    requires text.Laws() && text.trim("0.0.0.0") != "" && text.trim("l7-http") != ""
    ensures WithDefaults(text, WithDefaults(text, c)) == WithDefaults(text, c)
  {
    var d := WithDefaults(text, c);
    assert DefaultPolicy(text, d.policy) == d.policy;
    forall i | 0 <= i < |c.groups| ensures DefaultGroup(d.groups[i]) == d.groups[i] {
      assert DefaultGroup(d.groups[i]).targets == d.groups[i].targets;
    }
    assert WithDefaults(text, d).groups == d.groups;
    assert WithDefaults(text, d).routes == d.routes;
  }

  // Validation -------------------------------------------------------------------------------------

  predicate IsStrategyChar(c: char) { 'a' <= c <= 'z' || IsDigit(c) || c == '-' }

  predicate ValidStrategy(text: Text, strategy: string) {
    var s := text.Fold(strategy);
    s == "" || forall i :: 0 <= i < |s| ==> IsStrategyChar(s[i])
  }

  function ProtocolOf(layer: string): string {
    if layer == "l4-tcp" then "tcp" else if layer == "l4-udp" then "udp" else "http"
  }

  predicate ValidPolicy(text: Text, p: Policy) {
    var layer := text.trim(p.layer);
    && 1 <= p.port <= 65535
    && text.trim(p.addr) != "" && text.ipv4(text.trim(p.addr))
    && layer in {"l7-http", "l4-tcp", "l4-udp"}
    && ValidStrategy(text, p.strategy)
    && 1 <= p.sampleRate <= 10000
    && 1 <= p.udp.dialTimeoutMs <= 60000
    && 1 <= p.udp.readTimeoutMs <= 60000
    && 1 <= p.udp.writeTimeoutMs <= 60000
    && 100 <= p.udp.sessionTtlMs <= 3600000
    && 512 <= p.udp.maxPacketSize <= 65535
    && p.protocols != []
    && forall i :: 0 <= i < |p.protocols| ==> text.Fold(p.protocols[i]) == ProtocolOf(layer)
  }

  predicate ValidTarget(text: Text, t: BackendTarget) {
    text.trim(t.addr) != "" && text.hostPort(text.trim(t.addr)) && 1 <= t.weight <= 100
  }

  predicate ValidGroup(text: Text, g: BackendGroup) {
    && text.trim(g.name) != "" && g.targets != []
    && forall i :: 0 <= i < |g.targets| ==> ValidTarget(text, g.targets[i])
  }

  predicate ValidServiceRoute(text: Text, r: ServiceRoute) {
    && r.hosts != []
    && (forall i :: 0 <= i < |r.hosts| ==> text.trim(r.hosts[i]) != "")
    && "/" <= text.trim(r.prefix)
    && text.trim(r.dest) != ""
    && 1 <= r.weight <= 100
  }

  /** What a valid configuration is, all conditions at once. */
  predicate Valid(text: Text, c: ServiceConfig) {
    && text.trim(c.name) != ""
    && ValidPolicy(text, c.policy)
    && c.routes != []
    && (forall i :: 0 <= i < |c.groups| ==> ValidGroup(text, c.groups[i]))
    && (forall i, j :: 0 <= i < j < |c.groups| ==> text.trim(c.groups[i].name) != text.trim(c.groups[j].name))
    && (forall i :: 0 <= i < |c.routes| ==> ValidServiceRoute(text, c.routes[i]))
  }

  /** What is set is kept, and what is left out gets the documented value. */
  lemma DefaultsFillBlanks(text: Text, c: ServiceConfig)
    ensures var d := WithDefaults(text, c);
            && d.name == c.name && d.resourceVersion == c.resourceVersion
            && |d.routes| == |c.routes| && |d.groups| == |c.groups|
            && (forall i :: 0 <= i < |c.routes| ==>
                  && d.routes[i].prefix == c.routes[i].prefix && d.routes[i].dest == c.routes[i].dest
                  && (c.routes[i].hosts != [] ==> d.routes[i].hosts == c.routes[i].hosts)
                  && (c.routes[i].hosts == [] ==> d.routes[i].hosts == ["*"])
                  && (c.routes[i].weight != 0 ==> d.routes[i].weight == c.routes[i].weight)
                  && (c.routes[i].weight == 0 ==> d.routes[i].weight == 100))
            && (forall i :: 0 <= i < |c.groups| ==>
                  && d.groups[i].name == c.groups[i].name && |d.groups[i].targets| == |c.groups[i].targets|
                  && forall j :: 0 <= j < |c.groups[i].targets| ==>
                       var t, t' := c.groups[i].targets[j], d.groups[i].targets[j];
                       && t'.addr == t.addr && t'.tags == t.tags
                       && t'.weight == if t.weight != 0 then t.weight else 100)
  {}

  lemma PolicyDefaultsFillBlanks(text: Text, p: Policy)
    ensures var q := DefaultPolicy(text, p);
            && q.port == p.port && q.strategy == p.strategy && q.maxAttempts == p.maxAttempts
            && q.budgetRatio == p.budgetRatio && q.maxHops == p.maxHops
            && q.addr == (if text.trim(p.addr) != "" then p.addr else "0.0.0.0")
            && q.layer == (if text.trim(p.layer) != "" then p.layer else "l7-http")
            && q.sampleRate == (if p.sampleRate > 0 then p.sampleRate else 1)
            && q.udp.dialTimeoutMs == (if p.udp.dialTimeoutMs > 0 then p.udp.dialTimeoutMs else 2000)
            && q.udp.readTimeoutMs == (if p.udp.readTimeoutMs > 0 then p.udp.readTimeoutMs else 2000)
            && q.udp.writeTimeoutMs == (if p.udp.writeTimeoutMs > 0 then p.udp.writeTimeoutMs else 2000)
            && q.udp.sessionTtlMs == (if p.udp.sessionTtlMs > 0 then p.udp.sessionTtlMs else 30000)
            && q.udp.maxPacketSize == (if p.udp.maxPacketSize > 0 then p.udp.maxPacketSize else 65535)
            && (p.protocols != [] ==> q.protocols == p.protocols)
  {
    hide DefaultProtocols;
  }

  /** What the library functions do to the words configurations are written with. */
  ghost predicate PlainWords(text: Text) {
    && text.Laws()
    && (forall s :: s in {"0.0.0.0", "l7-http", "l4-tcp", "l4-udp", "*", "http", "tcp", "udp"} ==> text.trim(s) == s)
    && text.lower("http") == "http" && text.lower("tcp") == "tcp" && text.lower("udp") == "udp" && text.lower("") == ""
    && text.ipv4("0.0.0.0")
  }

  /** A service that only says its name, port and layer and has one route to somewhere is valid once its blanks
      are filled in, whichever layer it names, and also if it names none. */
  lemma BareServiceIsValid(text: Text, name: string, port: int, layer: string, prefix: string, dest: string)
    requires PlainWords(text) && layer in {"", "l7-http", "l4-tcp", "l4-udp"}
    requires text.trim(name) != "" && 1 <= port <= 65535 && "/" <= text.trim(prefix) && text.trim(dest) != ""
    ensures var c := ServiceConfig(name, 0, [ServiceRoute([], prefix, dest, 0)], [],
                                   Policy(layer, [], "", port, UdpPolicy(0, 0, 0, 0, 0), "", 0, 0.0, 0, 0));
            Valid(text, WithDefaults(text, c))
  {
    var c := ServiceConfig(name, 0, [ServiceRoute([], prefix, dest, 0)], [],
                           Policy(layer, [], "", port, UdpPolicy(0, 0, 0, 0, 0), "", 0, 0.0, 0, 0));
    var d := WithDefaults(text, c);
    BarePolicyIsValid(text, port, layer);
    BareRouteIsValid(text, prefix, dest);
    assert d.routes[0] == DefaultRoute(c.routes[0]) && |d.routes| == 1 && d.groups == [];
  }

  lemma BareRouteIsValid(text: Text, prefix: string, dest: string)
    requires PlainWords(text) && "/" <= text.trim(prefix) && text.trim(dest) != ""
    ensures ValidServiceRoute(text, DefaultRoute(ServiceRoute([], prefix, dest, 0)))
  {
    assert text.trim("*") == "*";
  }

  lemma BarePolicyIsValid(text: Text, port: int, layer: string)
    requires PlainWords(text) && layer in {"", "l7-http", "l4-tcp", "l4-udp"} && 1 <= port <= 65535
    ensures var bare := Policy(layer, [], "", port, UdpPolicy(0, 0, 0, 0, 0), "", 0, 0.0, 0, 0);
            ValidPolicy(text, DefaultPolicy(text, bare))
  {
    var p := DefaultPolicy(text, Policy(layer, [], "", port, UdpPolicy(0, 0, 0, 0, 0), "", 0, 0.0, 0, 0));
    assert text.trim("l7-http") == "l7-http" && text.trim("l4-tcp") == "l4-tcp" && text.trim("l4-udp") == "l4-udp";
    assert text.trim("0.0.0.0") == "0.0.0.0" && text.Fold("") == "";
    assert text.trim("http") == "http" && text.trim("tcp") == "tcp" && text.trim("udp") == "udp";
    assert p.addr == "0.0.0.0" && p.layer == if layer == "" then "l7-http" else layer;
    assert text.Fold(p.protocols[0]) == ProtocolOf(text.trim(p.layer));
  }

  ghost predicate PolicyInRange(text: Text, p: Policy) {
    && 1 <= p.port <= 65535 && text.trim(p.addr) != "" && text.ipv4(text.trim(p.addr))
    && 1 <= p.udp.dialTimeoutMs <= 60000 && 1 <= p.udp.readTimeoutMs <= 60000 && 1 <= p.udp.writeTimeoutMs <= 60000
    && 100 <= p.udp.sessionTtlMs <= 3600000 && 512 <= p.udp.maxPacketSize <= 65535
    && 1 <= p.sampleRate <= 10000
    && (forall c :: c in text.lower(text.trim(p.strategy)) ==> 'a' <= c <= 'z' || '0' <= c <= '9' || c == '-')
    && p.protocols != []
    && var (layer, protocol) := (text.trim(p.layer), text.lower(text.trim(p.protocols[0])));
       && (layer, protocol) in {("l7-http", "http"), ("l4-tcp", "tcp"), ("l4-udp", "udp")}
       && forall other :: other in p.protocols ==> text.lower(text.trim(other)) == protocol
  }

  ghost predicate RouteInRange(text: Text, r: ServiceRoute) {
    && 1 <= r.weight <= 100 && r.hosts != [] && text.trim(r.dest) != ""
    && text.trim(r.prefix) != "" && text.trim(r.prefix)[0] == '/'
    && forall h :: h in r.hosts ==> text.trim(h) != ""
  }

  ghost predicate TargetInRange(text: Text, t: BackendTarget) {
    text.hostPort(text.trim(t.addr)) && text.trim(t.addr) != "" && 1 <= t.weight <= 100
  }

  /** Exactly the configurations with every value in range, one protocol that fits the layer, and groups that have
      targets and names of their own are accepted; no value excuses another. */
  lemma ValidMeans(text: Text, c: ServiceConfig)
    requires text.lower("") == ""
    ensures Valid(text, c) <==>
              && text.trim(c.name) != "" && PolicyInRange(text, c.policy)
              && c.routes != [] && (forall r :: r in c.routes ==> RouteInRange(text, r))
              && (forall g :: g in c.groups ==>
                    text.trim(g.name) != "" && |g.targets| > 0 && forall t :: t in g.targets ==> TargetInRange(text, t))
              && (forall i, j :: 0 <= i < |c.groups| && 0 <= j < |c.groups| && i != j ==>
                    text.trim(c.groups[i].name) != text.trim(c.groups[j].name))
  {
    PolicyMeans(text, c.policy);
    forall r: ServiceRoute ensures ValidServiceRoute(text, r) <==> RouteInRange(text, r) {
      RouteMeans(text, r);
    }
    forall g: BackendGroup
      ensures ValidGroup(text, g) <==>
                text.trim(g.name) != "" && |g.targets| > 0 && forall t :: t in g.targets ==> TargetInRange(text, t)
    {
      GroupMeans(text, g);
    }
    hide ValidPolicy, PolicyInRange, ValidServiceRoute, RouteInRange, ValidGroup, TargetInRange;
    assert forall i :: 0 <= i < |c.routes| ==> c.routes[i] in c.routes;
    forall r | r in c.routes && (forall i :: 0 <= i < |c.routes| ==> ValidServiceRoute(text, c.routes[i]))
      ensures ValidServiceRoute(text, r)
    {
      var i :| 0 <= i < |c.routes| && c.routes[i] == r;
    }
    assert forall i :: 0 <= i < |c.groups| ==> c.groups[i] in c.groups;
    forall g | g in c.groups && (forall i :: 0 <= i < |c.groups| ==> ValidGroup(text, c.groups[i]))
      ensures ValidGroup(text, g)
    {
      var i :| 0 <= i < |c.groups| && c.groups[i] == g;
    }
  }

  lemma PolicyMeans(text: Text, p: Policy)
    requires text.lower("") == ""
    ensures ValidPolicy(text, p) <==> PolicyInRange(text, p)
  {
    var s := text.lower(text.trim(p.strategy));
    assert forall i :: 0 <= i < |s| ==> s[i] in s;
    assert forall i :: 0 <= i < |p.protocols| ==> p.protocols[i] in p.protocols;
    if ValidPolicy(text, p) {
      assert text.lower(text.trim(p.protocols[0])) == ProtocolOf(text.trim(p.layer));
    }
  }

  lemma RouteMeans(text: Text, r: ServiceRoute)
    ensures ValidServiceRoute(text, r) <==> RouteInRange(text, r)
  {
    assert (forall h :: h in r.hosts ==> text.trim(h) != "") <==>
           (forall i :: 0 <= i < |r.hosts| ==> text.trim(r.hosts[i]) != "");
  }

  lemma GroupMeans(text: Text, g: BackendGroup)
    ensures ValidGroup(text, g) <==>
              text.trim(g.name) != "" && |g.targets| > 0 && forall t :: t in g.targets ==> TargetInRange(text, t)
  {
    assert forall i :: 0 <= i < |g.targets| ==> g.targets[i] in g.targets;
    forall t | t in g.targets && (forall i :: 0 <= i < |g.targets| ==> ValidTarget(text, g.targets[i]))
      ensures TargetInRange(text, t)
    {
      var i :| 0 <= i < |g.targets| && g.targets[i] == t;
    }
  }

  method ValidateTargets(text: Text, g: BackendGroup) returns (ok: bool)
    ensures ok <==> forall i :: 0 <= i < |g.targets| ==> ValidTarget(text, g.targets[i])
  {
    for j := 0 to |g.targets|
      invariant forall k :: 0 <= k < j ==> ValidTarget(text, g.targets[k])
    {
      var t := g.targets[j];
      if text.trim(t.addr) == "" || !text.hostPort(text.trim(t.addr)) || t.weight < 1 || t.weight > 100 {
        assert !ValidTarget(text, g.targets[j]);
        return false;
      }
    }
    return true;
  }

  /** The checks one after the other, as the program makes them. */
  method Validate(text: Text, c: ServiceConfig) returns (ok: bool)
    ensures ok <==> Valid(text, c)
  {
    hide ValidPolicy, ValidTarget, ValidServiceRoute;
    if text.trim(c.name) == "" || !ValidPolicy(text, c.policy) || c.routes == [] {
      return false;
    }
    var names: set<string> := {};
    for i := 0 to |c.groups|
      invariant forall k :: 0 <= k < i ==> ValidGroup(text, c.groups[k])
      invariant names == set k | 0 <= k < i :: text.trim(c.groups[k].name)
      invariant forall k, l :: 0 <= k < l < i ==> text.trim(c.groups[k].name) != text.trim(c.groups[l].name)
    {
      var g := c.groups[i];
      var name := text.trim(g.name);
      if name == "" || name in names || g.targets == [] {
        return false;
      }
      names := names + {name};
      var targetsOk := ValidateTargets(text, g);
      if !targetsOk {
        assert !ValidGroup(text, c.groups[i]);
        return false;
      }
    }
    ok := ValidateRoutes(text, c.routes);
  }

  method ValidateRoutes(text: Text, routes: seq<ServiceRoute>) returns (ok: bool)
    ensures ok <==> forall i :: 0 <= i < |routes| ==> ValidServiceRoute(text, routes[i])
  {
    for i := 0 to |routes|
      invariant forall k :: 0 <= k < i ==> ValidServiceRoute(text, routes[k])
    {
      var r := routes[i];
      if r.hosts == [] {
        assert !ValidServiceRoute(text, routes[i]);
        return false;
      }
      for j := 0 to |r.hosts|
        invariant forall k :: 0 <= k < j ==> text.trim(r.hosts[k]) != ""
      {
        if text.trim(r.hosts[j]) == "" {
          assert !ValidServiceRoute(text, routes[i]);
          return false;
        }
      }
      if !("/" <= text.trim(r.prefix)) || text.trim(r.dest) == "" || r.weight < 1 || r.weight > 100 {
        assert !ValidServiceRoute(text, routes[i]);
        return false;
      }
    }
    return true;
  }
}
