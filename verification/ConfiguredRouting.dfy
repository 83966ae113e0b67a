/** What a plan answers, said in terms of the configurations and of the request as sent. */
module ConfiguredRouting {
  import opened Strings
  import opened Wrappers
  import opened Sequences
  import opened ServiceModel
  import opened RouteIndex
  import opened RouteTheorems
  import opened PlanCompiler
  import opened PlanTheorems
  import Balancing

  ghost predicate HasLayer(text: Text, c: ServiceConfig, layer: string) {
    text.lower(text.trim(c.policy.layer)) == layer
  }

  ghost predicate ListensAt(text: Text, c: ServiceConfig, addr: string, port: int) {
    text.trim(c.policy.addr) == text.trim(addr) && c.policy.port == port
  }

  /** Listener keys tell trimmed address and port. */
  lemma KeyMeans(text: Text, addr: string, port: int, addr': string, port': int)
    ensures ListenerMapKey(text, addr, port) == ListenerMapKey(text, addr', port') <==>
              text.trim(addr) == text.trim(addr') && port == port'
  {
    hide Itoa;
    if ListenerMapKey(text, addr, port) == ListenerMapKey(text, addr', port') {
      assert forall i :: 0 <= i < |Itoa(port)| ==> Itoa(port)[i] != ':';
      assert forall i :: 0 <= i < |Itoa(port')| ==> Itoa(port')[i] != ':';
      SplitAtLast(text.trim(addr), Itoa(port), text.trim(addr'), Itoa(port'), ':');
      ItoaInjective(port, port');
    }
  }

  /** Two services clash exactly when they listen at one address and port, and both on UDP, or neither on UDP
      and at least one on TCP. */
  lemma ClashMeans(text: Text, a: ServiceConfig, b: ServiceConfig)
    ensures !MayCoexist(text, a, b) <==>
              && ListensAt(text, a, b.policy.addr, b.policy.port)
              && (HasLayer(text, a, "l4-udp") <==> HasLayer(text, b, "l4-udp"))
              && (HasLayer(text, a, "l4-udp") || HasLayer(text, a, "l4-tcp") || HasLayer(text, b, "l4-tcp"))
  {
    hide ListenerMapKey;
    KeyMeans(text, a.policy.addr, a.policy.port, b.policy.addr, b.policy.port);
  }

  // Hosts -------------------------------------------------------------------------------------------------

  /** `name` is the host without what follows a colon, in the form in which hosts are compared. */
  ghost predicate HostNamed(text: Text, host: string, name: string) {
    && ':' !in name && |name| <= |text.lower(text.trim(host))|
    && text.lower(text.trim(host))[..|name|] == name
    && (|name| == |text.lower(text.trim(host))| || text.lower(text.trim(host))[|name|] == ':')
  }

  lemma {:induction false} ColonEnds(s: string, name: string)
    requires ':' !in name && |name| <= |s| && s[..|name|] == name && (|name| == |s| || s[|name|] == ':')
    ensures UpToColon(s) == name
  {
    if name != "" {
      assert s[0] == name[0];
      assert s[1..][..|name| - 1] == name[1..] && ':' !in name[1..];
      ColonEnds(s[1..], name[1..]);
      assert [name[0]] + name[1..] == name;
    }
  }

  lemma HostIsName(text: Text, host: string, name: string)
    requires HostNamed(text, host, name)
    ensures NormalizeHost(text, host) == name
  {
    ColonEnds(text.lower(text.trim(host)), name);
  }

  /** A request gets the same answer with and without the port in its host, and in any case the program folds. */
  lemma PortIsIgnored(text: Text, p: Plan, addr: string, port: int, host: string, host': string, name: string,
                      path: string)
    requires HostNamed(text, host, name) && HostNamed(text, host', name)
    ensures Answer(text, p, addr, port, host, path) == Answer(text, p, addr, port, host', path)
  {
    hide ListenerMapKey, IndexMatch, ScanMatch, Render;
    HostIsName(text, host, name);
    HostIsName(text, host', name);
  }

  // Routes ------------------------------------------------------------------------------------------------

  /** Some HTTP service at the listener has the route. */
  ghost predicate Offered(text: Text, cs: seq<ServiceConfig>, addr: string, port: int, c: ServiceConfig,
                          rt: ServiceRoute)
  {
    && c in cs && rt in c.routes && ListensAt(text, c, addr, port)
    && !HasLayer(text, c, "l4-tcp") && !HasLayer(text, c, "l4-udp")
  }

  ghost predicate Lists(text: Text, rt: ServiceRoute, name: string) {
    exists i :: 0 <= i < |rt.hosts| && text.lower(text.trim(rt.hosts[i])) == name
  }

  /** Two for a route that lists the host, one for a route open to all. */
  ghost function Rank(text: Text, rt: ServiceRoute, name: string): int {
    if Lists(text, rt, name) then 2 else if Lists(text, rt, "*") then 1 else 0
  }

  ghost predicate Suits(text: Text, rt: ServiceRoute, name: string, path: string) {
    Rank(text, rt, name) > 0 && |rt.prefix| <= |path| && path[..|rt.prefix|] == rt.prefix
  }

  /** Listed hosts before open ones, then the longer prefix, the larger weight, the smaller service name, the
      smaller destination. */
  ghost predicate NoBetter(text: Text, name: string, x: ServiceConfig, xr: ServiceRoute, c: ServiceConfig,
                           rt: ServiceRoute)
  {
    || Rank(text, xr, name) < Rank(text, rt, name)
    || (Rank(text, xr, name) == Rank(text, rt, name)
        && (|| |xr.prefix| < |rt.prefix|
            || (|xr.prefix| == |rt.prefix|
                && (|| xr.weight < rt.weight
                    || (xr.weight == rt.weight
                        && (|| Less(c.name, x.name)
                            || (c.name == x.name && (Less(rt.dest, xr.dest) || rt.dest == xr.dest))))))))
  }

  lemma RoutesAtMeans(text: Text, cs: seq<ServiceConfig>, key: string, r: RouteBinding)
    ensures r in RoutesAt(text, cs, key) <==>
            exists c, rt :: c in cs && rt in c.routes && Serves(text, c, key) && r == RouteOf(c.name)(rt)
  {
    hide ListenerMapKey, KindOf;
    InFlatMap(cs, RoutesFor(text, key), r);
    if r in RoutesAt(text, cs, key) {
      var i :| 0 <= i < |cs| && r in RoutesFor(text, key)(cs[i]);
      var j :| 0 <= j < |RoutesOf(cs[i])| && RoutesOf(cs[i])[j] == r;
      assert cs[i] in cs && cs[i].routes[j] in cs[i].routes;
    }
    if c, rt :| c in cs && rt in c.routes && Serves(text, c, key) && r == RouteOf(c.name)(rt) {
      var i :| 0 <= i < |cs| && cs[i] == c;
      var j :| 0 <= j < |c.routes| && c.routes[j] == rt;
      assert RoutesOf(c)[j] == r && r in RoutesFor(text, key)(cs[i]);
    }
  }

  lemma ServesMeans(text: Text, c: ServiceConfig, addr: string, port: int)
    requires text.Laws()
    ensures Serves(text, c, ListenerMapKey(text, text.trim(addr), port)) <==>
              ListensAt(text, c, addr, port) && !HasLayer(text, c, "l4-tcp") && !HasLayer(text, c, "l4-udp")
  {
    hide ListenerMapKey;
    KeyMeans(text, c.policy.addr, c.policy.port, text.trim(addr), port);
  }

  lemma MatchesMeans(text: Text, service: string, rt: ServiceRoute, name: string, path: string)
    ensures Matches(text, RouteOf(service)(rt), name, path) <==> Suits(text, rt, name, path)
    ensures HostScore(text, rt.hosts, name) == Rank(text, rt, name)
  {
    assert Lists(text, rt, name) <==> Names(text, rt.hosts, name);
    assert Lists(text, rt, "*") <==> Names(text, rt.hosts, "*");
    assert rt.prefix <= path <==> |rt.prefix| <= |path| && path[..|rt.prefix|] == rt.prefix;
  }

  lemma NotBeforeMeans(text: Text, name: string, x: ServiceConfig, xr: ServiceRoute, c: ServiceConfig, rt: ServiceRoute)
    requires Rank(text, xr, name) <= Rank(text, rt, name)
    requires Rank(text, xr, name) == Rank(text, rt, name) ==> !Before(RouteOf(x.name)(xr), RouteOf(c.name)(rt))
    ensures NoBetter(text, name, x, xr, c, rt)
  {
    hide Rank, Less;
    LessTotal(x.name, c.name);
    LessTotal(xr.dest, rt.dest);
  }

  /** The answer names the service, the destination and the prefix of the best route offered at the listener for
      the host without its port, and there is one exactly when some route offered there suits. */
  lemma AnswerIsBestOffer(text: Text, cs: seq<ServiceConfig>, p: Plan, addr: string, port: int, host: string,
                          name: string, path: string)
    requires text.Laws() && Compiles(text, cs) && Describes(text, cs, p) && Indexed(text, p)
    requires HostNamed(text, host, name)
    ensures Answer(text, p, addr, port, host, path).Some? <==>
              exists c, rt :: Offered(text, cs, addr, port, c, rt) && Suits(text, rt, name, path)
    ensures Answer(text, p, addr, port, host, path).Some? ==>
              exists c, rt ::
                && Offered(text, cs, addr, port, c, rt) && Suits(text, rt, name, path)
                && Tells(text, Answer(text, p, addr, port, host, path).value, addr, port, c, rt)
                && IsBest(text, cs, addr, port, name, path, c, rt)
  {
    hide Compiles, Describes, Indexed, Answer, ListenerMapKey, IsOptimal, Matches, Suits, NormalizeHost;
    HostIsName(text, host, name);
    AnswerIsOptimal(text, cs, p, addr, port, host, path);
    OffersAreRoutes(text, cs, addr, port, name, path);
    if Answer(text, p, addr, port, host, path).Some? {
      var key := ListenerMapKey(text, text.trim(addr), port);
      ListenerIsAsked(text, cs, p, addr, port, host, path);
      var r :| IsOptimal(text, multiset(RoutesAt(text, cs, key)), name, path, r)
        && Answer(text, p, addr, port, host, path) == Render(p.listeners[key].listener, Some(r));
      BestOfferOf(text, cs, addr, port, name, path, r, p.listeners[key].listener);
    }
  }

  /** The answer carries the listener, and service, destination and prefix of the route. */
  ghost predicate Tells(text: Text, m: MatchResult, addr: string, port: int, c: ServiceConfig, rt: ServiceRoute) {
    && text.trim(m.listener.addr) == text.trim(addr) && m.listener.port == port
    && m.service == c.name && m.dest == rt.dest && m.prefix == rt.prefix
  }

  ghost predicate IsBest(text: Text, cs: seq<ServiceConfig>, addr: string, port: int, name: string, path: string,
                         c: ServiceConfig, rt: ServiceRoute)
  {
    forall x, xr :: Offered(text, cs, addr, port, x, xr) && Suits(text, xr, name, path) ==>
      NoBetter(text, name, x, xr, c, rt)
  }

  lemma OffersAreRoutes(text: Text, cs: seq<ServiceConfig>, addr: string, port: int, name: string, path: string)
    requires text.Laws()
    ensures var routes := multiset(RoutesAt(text, cs, ListenerMapKey(text, text.trim(addr), port)));
            (exists r :: r in routes && Matches(text, r, name, path)) <==>
            exists c, rt :: Offered(text, cs, addr, port, c, rt) && Suits(text, rt, name, path)
  {
    hide ListenerMapKey, Matches, Suits, KindOf, HasLayer, ListensAt;
    var key := ListenerMapKey(text, text.trim(addr), port);
    var routes := multiset(RoutesAt(text, cs, key));
    if r :| r in routes && Matches(text, r, name, path) {
      RoutesAtMeans(text, cs, key, r);
      var c, rt :| c in cs && rt in c.routes && Serves(text, c, key) && r == RouteOf(c.name)(rt);
      ServesMeans(text, c, addr, port);
      MatchesMeans(text, c.name, rt, name, path);
      assert Offered(text, cs, addr, port, c, rt);
    }
    if c, rt :| Offered(text, cs, addr, port, c, rt) && Suits(text, rt, name, path) {
      OfferIsRoute(text, cs, addr, port, c, rt, name, path);
    }
  }

  lemma OfferIsRoute(text: Text, cs: seq<ServiceConfig>, addr: string, port: int, c: ServiceConfig, rt: ServiceRoute,
                     name: string, path: string)
    requires text.Laws() && Offered(text, cs, addr, port, c, rt) && Suits(text, rt, name, path)
    ensures var r := RouteOf(c.name)(rt);
            && r in multiset(RoutesAt(text, cs, ListenerMapKey(text, text.trim(addr), port)))
            && Matches(text, r, name, path) && HostScore(text, r.hosts, name) == Rank(text, rt, name)
  {
    hide ListenerMapKey, Matches, Suits, KindOf, HasLayer, ListensAt;
    ServesMeans(text, c, addr, port);
    MatchesMeans(text, c.name, rt, name, path);
    RoutesAtMeans(text, cs, ListenerMapKey(text, text.trim(addr), port), RouteOf(c.name)(rt));
  }

  lemma BestOfferOf(text: Text, cs: seq<ServiceConfig>, addr: string, port: int, name: string, path: string,
                    r: RouteBinding, l: ListenerKey)
    requires text.Laws() && text.trim(l.addr) == text.trim(addr) && l.port == port
    requires IsOptimal(text, multiset(RoutesAt(text, cs, ListenerMapKey(text, text.trim(addr), port))), name, path, r)
    ensures exists c, rt ::
              && Offered(text, cs, addr, port, c, rt) && Suits(text, rt, name, path)
              && Tells(text, Render(l, Some(r)).value, addr, port, c, rt)
              && IsBest(text, cs, addr, port, name, path, c, rt)
  {
    hide ListenerMapKey, Matches, Suits, KindOf, HasLayer, ListensAt, Rank, Before;
    var key := ListenerMapKey(text, text.trim(addr), port);
    RoutesAtMeans(text, cs, key, r);
    var c, rt :| c in cs && rt in c.routes && Serves(text, c, key) && r == RouteOf(c.name)(rt);
    ServesMeans(text, c, addr, port);
    MatchesMeans(text, c.name, rt, name, path);
    forall x, xr | Offered(text, cs, addr, port, x, xr) && Suits(text, xr, name, path)
      ensures NoBetter(text, name, x, xr, c, rt)
    {
      OfferIsRoute(text, cs, addr, port, x, xr, name, path);
      NotBeforeMeans(text, name, x, xr, c, rt);
    }
    assert Offered(text, cs, addr, port, c, rt);
  }

  lemma ListenerIsAsked(text: Text, cs: seq<ServiceConfig>, p: Plan, addr: string, port: int, host: string,
                        path: string)
    requires text.Laws() && Describes(text, cs, p) && Answer(text, p, addr, port, host, path).Some?
    ensures var key := ListenerMapKey(text, text.trim(addr), port);
            && key in p.listeners
            && text.trim(p.listeners[key].listener.addr) == text.trim(addr) && p.listeners[key].listener.port == port
  {
    hide ListenerMapKey, KindOf, IndexMatch, ScanMatch, NormalizeHost, GroupTables, PolicyTables, BindingTable;
    var key := ListenerMapKey(text, text.trim(addr), port);
    var c :| c in cs && Serves(text, c, key) && p.listeners[key].listener == ListenerOf(c);
    KeyMeans(text, c.policy.addr, c.policy.port, text.trim(addr), port);
  }

  // Layer 4 ------------------------------------------------------------------------------------------------

  ghost predicate BindsTo(b: Binding, c: ServiceConfig) {
    && b.listener.addr == c.policy.addr && b.listener.port == c.policy.port
    && b.service == c.name && (c.routes != [] ==> b.dest == c.routes[0].dest)
  }

  /** Every TCP and every UDP service is bound at its listener to the destination of its first route, and
      nothing else is bound. */
  lemma BindingsMean(text: Text, cs: seq<ServiceConfig>, p: Plan, addr: string, port: int)
    requires text.Laws() && Describes(text, cs, p)
    ensures forall c :: c in cs && ListensAt(text, c, addr, port) && HasLayer(text, c, "l4-tcp") ==>
              BindingAt(text, p.tcp, addr, port).Some? && BindsTo(BindingAt(text, p.tcp, addr, port).value, c)
    ensures forall c :: c in cs && ListensAt(text, c, addr, port) && HasLayer(text, c, "l4-udp") ==>
              BindingAt(text, p.udp, addr, port).Some? && BindsTo(BindingAt(text, p.udp, addr, port).value, c)
    ensures BindingAt(text, p.tcp, addr, port).Some? ==>
              exists c :: c in cs && ListensAt(text, c, addr, port) && HasLayer(text, c, "l4-tcp")
    ensures BindingAt(text, p.udp, addr, port).Some? ==>
              exists c :: c in cs && ListensAt(text, c, addr, port) && HasLayer(text, c, "l4-udp")
  {
    hide ListenerMapKey, RouteTables, GroupTables, PolicyTables;
    forall c: ServiceConfig
      ensures KeyOf(text, c) == ListenerMapKey(text, text.trim(addr), port) <==> ListensAt(text, c, addr, port)
    {
      KeyMeans(text, c.policy.addr, c.policy.port, text.trim(addr), port);
    }
  }

  // Groups and services ------------------------------------------------------------------------------------

  /** Lower case is lower case already, and so are the names strategies are filed under. */
  ghost predicate PlainStrategies(text: Text) {
    && (forall s :: text.Fold(text.Fold(s)) == text.Fold(s))
    && text.Fold("load-first") == "load-first" && text.Fold("round-robin") == "round-robin"
    && text.Fold("random") == "random"
  }

  /** Every backend group is found under its trimmed name, balanced by the strategy its service asks for and with
      its relay targets' addresses on record, and no other group is found. */
  lemma GroupsMean(text: Text, cs: seq<ServiceConfig>, p: Plan, name: string)
    requires Describes(text, cs, p) && PlainStrategies(text)
    ensures forall c, g :: c in cs && g in c.groups && text.trim(g.name) == name ==>
              && name in p.groups && p.groups[name] == g
              && name in p.strategies
              && Balancing.StrategyOf(text, p.strategies[name]) == Balancing.StrategyOf(text, c.policy.strategy)
              && name in p.relayAddrs
              && forall a :: a in p.relayAddrs[name] <==> exists t :: t in g.targets && t.addr == a && IsRelay(text, t)
    ensures name in p.groups ==> exists c, g :: c in cs && g in c.groups && text.trim(g.name) == name
  {
    hide BindingTable, RouteTables, PolicyTables, Balancing.StrategyOf, NormalizeStrategy, IsRelay;
    forall c, g | c in cs && g in c.groups && text.trim(g.name) == name
      ensures GroupItem(c.policy.strategy, g) in GroupItems(cs)
      ensures Balancing.StrategyOf(text, NormalizeStrategy(text, c.policy.strategy))
              == Balancing.StrategyOf(text, c.policy.strategy)
    {
      ItemFiled(cs, c, g);
      FiledStrategy(text, c.policy.strategy);
    }
    if name in p.groups {
      var item :| item in GroupItems(cs) && NameOf(text, item) == name;
      InFlatMap(cs, ItemsOf(), item);
      var i :| 0 <= i < |cs| && item in ItemsOf()(cs[i]);
      var j :| 0 <= j < |cs[i].groups| && ItemsOf()(cs[i])[j] == item;
      assert cs[i] in cs && cs[i].groups[j] in cs[i].groups;
    }
  }

  lemma ItemFiled(cs: seq<ServiceConfig>, c: ServiceConfig, g: BackendGroup)
    requires c in cs && g in c.groups
    ensures GroupItem(c.policy.strategy, g) in GroupItems(cs)
  {
    var item := GroupItem(c.policy.strategy, g);
    var i :| 0 <= i < |cs| && cs[i] == c;
    var j :| 0 <= j < |c.groups| && c.groups[j] == g;
    assert ItemsOf()(c)[j] == item;
    InFlatMap(cs, ItemsOf(), item);
  }

  lemma FiledStrategy(text: Text, strategy: string)
    requires PlainStrategies(text)
    ensures Balancing.StrategyOf(text, NormalizeStrategy(text, strategy)) == Balancing.StrategyOf(text, strategy)
  {}

  /** Services of different names are each found under their own, with their policy and listener. */
  lemma ServicesMean(text: Text, cs: seq<ServiceConfig>, p: Plan, name: string)
    requires Describes(text, cs, p) && DistinctServices(cs)
    ensures forall c :: c in cs && c.name == name ==>
              && name in p.policies && p.policies[name] == c.policy
              && name in p.serviceListeners && p.serviceListeners[name].addr == c.policy.addr
              && p.serviceListeners[name].port == c.policy.port
    ensures name in p.policies || name in p.serviceListeners ==> exists c :: c in cs && c.name == name
  {
    hide BindingTable, RouteTables, GroupTables, LastNamed;
    LastNamedIsMember(cs, name);
  }
}
