/** What a compiled plan answers, and that it does not depend on the order of the services. */
module PlanTheorems {
  import opened Strings
  import opened Wrappers
  import opened Sequences
  import opened Sorting
  import opened ServiceModel
  import opened RouteIndex
  import opened RouteTheorems
  import opened PlanCompiler

  // Queries --------------------------------------------------------------------------------------------

  function Answer(text: Text, p: Plan, addr: string, port: int, host: string, path: string): Option<MatchResult> {
    var key := ListenerMapKey(text, text.trim(addr), port);
    if key !in p.listeners then None
    else
      var lp := p.listeners[key];
      var h := NormalizeHost(text, host);
      Render(lp.listener,
             if key in p.matchers then IndexMatch(p.matchers[key], h, path) else ScanMatch(text, lp.routes, h, path))
  }

  function BindingAt(text: Text, table: map<string, Binding>, addr: string, port: int): Option<Binding> {
    var key := ListenerMapKey(text, text.trim(addr), port);
    if key in table then Some(table[key]) else None
  }

  function ServicePolicy(text: Text, p: Plan, name: string): Option<Policy> {
    if text.trim(name) in p.policies then Some(p.policies[text.trim(name)]) else None
  }

  method Match(text: Text, p: Plan, addr: string, port: int, host: string, path: string)
    returns (r: Option<MatchResult>)
    ensures r == Answer(text, p, addr, port, host, path)
  {
    var key := ListenerMapKey(text, text.trim(addr), port);
    if key !in p.listeners {
      return None;
    }
    var lp := p.listeners[key];
    var h := NormalizeHost(text, host);
    if key in p.matchers {
      var m := p.matchers[key];
      r := MatchPathMatcher(lp.listener, MatcherOf(m, Exact(h)), path, 2);
      if r.Some? {
        return;
      }
      r := MatchPathMatcher(lp.listener, m.wildcard, path, 1);
      return;
    }
    r := ScanRoutes(text, lp.listener, lp.routes, h, path);
  }

  // The answer is the optimum ---------------------------------------------------------------------------

  lemma RoutesAreValid(text: Text, cs: seq<ServiceConfig>, key: string)
    requires text.Laws() && forall c :: c in cs ==> Valid(text, c)
    ensures forall r :: r in RoutesAt(text, cs, key) ==> ValidRoute(text, r)
  {
    hide Valid, ValidRoute, ListenerMapKey, KindOf;
    forall r | r in RoutesAt(text, cs, key) ensures ValidRoute(text, r) {
      InFlatMap(cs, RoutesFor(text, key), r);
      var i :| 0 <= i < |cs| && r in RoutesFor(text, key)(cs[i]);
      OwnRoutesAreValid(text, cs[i], r);
    }
  }

  lemma OwnRoutesAreValid(text: Text, c: ServiceConfig, r: RouteBinding)
    requires text.Laws() && Valid(text, c) && r in RoutesOf(c)
    ensures ValidRoute(text, r)
  {
    hide ValidPolicy, ValidGroup, ValidServiceRoute, ValidRoute;
    var j :| 0 <= j < |c.routes| && RoutesOf(c)[j] == r;
    BindingOfValidRoute(text, c.name, c.routes[j]);
  }

  lemma BindingOfValidRoute(text: Text, service: string, r: ServiceRoute)
    requires text.Laws() && ValidServiceRoute(text, r)
    ensures ValidRoute(text, RouteOf(service)(r))
  {}

  lemma TableIsValid(text: Text, cs: seq<ServiceConfig>, p: Plan, key: string)
    requires text.Laws() && Compiles(text, cs) && RouteTables(text, cs, p.listeners) && key in p.listeners
    ensures ValidRoutes(text, p.listeners[key].routes)
  {
    hide Valid, ValidRoute;
    var routes := p.listeners[key].routes;
    RoutesAreValid(text, cs, key);
    forall i | 0 <= i < |routes| ensures ValidRoute(text, routes[i]) {
      assert routes[i] in multiset(routes);
      assert routes[i] in multiset(RoutesAt(text, cs, key));
    }
  }

  /** The plan answers a request with the best of all routes that HTTP services bring to the listener:
      exact hosts before open ones, then the longest prefix, then the heaviest, then by names; and it
      answers whenever some route matches. */
  lemma AnswerIsOptimal(text: Text, cs: seq<ServiceConfig>, p: Plan, addr: string, port: int, host: string,
                        path: string)
    requires text.Laws() && Compiles(text, cs) && Describes(text, cs, p) && Indexed(text, p)
    ensures var key := ListenerMapKey(text, text.trim(addr), port);
            var routes := multiset(RoutesAt(text, cs, key));
            var h := NormalizeHost(text, host);
            var a := Answer(text, p, addr, port, host, path);
            && (a.Some? <==> exists r :: r in routes && Matches(text, r, h, path))
            && (a.Some? ==> exists r ::
                 IsOptimal(text, routes, h, path, r) && a == Render(p.listeners[key].listener, Some(r)))
  {
    hide Valid, NormalizeHost, ListenerMapKey, ValidRoute, GroupTables, BindingTable, PolicyTables;
    var key := ListenerMapKey(text, text.trim(addr), port);
    var h := NormalizeHost(text, host);
    if key in p.listeners {
      TableIsValid(text, cs, p, key);
      IndexIsOptimal(text, p.listeners[key].routes, p.matchers[key], h, path);
    } else {
      NoRoutesYet(text, cs, key, p.listeners);
    }
  }

  // Order of the services --------------------------------------------------------------------------------

  lemma ListenerFromKey(text: Text, a: ServiceConfig, b: ServiceConfig)
    requires KeyOf(text, a) == KeyOf(text, b)
    requires text.trim(a.policy.addr) == a.policy.addr && text.trim(b.policy.addr) == b.policy.addr
    ensures ListenerOf(a) == ListenerOf(b)
  {
    SplitAtLast(a.policy.addr, Itoa(a.policy.port), b.policy.addr, Itoa(b.policy.port), ':');
    ItoaInjective(a.policy.port, b.policy.port);
  }

  ghost predicate DistinctServices(cs: seq<ServiceConfig>) {
    forall i, j :: 0 <= i < j < |cs| ==> cs[i].name != cs[j].name
  }

  lemma DistinctServicesPermute(a: seq<ServiceConfig>, b: seq<ServiceConfig>)
    requires multiset(a) == multiset(b) && DistinctServices(a)
    ensures DistinctServices(b)
  {
    var name := (c: ServiceConfig) => c.name;
    MapPermutes(a, b, name);
    DistinctIffOnce(Map(a, name));
    DistinctIffOnce(Map(b, name));
    assert forall i :: 0 <= i < |a| ==> Map(a, name)[i] == a[i].name;
    assert forall i :: 0 <= i < |b| ==> Map(b, name)[i] == b[i].name;
  }

  lemma SameMembers<T>(a: seq<T>, b: seq<T>)
    requires multiset(a) == multiset(b)
    ensures forall x :: x in a <==> x in b
  {
    forall x ensures x in a <==> x in b {
      assert x in a <==> x in multiset(a);
      assert x in b <==> x in multiset(b);
    }
  }

  lemma CoexistSymmetric(text: Text, a: ServiceConfig, b: ServiceConfig)
    ensures MayCoexist(text, a, b) == MayCoexist(text, b, a)
  {}

  lemma ClashPermutes(text: Text, a: seq<ServiceConfig>, b: seq<ServiceConfig>)
    requires multiset(a) == multiset(b) && DistinctServices(a) && NoClash(text, a)
    ensures NoClash(text, b)
  {
    hide MayCoexist;
    DistinctServicesPermute(a, b);
    SameMembers(a, b);
    forall i, j | 0 <= i < j < |b| ensures MayCoexist(text, b[i], b[j]) {
      assert b[i] in a && b[j] in a;
      var k :| 0 <= k < |a| && a[k] == b[i];
      var l :| 0 <= l < |a| && a[l] == b[j];
      assert k != l;
      CoexistSymmetric(text, a[k], a[l]);
    }
  }

  lemma NamesPermute(text: Text, a: seq<ServiceConfig>, b: seq<ServiceConfig>)
    requires multiset(a) == multiset(b) && DistinctNames(text, GroupItems(a))
    ensures DistinctNames(text, GroupItems(b))
  {
    var x, y := GroupItems(a), GroupItems(b);
    FlatMapPermutes(a, b, ItemsOf());
    var name := (item: GroupItem) => NameOf(text, item);
    MapPermutes(x, y, name);
    DistinctIffOnce(Map(x, name));
    DistinctIffOnce(Map(y, name));
    assert forall i :: 0 <= i < |x| ==> Map(x, name)[i] == NameOf(text, x[i]);
    assert forall i :: 0 <= i < |y| ==> Map(y, name)[i] == NameOf(text, y[i]);
  }

  lemma CompilesPermutes(text: Text, a: seq<ServiceConfig>, b: seq<ServiceConfig>)
    requires multiset(a) == multiset(b) && DistinctServices(a) && Compiles(text, a)
    ensures Compiles(text, b)
  {
    hide Valid;
    SameMembers(a, b);
    NamesPermute(text, a, b);
    ClashPermutes(text, a, b);
  }

  lemma BindingsAgree(text: Text, a: seq<ServiceConfig>, b: seq<ServiceConfig>, kind: Kind,
                      m: map<string, Binding>, m': map<string, Binding>)
    requires multiset(a) == multiset(b) && BindingTable(text, a, kind, m) && BindingTable(text, b, kind, m')
    ensures m == m'
  {
    hide KindOf, ListenerMapKey;
    SameMembers(a, b);
    forall k | k in m || k in m' ensures k in m && k in m' && m[k] == m'[k] {
      var c :| c in a && KindOf(text, c) == kind && KeyOf(text, c) == k;
    }
  }

  lemma {:induction false} LastNamedIsMember(cs: seq<ServiceConfig>, name: string)
    ensures LastNamed(cs, name).Some? ==> LastNamed(cs, name).value in cs && LastNamed(cs, name).value.name == name
    ensures LastNamed(cs, name).None? ==> forall c :: c in cs ==> c.name != name
  {
    if cs != [] && cs[|cs| - 1].name != name {
      LastNamedIsMember(cs[..|cs| - 1], name);
    }
  }

  lemma PoliciesAgree(a: seq<ServiceConfig>, b: seq<ServiceConfig>, p: Plan, p': Plan)
    requires multiset(a) == multiset(b) && DistinctServices(a)
    requires PolicyTables(a, p.policies, p.serviceListeners) && PolicyTables(b, p'.policies, p'.serviceListeners)
    ensures p.policies == p'.policies && p.serviceListeners == p'.serviceListeners
  {
    SameMembers(a, b);
    forall name ensures LastNamed(a, name) == LastNamed(b, name) {
      LastNamedIsMember(a, name);
      LastNamedIsMember(b, name);
    }
  }

  lemma AnswersAgree(text: Text, a: seq<ServiceConfig>, b: seq<ServiceConfig>, p: Plan, p': Plan,
                     addr: string, port: int, host: string, path: string)
    requires text.Laws() && multiset(a) == multiset(b)
    requires forall c :: c in a ==> text.trim(c.policy.addr) == c.policy.addr
    requires Compiles(text, a) && Describes(text, a, p) && Indexed(text, p)
    requires Compiles(text, b) && Describes(text, b, p') && Indexed(text, p')
    ensures Answer(text, p, addr, port, host, path) == Answer(text, p', addr, port, host, path)
  {
    hide Valid, ListenerMapKey, KindOf, NormalizeHost, GroupTables, BindingTable, PolicyTables, Indexed, IsOptimal;
    var key := ListenerMapKey(text, text.trim(addr), port);
    var h := NormalizeHost(text, host);
    AnswerIsOptimal(text, a, p, addr, port, host, path);
    AnswerIsOptimal(text, b, p', addr, port, host, path);
    FlatMapPermutes(a, b, RoutesFor(text, key));
    var routes := multiset(RoutesAt(text, a, key));
    if Answer(text, p, addr, port, host, path).Some? {
      SameListener(text, a, b, p, p', key);
      var r :| IsOptimal(text, routes, h, path, r)
        && Answer(text, p, addr, port, host, path) == Render(p.listeners[key].listener, Some(r));
      var r' :| IsOptimal(text, routes, h, path, r')
        && Answer(text, p', addr, port, host, path) == Render(p'.listeners[key].listener, Some(r'));
      OptimaAnswerAlike(text, routes, h, path, r, r');
    }
  }

  lemma SameListener(text: Text, a: seq<ServiceConfig>, b: seq<ServiceConfig>, p: Plan, p': Plan, key: string)
    requires multiset(a) == multiset(b)
    requires forall c :: c in a ==> text.trim(c.policy.addr) == c.policy.addr
    requires RouteTables(text, a, p.listeners) && RouteTables(text, b, p'.listeners)
    requires key in p.listeners && key in p'.listeners
    ensures p.listeners[key].listener == p'.listeners[key].listener
  {
    hide ListenerMapKey, KindOf;
    SameMembers(a, b);
    var c :| c in a && Serves(text, c, key) && p.listeners[key].listener == ListenerOf(c);
    var d :| d in b && Serves(text, d, key) && p'.listeners[key].listener == ListenerOf(d);
    ListenerFromKey(text, c, d);
  }

  ghost predicate SameAnswers(text: Text, p: Plan, p': Plan) {
    && (forall addr, port, host, path ::
          Answer(text, p, addr, port, host, path) == Answer(text, p', addr, port, host, path))
    && (forall addr, port :: BindingAt(text, p.tcp, addr, port) == BindingAt(text, p'.tcp, addr, port))
    && (forall addr, port :: BindingAt(text, p.udp, addr, port) == BindingAt(text, p'.udp, addr, port))
    && (forall name :: ServicePolicy(text, p, name) == ServicePolicy(text, p', name))
    && SameDestinations(p, p')
  }

  /** All that resolving a destination to its candidates, and telling relays among them, reads of a plan. */
  ghost predicate SameDestinations(p: Plan, p': Plan) {
    && p.groups == p'.groups && p.strategies == p'.strategies && p.relayAddrs == p'.relayAddrs
    && p.serviceListeners == p'.serviceListeners
  }

  /** For distinct service names and trimmed listener addresses, every order of the services succeeds
      or fails alike and yields plans that answer every query alike, ties included. */
  lemma OrderIsIrrelevant(text: Text, services: seq<ServiceConfig>, services': seq<ServiceConfig>, p: Plan, p': Plan)
    requires text.Laws() && multiset(services) == multiset(services') && DistinctServices(services)
    requires forall c :: c in Normal(text, services) ==> text.trim(c.policy.addr) == c.policy.addr
    ensures Compiles(text, Normal(text, services)) <==> Compiles(text, Normal(text, services'))
    ensures Compiles(text, Normal(text, services))
              && Describes(text, Normal(text, services), p) && Indexed(text, p)
              && Describes(text, Normal(text, services'), p') && Indexed(text, p')
            ==> SameAnswers(text, p, p')
  {
    hide Compiles, Describes, Indexed, Answer, BindingAt, ServicePolicy, SameDestinations;
    var a, b := Normal(text, services), Normal(text, services');
    MapPermutes(services, services', (c: ServiceConfig) => WithDefaults(text, c));
    DefaultsKeepNames(text, services);
    DistinctServicesPermute(a, b);
    if Compiles(text, a) { CompilesPermutes(text, a, b); }
    if Compiles(text, b) { CompilesPermutes(text, b, a); }
    if Compiles(text, a) && Describes(text, a, p) && Indexed(text, p) && Describes(text, b, p') && Indexed(text, p') {
      TablesAgree(text, a, b, p, p');
      forall addr, port, host, path
        ensures Answer(text, p, addr, port, host, path) == Answer(text, p', addr, port, host, path)
      {
        AnswersAgree(text, a, b, p, p', addr, port, host, path);
      }
      forall name ensures ServicePolicy(text, p, name) == ServicePolicy(text, p', name) {
        PolicyLookup(text, p, p', name);
      }
    }
  }

  lemma PolicyLookup(text: Text, p: Plan, p': Plan, name: string)
    requires p.policies == p'.policies
    ensures ServicePolicy(text, p, name) == ServicePolicy(text, p', name)
  {}

  lemma GroupsAgree(text: Text, a: seq<ServiceConfig>, b: seq<ServiceConfig>, p: Plan, p': Plan)
    requires multiset(a) == multiset(b)
    requires GroupTables(text, GroupItems(a), p.groups, p.relayAddrs, p.strategies)
    requires GroupTables(text, GroupItems(b), p'.groups, p'.relayAddrs, p'.strategies)
    ensures p.groups == p'.groups && p.strategies == p'.strategies && p.relayAddrs == p'.relayAddrs
  {
    hide NameOf, RelayAddrs, NormalizeStrategy;
    FlatMapPermutes(a, b, ItemsOf());
    SameMembers(GroupItems(a), GroupItems(b));
    forall name | name in p.groups || name in p'.groups
      ensures name in p.groups && name in p'.groups && p.groups[name] == p'.groups[name]
      ensures name in p.relayAddrs && name in p'.relayAddrs && p.relayAddrs[name] == p'.relayAddrs[name]
      ensures name in p.strategies && name in p'.strategies && p.strategies[name] == p'.strategies[name]
    {
      var item :| item in GroupItems(a) && NameOf(text, item) == name;
      assert GroupEntry(text, item, p.groups, p.relayAddrs, p.strategies);
      assert GroupEntry(text, item, p'.groups, p'.relayAddrs, p'.strategies);
    }
  }

  lemma TablesAgree(text: Text, a: seq<ServiceConfig>, b: seq<ServiceConfig>, p: Plan, p': Plan)
    requires multiset(a) == multiset(b) && DistinctServices(a)
    requires Describes(text, a, p) && Describes(text, b, p')
    ensures p.tcp == p'.tcp && p.udp == p'.udp
    ensures p.policies == p'.policies && SameDestinations(p, p')
  {
    hide BindingTable, RouteTables, GroupTables, PolicyTables;
    GroupsAgree(text, a, b, p, p');
    BindingsAgree(text, a, b, Tcp, p.tcp, p'.tcp);
    BindingsAgree(text, a, b, Udp, p.udp, p'.udp);
    PoliciesAgree(a, b, p, p');
  }

  // Names ------------------------------------------------------------------------------------------------

  ghost predicate DistinctTrims(text: Text, cs: seq<ServiceConfig>) {
    forall i, j :: 0 <= i < j < |cs| ==> text.trim(cs[i].name) != text.trim(cs[j].name)
  }

  lemma TrimsMakeNamesDistinct(text: Text, cs: seq<ServiceConfig>)
    requires DistinctTrims(text, cs)
    ensures DistinctServices(cs)
  {}

  lemma OnlyOwnTrim(text: Text, cs: seq<ServiceConfig>, c: ServiceConfig)
    requires text.Laws() && DistinctTrims(text, cs) && c in cs
    ensures (exists d :: d in cs && d.name == text.trim(c.name)) <==> text.trim(c.name) == c.name
    ensures forall d :: d in cs && d.name == text.trim(c.name) ==> d == c
  {
    var i :| 0 <= i < |cs| && cs[i] == c;
    forall d | d in cs && d.name == text.trim(c.name) ensures d == c {
      var j :| 0 <= j < |cs| && cs[j] == d;
      assert text.trim(d.name) == text.trim(text.trim(c.name)) == text.trim(c.name);
    }
  }

  lemma DefaultsKeepNames(text: Text, services: seq<ServiceConfig>)
    requires DistinctServices(services)
    ensures DistinctServices(Normal(text, services))
  {
    assert forall i :: 0 <= i < |services| ==> Normal(text, services)[i].name == services[i].name;
  }
}
