/** Compiling service configurations into a traffic plan. */
module PlanCompiler {
  import opened Strings
  import opened Wrappers
  import opened Sequences
  import opened Sorting
  import opened ServiceModel
  import opened RouteIndex
  import opened RouteTheorems

  datatype ListenerPlan = ListenerPlan(listener: ListenerKey, routes: seq<RouteBinding>)

  datatype Binding = Binding(listener: ListenerKey, service: string, dest: string)

  datatype Plan = Plan(
    listeners: map<string, ListenerPlan>,
    matchers: map<string, ListenerMatcher>,
    tcp: map<string, Binding>,
    udp: map<string, Binding>,
    groups: map<string, BackendGroup>,
    relayAddrs: map<string, set<string>>,
    strategies: map<string, string>,
    serviceListeners: map<string, ListenerKey>,
    policies: map<string, Policy>)

  const EMPTY_PLAN := Plan(map[], map[], map[], map[], map[], map[], map[], map[], map[])

  datatype BuildError =
    | InvalidService(name: string)
    | DuplicateGroup(name: string)
    | ListenerClash(key: string)

  function ListenerMapKey(text: Text, addr: string, port: int): string { text.trim(addr) + ":" + Itoa(port) }

  /** A relay target carries a "relay" tag with a truthy value. At most one key may read "relay". */
  predicate IsRelay(text: Text, t: BackendTarget) {
    exists k :: k in t.tags && text.Fold(k) == "relay" && text.Fold(t.tags[k]) in {"1", "true", "yes", "on"}
  }

  /** A single tag decides by its key and its value; without tags a target is direct. */
  lemma RelayTagMeans(text: Text, addr: string, weight: int, key: string, value: string)
    ensures IsRelay(text, BackendTarget(addr, weight, map[key := value])) <==>
              && text.lower(text.trim(key)) == "relay"
              && (|| text.lower(text.trim(value)) == "1" || text.lower(text.trim(value)) == "true"
                  || text.lower(text.trim(value)) == "yes" || text.lower(text.trim(value)) == "on")
    ensures !IsRelay(text, BackendTarget(addr, weight, map[]))
  {
    var t := BackendTarget(addr, weight, map[key := value]);
    assert key in t.tags && t.tags[key] == value;
  }

  ghost function RelayAddrs(text: Text, g: BackendGroup): set<string> {
    set t | t in g.targets && IsRelay(text, t) :: t.addr
  }

  function NormalizeStrategy(text: Text, strategy: string): string {
    var s := text.Fold(strategy);
    if s == "" then "load-first"
    else if s == "rr" then "round-robin"
    else if s == "rand" then "random"
    else s
  }

  // The parts a configuration contributes ------------------------------------------------------------

  datatype Kind = Http | Tcp | Udp

  function KindOf(text: Text, c: ServiceConfig): Kind {
    var layer := text.Fold(c.policy.layer);
    if layer == "l4-tcp" then Tcp else if layer == "l4-udp" then Udp else Http
  }

  function KeyOf(text: Text, c: ServiceConfig): string { ListenerMapKey(text, c.policy.addr, c.policy.port) }

  function ListenerOf(c: ServiceConfig): ListenerKey { ListenerKey(c.policy.addr, c.policy.port) }

  function BindingOf(c: ServiceConfig): Binding {
    Binding(ListenerOf(c), c.name, if c.routes == [] then "" else c.routes[0].dest)
  }

  function RouteOf(service: string): ServiceRoute -> RouteBinding {
    (r: ServiceRoute) => RouteBinding(service, r.hosts, r.prefix, r.dest, r.weight)
  }

  function RoutesOf(c: ServiceConfig): seq<RouteBinding> { Map(c.routes, RouteOf(c.name)) }

  predicate Serves(text: Text, c: ServiceConfig, key: string) { KindOf(text, c) == Http && KeyOf(text, c) == key }

  function RoutesFor(text: Text, key: string): ServiceConfig -> seq<RouteBinding> {
    (c: ServiceConfig) => if Serves(text, c, key) then RoutesOf(c) else []
  }

  /** All the routes the HTTP services of a listener bring to it. */
  function RoutesAt(text: Text, cs: seq<ServiceConfig>, key: string): seq<RouteBinding> {
    FlatMap(cs, RoutesFor(text, key))
  }

  /** A backend group together with the balancing strategy of its service. */
  datatype GroupItem = GroupItem(strategy: string, group: BackendGroup)

  function ItemsOf(): ServiceConfig -> seq<GroupItem> {
    (c: ServiceConfig) => Map(c.groups, (g: BackendGroup) => GroupItem(c.policy.strategy, g))
  }

  function GroupItems(cs: seq<ServiceConfig>): seq<GroupItem> { FlatMap(cs, ItemsOf()) }

  function NameOf(text: Text, item: GroupItem): string { text.trim(item.group.name) }

  function LastNamed(cs: seq<ServiceConfig>, name: string): Option<ServiceConfig> {
    if cs == [] then None
    else if cs[|cs| - 1].name == name then Some(cs[|cs| - 1])
    else LastNamed(cs[..|cs| - 1], name)
  }

  // When a set of configurations compiles --------------------------------------------------------------

  /** A TCP service shares its listener with UDP services only, a UDP service with no UDP service. */
  predicate MayCoexist(text: Text, a: ServiceConfig, b: ServiceConfig) {
    KeyOf(text, a) == KeyOf(text, b) ==>
      match (KindOf(text, a), KindOf(text, b))
      case (Http, Http) => true
      case (Udp, Udp) => false
      case (Udp, _) => true
      case (_, Udp) => true
      case _ => false
  }

  ghost predicate NoClash(text: Text, cs: seq<ServiceConfig>) {
    forall i, j :: 0 <= i < j < |cs| ==> MayCoexist(text, cs[i], cs[j])
  }

  ghost predicate DistinctNames(text: Text, items: seq<GroupItem>) {
    forall i, j :: 0 <= i < j < |items| ==> NameOf(text, items[i]) != NameOf(text, items[j])
  }

  ghost predicate Compiles(text: Text, cs: seq<ServiceConfig>) {
    && (forall c :: c in cs ==> Valid(text, c))
    && DistinctNames(text, GroupItems(cs))
    && NoClash(text, cs)
  }

  function Normal(text: Text, services: seq<ServiceConfig>): seq<ServiceConfig> {
    Map(services, (c: ServiceConfig) => WithDefaults(text, c))
  }

  lemma CompilesSnoc(text: Text, cs: seq<ServiceConfig>, c: ServiceConfig)
    ensures Compiles(text, cs + [c]) <==>
              && (forall x :: x in cs ==> Valid(text, x)) && Valid(text, c)
              && DistinctNames(text, GroupItems(cs) + ItemsOf()(c))
              && NoClash(text, cs) && forall x :: x in cs ==> MayCoexist(text, x, c)
  {
    FlatMapSnoc(cs, c, ItemsOf());
    ClashSnoc(text, cs, c);
  }

  lemma ClashSnoc(text: Text, cs: seq<ServiceConfig>, c: ServiceConfig)
    ensures NoClash(text, cs + [c]) <==> NoClash(text, cs) && forall x :: x in cs ==> MayCoexist(text, x, c)
  {
    var cs' := cs + [c];
    assert forall i :: 0 <= i < |cs| ==> cs'[i] == cs[i];
    assert cs'[|cs|] == c;
    if NoClash(text, cs') {
      forall i, j | 0 <= i < j < |cs| ensures MayCoexist(text, cs[i], cs[j]) {
        assert MayCoexist(text, cs'[i], cs'[j]);
      }
      forall x | x in cs ensures MayCoexist(text, x, c) {
        var i :| 0 <= i < |cs| && cs[i] == x;
        assert MayCoexist(text, cs'[i], cs'[|cs|]);
      }
    }
  }

  lemma {:induction false} CompilesPrefix(text: Text, cs: seq<ServiceConfig>, more: seq<ServiceConfig>)
    requires Compiles(text, cs + more)
    ensures Compiles(text, cs)
    decreases |more|
  {
    if more == [] {
      assert cs + more == cs;
    } else {
      var fewer, c := more[..|more| - 1], more[|more| - 1];
      assert cs + more == (cs + fewer) + [c];
      CompilesSnoc(text, cs + fewer, c);
      DistinctPrefix(text, GroupItems(cs + fewer), ItemsOf()(c));
      CompilesPrefix(text, cs, fewer);
    }
  }

  lemma DistinctPrefix(text: Text, items: seq<GroupItem>, more: seq<GroupItem>)
    requires DistinctNames(text, items + more)
    ensures DistinctNames(text, items)
  {
    assert forall i :: 0 <= i < |items| ==> (items + more)[i] == items[i];
  }

  // What the plan of a set of configurations is --------------------------------------------------------

  ghost predicate BindingTable(text: Text, cs: seq<ServiceConfig>, kind: Kind, m: map<string, Binding>) {
    && (forall c :: c in cs && KindOf(text, c) == kind ==> KeyOf(text, c) in m && m[KeyOf(text, c)] == BindingOf(c))
    && (forall k :: k in m ==> exists c :: c in cs && KindOf(text, c) == kind && KeyOf(text, c) == k)
  }

  /** One table per HTTP listener, holding exactly the routes brought to it. */
  ghost predicate RouteTables(text: Text, cs: seq<ServiceConfig>, ls: map<string, ListenerPlan>) {
    && (forall c :: c in cs && KindOf(text, c) == Http ==> KeyOf(text, c) in ls)
    && (forall k :: k in ls ==> exists c :: c in cs && Serves(text, c, k) && ls[k].listener == ListenerOf(c))
    && (forall k :: k in ls ==> multiset(ls[k].routes) == multiset(RoutesAt(text, cs, k)))
  }

  ghost predicate GroupEntry(text: Text, item: GroupItem, groups: map<string, BackendGroup>,
                             relays: map<string, set<string>>, strategies: map<string, string>)
  {
    var name := NameOf(text, item);
    && name in groups && groups[name] == item.group
    && name in relays && relays[name] == RelayAddrs(text, item.group)
    && name in strategies && strategies[name] == NormalizeStrategy(text, item.strategy)
  }

  ghost predicate GroupTables(text: Text, items: seq<GroupItem>, groups: map<string, BackendGroup>,
                              relays: map<string, set<string>>, strategies: map<string, string>)
  {
    && (forall name :: name in groups ==> exists item :: item in items && NameOf(text, item) == name)
    && relays.Keys == groups.Keys && strategies.Keys == groups.Keys
    && forall item :: item in items ==> GroupEntry(text, item, groups, relays, strategies)
  }

  ghost predicate PolicyTables(cs: seq<ServiceConfig>, policies: map<string, Policy>,
                               listeners: map<string, ListenerKey>)
  {
    && policies.Keys == listeners.Keys
    && (forall name :: name in policies <==> LastNamed(cs, name).Some?)
    && (forall name :: name in policies ==>
          && policies[name] == LastNamed(cs, name).value.policy
          && listeners[name] == ListenerOf(LastNamed(cs, name).value))
  }

  ghost predicate Describes(text: Text, cs: seq<ServiceConfig>, p: Plan) {
    && BindingTable(text, cs, Tcp, p.tcp)
    && BindingTable(text, cs, Udp, p.udp)
    && RouteTables(text, cs, p.listeners)
    && GroupTables(text, GroupItems(cs), p.groups, p.relayAddrs, p.strategies)
    && PolicyTables(cs, p.policies, p.serviceListeners)
  }

  /** Route tables in compiled order, each with its index. */
  ghost predicate Indexed(text: Text, p: Plan) {
    && p.matchers.Keys == p.listeners.Keys
    && forall k :: k in p.listeners ==> SortedAndIndexed(text, p.listeners[k].routes, p.matchers[k])
  }

  ghost predicate SortedAndIndexed(text: Text, routes: seq<RouteBinding>, m: ListenerMatcher) {
    Sorted(Before, routes) && Indexes(text, routes, m)
  }

  // The compiler -----------------------------------------------------------------------------------------

  method RelaySet(text: Text, g: BackendGroup) returns (relays: set<string>)
    ensures relays == RelayAddrs(text, g)
  {
    relays := {};
    for j := 0 to |g.targets|
      invariant relays == set t | t in g.targets[..j] && IsRelay(text, t) :: t.addr
    {
      if IsRelay(text, g.targets[j]) {
        relays := relays + {g.targets[j].addr};
      }
      assert g.targets[..j + 1] == g.targets[..j] + [g.targets[j]];
    }
    assert g.targets[..|g.targets|] == g.targets;
  }

  lemma NewGroup(text: Text, items: seq<GroupItem>, item: GroupItem, groups: map<string, BackendGroup>,
                 relays: map<string, set<string>>, strategies: map<string, string>)
    requires GroupTables(text, items, groups, relays, strategies) && DistinctNames(text, items)
    ensures NameOf(text, item) in groups <==> !DistinctNames(text, items + [item])
    ensures NameOf(text, item) !in groups ==>
              GroupTables(text, items + [item],
                          groups[NameOf(text, item) := item.group],
                          relays[NameOf(text, item) := RelayAddrs(text, item.group)],
                          strategies[NameOf(text, item) := NormalizeStrategy(text, item.strategy)])
  {
    hide NormalizeStrategy;
    var items' := items + [item];
    assert items'[|items|] == item && forall i :: 0 <= i < |items| ==> items'[i] == items[i];
    var name := NameOf(text, item);
    if name in groups {
      var x :| x in items && NameOf(text, x) == name;
      var i :| 0 <= i < |items| && items[i] == x;
      assert NameOf(text, items'[i]) == NameOf(text, items'[|items|]);
    } else {
      forall i | 0 <= i < |items| ensures NameOf(text, items[i]) != name {
        assert GroupEntry(text, items[i], groups, relays, strategies);
      }
    }
  }

  method AddGroups(text: Text, ghost items: seq<GroupItem>, c: ServiceConfig, p: Plan)
    returns (r: Result<Plan, BuildError>)
    requires GroupTables(text, items, p.groups, p.relayAddrs, p.strategies) && DistinctNames(text, items)
    ensures r.Ok? <==> DistinctNames(text, items + ItemsOf()(c))
    ensures r.Ok? ==>
              && GroupTables(text, items + ItemsOf()(c), r.value.groups, r.value.relayAddrs, r.value.strategies)
              && r.value == p.(groups := r.value.groups, relayAddrs := r.value.relayAddrs,
                               strategies := r.value.strategies)
  {
    hide GroupTables, DistinctNames, RelayAddrs, NormalizeStrategy;
    var groups, relays, strategies := p.groups, p.relayAddrs, p.strategies;
    ghost var mine := ItemsOf()(c);
    assert items + mine[..0] == items;
    for i := 0 to |c.groups|
      invariant DistinctNames(text, items + mine[..i])
      invariant GroupTables(text, items + mine[..i], groups, relays, strategies)
    {
      var g := c.groups[i];
      var name := text.trim(g.name);
      assert items + mine[..i + 1] == (items + mine[..i]) + [GroupItem(c.policy.strategy, g)];
      NewGroup(text, items + mine[..i], GroupItem(c.policy.strategy, g), groups, relays, strategies);
      if name in groups {
        if DistinctNames(text, items + mine) {
          assert items + mine == (items + mine[..i + 1]) + mine[i + 1..];
          DistinctPrefix(text, items + mine[..i + 1], mine[i + 1..]);
        }
        return Err(DuplicateGroup(name));
      }
      var relaySet := RelaySet(text, g);
      groups, relays := groups[name := g], relays[name := relaySet];
      strategies := strategies[name := NormalizeStrategy(text, c.policy.strategy)];
    }
    assert mine[..|c.groups|] == mine;
    r := Ok(p.(groups := groups, relayAddrs := relays, strategies := strategies));
  }

  lemma PoliciesStep(cs: seq<ServiceConfig>, c: ServiceConfig, policies: map<string, Policy>,
                     listeners: map<string, ListenerKey>)
    requires PolicyTables(cs, policies, listeners)
    ensures PolicyTables(cs + [c], policies[c.name := c.policy], listeners[c.name := ListenerOf(c)])
  {
    assert (cs + [c])[..|cs + [c]| - 1] == cs;
    forall name ensures LastNamed(cs + [c], name) == if c.name == name then Some(c) else LastNamed(cs, name) {}
  }

  lemma BindingsSame(text: Text, cs: seq<ServiceConfig>, c: ServiceConfig, kind: Kind, m: map<string, Binding>)
    requires BindingTable(text, cs, kind, m) && KindOf(text, c) != kind
    ensures BindingTable(text, cs + [c], kind, m)
  {
    hide KindOf, ListenerMapKey;
    forall k | k in m ensures exists x :: x in cs + [c] && KindOf(text, x) == kind && KeyOf(text, x) == k {
      var x :| x in cs && KindOf(text, x) == kind && KeyOf(text, x) == k;
      assert x in cs + [c];
    }
  }

  lemma BindingsAdd(text: Text, cs: seq<ServiceConfig>, c: ServiceConfig, kind: Kind, m: map<string, Binding>)
    requires BindingTable(text, cs, kind, m) && KindOf(text, c) == kind && KeyOf(text, c) !in m
    ensures BindingTable(text, cs + [c], kind, m[KeyOf(text, c) := BindingOf(c)])
  {
    hide KindOf, ListenerMapKey;
    var m' := m[KeyOf(text, c) := BindingOf(c)];
    assert c in cs + [c];
    forall k | k in m' ensures exists x :: x in cs + [c] && KindOf(text, x) == kind && KeyOf(text, x) == k {
      if k in m {
        var x :| x in cs && KindOf(text, x) == kind && KeyOf(text, x) == k;
        assert x in cs + [c];
      }
    }
  }

  lemma NoRoutesYet(text: Text, cs: seq<ServiceConfig>, k: string, ls: map<string, ListenerPlan>)
    requires RouteTables(text, cs, ls) && k !in ls
    ensures RoutesAt(text, cs, k) == []
  {
    if RoutesAt(text, cs, k) != [] {
      InFlatMap(cs, RoutesFor(text, k), RoutesAt(text, cs, k)[0]);
    }
  }

  lemma RoutesSame(text: Text, cs: seq<ServiceConfig>, c: ServiceConfig, ls: map<string, ListenerPlan>)
    requires RouteTables(text, cs, ls) && KindOf(text, c) != Http
    ensures RouteTables(text, cs + [c], ls)
  {
    hide KindOf, ListenerMapKey;
    forall k | k in ls
      ensures exists x :: x in cs + [c] && Serves(text, x, k) && ls[k].listener == ListenerOf(x)
      ensures RoutesAt(text, cs + [c], k) == RoutesAt(text, cs, k)
    {
      FlatMapSnoc(cs, c, RoutesFor(text, k));
      var x :| x in cs && Serves(text, x, k) && ls[k].listener == ListenerOf(x);
      assert x in cs + [c];
    }
  }

  lemma RoutesAdd(text: Text, cs: seq<ServiceConfig>, c: ServiceConfig, ls: map<string, ListenerPlan>)
    requires RouteTables(text, cs, ls) && KindOf(text, c) == Http
    ensures var key := KeyOf(text, c);
            var base := if key in ls then ls[key] else ListenerPlan(ListenerOf(c), []);
            RouteTables(text, cs + [c], ls[key := base.(routes := base.routes + RoutesOf(c))])
  {
    hide KindOf, ListenerMapKey;
    var key := KeyOf(text, c);
    var base := if key in ls then ls[key] else ListenerPlan(ListenerOf(c), []);
    var ls' := ls[key := base.(routes := base.routes + RoutesOf(c))];
    assert c in cs + [c];
    forall k | k in ls'
      ensures exists x :: x in cs + [c] && Serves(text, x, k) && ls'[k].listener == ListenerOf(x)
      ensures multiset(ls'[k].routes) == multiset(RoutesAt(text, cs + [c], k))
    {
      FlatMapSnoc(cs, c, RoutesFor(text, k));
      if k in ls {
        var x :| x in cs && Serves(text, x, k) && ls[k].listener == ListenerOf(x);
        assert x in cs + [c];
      } else {
        assert Serves(text, c, k);
        NoRoutesYet(text, cs, k, ls);
      }
    }
  }

  /** The tables tell what listens where, so the checks the program makes are exactly the clashes. */
  lemma TablesShowClashes(text: Text, cs: seq<ServiceConfig>, p: Plan, c: ServiceConfig)
    requires BindingTable(text, cs, Tcp, p.tcp) && BindingTable(text, cs, Udp, p.udp)
             && RouteTables(text, cs, p.listeners)
    requires forall x :: x in cs ==> x.routes != []
    ensures var key := KeyOf(text, c);
            (forall x :: x in cs ==> MayCoexist(text, x, c)) <==>
              match KindOf(text, c)
              case Tcp => !(key in p.listeners && p.listeners[key].routes != []) && key !in p.tcp
              case Udp => key !in p.udp
              case Http => key !in p.tcp
  {
    hide KindOf, ListenerMapKey;
    var key := KeyOf(text, c);
    if key in p.listeners {
      var x :| x in cs && Serves(text, x, key) && p.listeners[key].listener == ListenerOf(x);
      OwnRoutesAreThere(text, cs, x);
      assert multiset(p.listeners[key].routes) != multiset{};
    }
  }

  lemma OwnRoutesAreThere(text: Text, cs: seq<ServiceConfig>, c: ServiceConfig)
    requires c in cs && KindOf(text, c) == Http && c.routes != []
    ensures multiset(RoutesAt(text, cs, KeyOf(text, c))) != multiset{}
  {
    var key := KeyOf(text, c);
    var r := RoutesOf(c)[0];
    var i :| 0 <= i < |cs| && cs[i] == c;
    assert r in RoutesFor(text, key)(cs[i]);
    InFlatMap(cs, RoutesFor(text, key), r);
    assert r in multiset(RoutesAt(text, cs, key));
  }

  method AddRoutes(text: Text, c: ServiceConfig, base: ListenerPlan) returns (lp: ListenerPlan)
    ensures lp == base.(routes := base.routes + RoutesOf(c))
  {
    lp := base;
    for i := 0 to |c.routes|
      invariant lp == base.(routes := base.routes + RoutesOf(c)[..i])
    {
      var route := c.routes[i];
      lp := lp.(routes := lp.routes + [RouteBinding(c.name, route.hosts, route.prefix, route.dest, route.weight)]);
      assert RoutesOf(c)[..i + 1] == RoutesOf(c)[..i] + [RoutesOf(c)[i]];
    }
  }

  /** Entering the listener of a validated service into the tables, or finding the clash. */
  method AddListener(text: Text, ghost cs: seq<ServiceConfig>, c: ServiceConfig, p: Plan)
    returns (r: Result<Plan, BuildError>)
    requires BindingTable(text, cs, Tcp, p.tcp) && BindingTable(text, cs, Udp, p.udp)
             && RouteTables(text, cs, p.listeners)
    requires forall x :: x in cs ==> x.routes != []
    ensures r.Ok? <==> forall x :: x in cs ==> MayCoexist(text, x, c)
    ensures r.Ok? ==>
              var q := r.value;
              && BindingTable(text, cs + [c], Tcp, q.tcp) && BindingTable(text, cs + [c], Udp, q.udp)
              && RouteTables(text, cs + [c], q.listeners)
              && q == p.(tcp := q.tcp, udp := q.udp, listeners := q.listeners)
  {
    hide ListenerMapKey, KindOf, BindingTable, RouteTables, MayCoexist;
    var key := KeyOf(text, c);
    TablesShowClashes(text, cs, p, c);
    match KindOf(text, c)
    case Tcp =>
      if key in p.listeners && p.listeners[key].routes != [] {
        return Err(ListenerClash(key));
      }
      if key in p.tcp {
        return Err(ListenerClash(key));
      }
      BindingsAdd(text, cs, c, Tcp, p.tcp);
      BindingsSame(text, cs, c, Udp, p.udp);
      RoutesSame(text, cs, c, p.listeners);
      return Ok(p.(tcp := p.tcp[key := BindingOf(c)]));
    case Udp =>
      if key in p.udp {
        return Err(ListenerClash(key));
      }
      BindingsSame(text, cs, c, Tcp, p.tcp);
      BindingsAdd(text, cs, c, Udp, p.udp);
      RoutesSame(text, cs, c, p.listeners);
      return Ok(p.(udp := p.udp[key := BindingOf(c)]));
    case Http =>
      if key in p.tcp {
        return Err(ListenerClash(key));
      }
      BindingsSame(text, cs, c, Tcp, p.tcp);
      BindingsSame(text, cs, c, Udp, p.udp);
      RoutesAdd(text, cs, c, p.listeners);
      var lp := AddRoutes(text, c, if key in p.listeners then p.listeners[key] else ListenerPlan(ListenerOf(c), []));
      return Ok(p.(listeners := p.listeners[key := lp]));
  }

  method AddService(text: Text, ghost cs: seq<ServiceConfig>, c: ServiceConfig, p: Plan)
    returns (r: Result<Plan, BuildError>)
    requires Compiles(text, cs) && Describes(text, cs, p) && p.matchers == map[]
    ensures r.Ok? <==> Compiles(text, cs + [c])
    ensures r.Ok? ==> Describes(text, cs + [c], r.value) && r.value.matchers == map[]
  {
    CompilesSnoc(text, cs, c);
    var ok := Validate(text, c);
    if !ok {
      return Err(InvalidService(c.name));
    }
    var grouped := AddGroups(text, GroupItems(cs), c, p);
    if grouped.Err? {
      return grouped;
    }
    var listening := AddListener(text, cs, c, grouped.value);
    if listening.Err? {
      return listening;
    }
    PoliciesStep(cs, c, p.policies, p.serviceListeners);
    FlatMapSnoc(cs, c, ItemsOf());
    return Ok(listening.value.(serviceListeners := p.serviceListeners[c.name := ListenerOf(c)],
                               policies := p.policies[c.name := c.policy]));
  }

  method SortTable(text: Text, lp: ListenerPlan) returns (sorted: ListenerPlan, matcher: ListenerMatcher)
    ensures sorted.listener == lp.listener && multiset(sorted.routes) == multiset(lp.routes)
    ensures SortedAndIndexed(text, sorted.routes, matcher)
  {
    BeforeIsWeakOrder();
    SortSorted(Before, lp.routes);
    sorted := lp.(routes := Sort(Before, lp.routes));
    matcher := BuildListenerMatcher(text, sorted.routes);
  }

  method SortTables(text: Text, p: Plan) returns (q: Plan)
    requires p.matchers == map[]
    ensures q == p.(listeners := q.listeners, matchers := q.matchers)
    ensures q.listeners.Keys == p.listeners.Keys && Indexed(text, q)
    ensures forall k :: k in p.listeners ==>
              q.listeners[k].listener == p.listeners[k].listener
              && multiset(q.listeners[k].routes) == multiset(p.listeners[k].routes)
  {
    hide SortedAndIndexed;
    var listeners, matchers := p.listeners, p.matchers;
    var keys := p.listeners.Keys;
    while keys != {}
      invariant keys <= p.listeners.Keys == listeners.Keys
      invariant matchers.Keys == p.listeners.Keys - keys
      invariant forall k :: k in p.listeners ==>
                  listeners[k].listener == p.listeners[k].listener
                  && multiset(listeners[k].routes) == multiset(p.listeners[k].routes)
      invariant forall k :: k in matchers ==> SortedAndIndexed(text, listeners[k].routes, matchers[k])
      decreases keys
    {
      var key :| key in keys;
      keys := keys - {key};
      var lp, matcher := SortTable(text, listeners[key]);
      listeners, matchers := listeners[key := lp], matchers[key := matcher];
    }
    q := p.(listeners := listeners, matchers := matchers);
  }

  lemma EmptyPlanDescribesNothing(text: Text)
    ensures Compiles(text, []) && Describes(text, [], EMPTY_PLAN)
  {}

  method CompileTables(text: Text, services: seq<ServiceConfig>) returns (r: Result<Plan, BuildError>)
    ensures r.Ok? <==> Compiles(text, Normal(text, services))
    ensures r.Ok? ==> Describes(text, Normal(text, services), r.value) && r.value.matchers == map[]
  {
    hide Compiles, Describes, WithDefaults;
    ghost var cs := Normal(text, services);
    EmptyPlanDescribesNothing(text);
    r := Ok(EMPTY_PLAN);
    for i := 0 to |services|
      invariant Compiles(text, cs[..i])
      invariant r.Ok? && Describes(text, cs[..i], r.value) && r.value.matchers == map[]
    {
      var c := ApplyDefaults(text, services[i]);
      assert cs[..i + 1] == cs[..i] + [c];
      r := AddService(text, cs[..i], c, r.value);
      if r.Err? {
        if Compiles(text, cs) {
          assert cs == cs[..i + 1] + cs[i + 1..];
          CompilesPrefix(text, cs[..i + 1], cs[i + 1..]);
        }
        return;
      }
    }
    assert cs[..|services|] == cs;
  }

  /** A plan comes out exactly when the configurations compile, and then it is their plan: each L4
      service has its one binding, each L7 route is once in the table of its own listener. */
  method BuildPlan(text: Text, services: seq<ServiceConfig>) returns (r: Result<Plan, BuildError>)
    ensures r.Ok? <==> Compiles(text, Normal(text, services))
    ensures r.Ok? ==> Describes(text, Normal(text, services), r.value) && Indexed(text, r.value)
  {
    r := CompileTables(text, services);
    if r.Err? {
      return;
    }
    var q := SortTables(text, r.value);
    TablesAfterSort(text, Normal(text, services), r.value.listeners, q.listeners);
    r := Ok(q);
  }

  lemma TablesAfterSort(text: Text, cs: seq<ServiceConfig>, ls: map<string, ListenerPlan>,
                        ls': map<string, ListenerPlan>)
    requires RouteTables(text, cs, ls) && ls'.Keys == ls.Keys
    requires forall k :: k in ls ==>
               ls'[k].listener == ls[k].listener && multiset(ls'[k].routes) == multiset(ls[k].routes)
    ensures RouteTables(text, cs, ls')
  {
    forall k | k in ls' ensures exists c :: c in cs && Serves(text, c, k) && ls'[k].listener == ListenerOf(c) {
      var c :| c in cs && Serves(text, c, k) && ls[k].listener == ListenerOf(c);
      assert ls'[k].listener == ListenerOf(c);
    }
  }
}
