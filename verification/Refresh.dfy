/** Reconfiguration: bringing listeners, plan and balancer state in line with the stored services. */
module Refresh {
  import opened Strings
  import opened Wrappers
  import opened Sequences
  import opened ServiceModel
  import opened RouteIndex
  import opened PlanCompiler
  import opened PlanTheorems
  import opened Snapshot
  import Balancing
  import Registry

  /** Durations in nanoseconds. */
  datatype UdpOptions = UdpOptions(maxPacketSize: int, dialTimeout: int, readTimeout: int, writeTimeout: int,
                                   sessionTtl: int)

  const NO_OPTIONS := UdpOptions(0, 0, 0, 0, 0)

  function RuntimeOptions(u: UdpPolicy): UdpOptions {
    UdpOptions(u.maxPacketSize, u.dialTimeoutMs * 1_000_000, u.readTimeoutMs * 1_000_000,
               u.writeTimeoutMs * 1_000_000, u.sessionTtlMs * 1_000_000)
  }

  function OptionsOf(text: Text, p: Plan, b: Binding): UdpOptions {
    match ServicePolicy(text, p, b.service)
    case Some(policy) => RuntimeOptions(policy.udp)
    case None => NO_OPTIONS
  }

  function UdpOptionsOf(text: Text, p: Plan): map<string, UdpOptions> {
    map k | k in p.udp :: OptionsOf(text, p, p.udp[k])
  }

  method NextServiceWatchRevision(items: seq<ServiceConfig>) returns (rev: int)
    ensures rev >= 1 && forall c :: c in items ==> c.resourceVersion < rev
    ensures rev == 1 || exists c :: c in items && rev == c.resourceVersion + 1
  {
    var maxRev := 0;
    for i := 0 to |items|
      invariant maxRev >= 0 && forall k :: 0 <= k < i ==> items[k].resourceVersion <= maxRev
      invariant maxRev == 0 || exists k :: 0 <= k < i && items[k].resourceVersion == maxRev
    {
      if items[i].resourceVersion > maxRev {
        maxRev := items[i].resourceVersion;
      }
    }
    if maxRev <= 0 {
      return 1;
    }
    return maxRev + 1;
  }

  // What should listen: the tables of the plan, under keys made again from the listeners ------------------------

  /** Entries are filed under the key of their own listener. */
  ghost predicate KeyedByListener<T(!new)>(text: Text, m: map<string, T>, at: T -> ListenerKey) {
    forall k :: k in m ==> ListenerMapKey(text, at(m[k]).addr, at(m[k]).port) == k
  }

  lemma {:induction false} PlansAreKeyed(text: Text, cs: seq<ServiceConfig>, p: Plan)
    requires Describes(text, cs, p)
    ensures KeyedByListener(text, p.listeners, (l: ListenerPlan) => l.listener)
    ensures KeyedByListener(text, p.tcp, (b: Binding) => b.listener)
    ensures KeyedByListener(text, p.udp, (b: Binding) => b.listener)
  {
    hide ListenerMapKey, KindOf, GroupTables, PolicyTables;
    forall k | k in p.listeners
      ensures ListenerMapKey(text, p.listeners[k].listener.addr, p.listeners[k].listener.port) == k
    {
      var c :| c in cs && Serves(text, c, k) && p.listeners[k].listener == ListenerOf(c);
    }
    BindingsAreKeyed(text, cs, Tcp, p.tcp);
    BindingsAreKeyed(text, cs, Udp, p.udp);
  }

  lemma BindingsAreKeyed(text: Text, cs: seq<ServiceConfig>, kind: Kind, m: map<string, Binding>)
    requires BindingTable(text, cs, kind, m)
    ensures KeyedByListener(text, m, (b: Binding) => b.listener)
  {
    hide ListenerMapKey, KindOf;
    forall k | k in m ensures ListenerMapKey(text, m[k].listener.addr, m[k].listener.port) == k {
      var c :| c in cs && KindOf(text, c) == kind && KeyOf(text, c) == k;
    }
  }

  /** Filing the entries again gives the table back, in whatever order they come. */
  method Desired<T(!new)>(text: Text, m: map<string, T>, at: T -> ListenerKey) returns (desired: map<string, T>)
    requires KeyedByListener(text, m, at)
    ensures desired == m
  {
    hide ListenerMapKey;
    desired := map[];
    var keys := m.Keys;
    while keys != {}
      invariant keys <= m.Keys
      invariant desired == map k | k in m && k !in keys :: m[k]
      decreases keys
    {
      var k :| k in keys;
      keys := keys - {k};
      desired := desired[ListenerMapKey(text, at(m[k]).addr, at(m[k]).port) := m[k]];
    }
  }

  method DesiredUdp(text: Text, p: Plan) returns (desired: map<string, Binding>, options: map<string, UdpOptions>)
    requires KeyedByListener(text, p.udp, (b: Binding) => b.listener)
    ensures desired == p.udp && options == UdpOptionsOf(text, p)
  {
    hide ListenerMapKey, OptionsOf;
    desired, options := map[], map[];
    var keys := p.udp.Keys;
    while keys != {}
      invariant keys <= p.udp.Keys
      invariant desired == map k | k in p.udp && k !in keys :: p.udp[k]
      invariant options == map k | k in p.udp && k !in keys :: OptionsOf(text, p, p.udp[k])
      decreases keys
    {
      var k :| k in keys;
      keys := keys - {k};
      var b := p.udp[k];
      var key := ListenerMapKey(text, b.listener.addr, b.listener.port);
      desired := desired[key := b];
      options := options[key := OptionsOf(text, p, b)];
    }
  }

  /** What a plan wants to listen, and with which UDP options. */
  method Wanted(text: Text, ghost cs: seq<ServiceConfig>, p: Plan)
    returns (http: set<string>, tcp: set<string>, udp: map<string, UdpOptions>)
    requires Describes(text, cs, p)
    ensures http == p.listeners.Keys && tcp == p.tcp.Keys
    ensures udp == UdpOptionsOf(text, p) && udp.Keys == p.udp.Keys
  {
    hide Describes, KeyedByListener, OptionsOf;
    PlansAreKeyed(text, cs, p);
    var desired := Desired(text, p.listeners, (l: ListenerPlan) => l.listener);
    var desiredTcp := Desired(text, p.tcp, (b: Binding) => b.listener);
    var desiredUdp, desiredOptions := DesiredUdp(text, p);
    return desired.Keys, desiredTcp.Keys, desiredOptions;
  }

  // Sockets ---------------------------------------------------------------------------------------------------------

  /** Sockets are numbered as they are created. Those in use are exactly those created and not closed,
      and none is closed twice. */
  ghost predicate Accounted(live: set<nat>, made: nat, closes: multiset<nat>) {
    && (forall h: nat :: h in live <==> h < made && closes[h] == 0)
    && (forall h: nat :: closes[h] <= 1 && (h in closes ==> h < made))
  }

  ghost predicate Injective(m: map<string, nat>) {
    forall k, l :: k in m && l in m && m[k] == m[l] ==> k == l
  }

  /** One kind of sockets, beside those of the other kinds. */
  ghost predicate Apart(m: map<string, nat>, others: set<nat>, made: nat, closes: multiset<nat>) {
    Injective(m) && m.Values !! others && Accounted(m.Values + others, made, closes)
  }

  ghost predicate AllApart(a: map<string, nat>, b: map<string, nat>, c: map<string, nat>, made: nat,
                           closes: multiset<nat>)
  {
    && Apart(a, b.Values + c.Values, made, closes)
    && Apart(b, a.Values + c.Values, made, closes)
    && Apart(c, a.Values + b.Values, made, closes)
  }

  lemma EachApart(a: map<string, nat>, b: map<string, nat>, c: map<string, nat>, made: nat, closes: multiset<nat>)
    requires AllApart(a, b, c, made, closes)
    ensures Apart(a, b.Values + c.Values, made, closes)
    ensures Apart(b, a.Values + c.Values, made, closes)
    ensures Apart(c, a.Values + b.Values, made, closes)
  {}

  lemma NothingOpen()
    ensures AllApart(map[], map[], map[], 0, multiset{})
  {
    var none: map<string, nat> := map[];
    assert none.Values == {} && none.Values + none.Values == {};
    assert Accounted({}, 0, multiset{});
  }

  /** After one kind has changed. */
  lemma FirstChanged(a: map<string, nat>, b: map<string, nat>, c: map<string, nat>, made: nat, closes: multiset<nat>,
                     a': map<string, nat>, made': nat, closes': multiset<nat>)
    requires AllApart(a, b, c, made, closes) && Apart(a', b.Values + c.Values, made', closes')
    ensures AllApart(a', b, c, made', closes')
  {
    hide Accounted, Injective;
    assert a'.Values + (b.Values + c.Values) == b.Values + (a'.Values + c.Values);
    assert a'.Values + (b.Values + c.Values) == c.Values + (a'.Values + b.Values);
  }

  lemma SecondChanged(a: map<string, nat>, b: map<string, nat>, c: map<string, nat>, made: nat, closes: multiset<nat>,
                      b': map<string, nat>, made': nat, closes': multiset<nat>)
    requires AllApart(a, b, c, made, closes) && Apart(b', a.Values + c.Values, made', closes')
    ensures AllApart(a, b', c, made', closes')
  {
    Swapped(a, b, c, made, closes);
    FirstChanged(b, a, c, made, closes, b', made', closes');
    Swapped(b', a, c, made', closes');
  }

  lemma ThirdChanged(a: map<string, nat>, b: map<string, nat>, c: map<string, nat>, made: nat, closes: multiset<nat>,
                     c': map<string, nat>, made': nat, closes': multiset<nat>)
    requires AllApart(a, b, c, made, closes) && Apart(c', a.Values + b.Values, made', closes')
    ensures AllApart(a, b, c', made', closes')
  {
    Swapped(a, c, b, made, closes);
    Swapped(c, a, b, made, closes);
    FirstChanged(c, a, b, made, closes, c', made', closes');
    Swapped(a, c', b, made', closes');
    Swapped(c', a, b, made', closes');
  }

  lemma Swapped(a: map<string, nat>, b: map<string, nat>, c: map<string, nat>, made: nat, closes: multiset<nat>)
    ensures AllApart(a, b, c, made, closes) == AllApart(b, a, c, made, closes) == AllApart(a, c, b, made, closes)
  {
    hide Apart;
    assert a.Values + b.Values == b.Values + a.Values;
    assert a.Values + c.Values == c.Values + a.Values;
    assert b.Values + c.Values == c.Values + b.Values;
  }

  /** The sockets still wanted. */
  ghost function Kept(m: map<string, nat>, desired: set<string>): map<string, nat> {
    map k | k in m && k in desired :: m[k]
  }

  lemma CloseOne(m: map<string, nat>, others: set<nat>, key: string, made: nat, closes: multiset<nat>)
    requires Apart(m, others, made, closes) && key in m
    ensures Apart(m - {key}, others, made, closes + multiset{m[key]})
  {
    assert m[key] in m.Values;
    forall h ensures h in (m - {key}).Values <==> h in m.Values && h != m[key] {
      if h in m.Values && h != m[key] {
        var k :| k in m && m[k] == h;
        assert k in m - {key};
      }
    }
  }

  lemma OpenOne(m: map<string, nat>, others: set<nat>, key: string, made: nat, closes: multiset<nat>)
    requires Apart(m, others, made, closes) && key !in m
    ensures Apart(m[key := made], others, made + 1, closes)
  {
    assert made !in m.Values + others;
    var m' := m[key := made];
    forall h ensures h in m'.Values <==> h in m.Values || h == made {
      assert key in m' && m'[key] == made;
      if h in m.Values {
        var k :| k in m && m[k] == h;
        assert k in m' && m'[k] == h;
      }
    }
  }

  /** `others` are the sockets of the other kinds. */
  method CloseStale(sockets: map<string, nat>, desired: set<string>, ghost others: set<nat>, made: nat,
                    closes: multiset<nat>)
    returns (kept: map<string, nat>, closes': multiset<nat>)
    requires Apart(sockets, others, made, closes)
    ensures kept == Kept(sockets, desired)
    ensures Apart(kept, others, made, closes')
  {
    hide Apart;
    kept, closes' := sockets, closes;
    var keys := sockets.Keys;
    while keys != {}
      invariant keys <= sockets.Keys
      invariant kept == map k | k in sockets && (k in keys || k in desired) :: sockets[k]
      invariant Apart(kept, others, made, closes')
      decreases keys
    {
      var key :| key in keys;
      keys := keys - {key};
      if key !in desired {
        CloseOne(kept, others, key, made, closes');
        closes' := closes' + multiset{kept[key]};
        kept := kept - {key};
      }
    }
  }

  method OpenMissing(sockets: map<string, nat>, desired: set<string>, listens: string -> bool,
                     ghost others: set<nat>, made: nat, ghost closes: multiset<nat>)
    returns (all: map<string, nat>, made': nat)
    requires Apart(sockets, others, made, closes)
    requires sockets.Keys <= desired
    ensures all.Keys == Up(sockets, desired, listens) && all.Keys <= desired
    ensures Extends(sockets, all)
    ensures Apart(all, others, made', closes)
  {
    hide Apart;
    all, made' := sockets, made;
    var keys := desired;
    while keys != {}
      invariant keys <= desired
      invariant all.Keys == set k | k in desired && (k in sockets || (k !in keys && listens(k)))
      invariant forall k :: k in sockets ==> all[k] == sockets[k]
      invariant Apart(all, others, made', closes)
      decreases keys
    {
      var key :| key in keys;
      keys := keys - {key};
      if key !in all && listens(key) {
        OpenOne(all, others, key, made', closes);
        all, made' := all[key := made'], made' + 1;
      }
    }
  }

  /** The same for UDP, where the options on record for a surviving listener are also replaced. Only the
      record changes: the accept loop keeps the buffer it was opened with. */
  method CloseStaleUdp(sockets: map<string, nat>, options: map<string, UdpOptions>, desired: map<string, UdpOptions>,
                       ghost others: set<nat>, made: nat, closes: multiset<nat>)
    returns (kept: map<string, nat>, options': map<string, UdpOptions>, closes': multiset<nat>)
    requires Apart(sockets, others, made, closes)
    requires options.Keys == sockets.Keys
    ensures kept == Kept(sockets, desired.Keys)
    ensures options'.Keys == kept.Keys && options' == OptionsAt(kept, desired)
    ensures Apart(kept, others, made, closes')
  {
    hide Apart;
    kept, options', closes' := sockets, options, closes;
    var keys := sockets.Keys;
    while keys != {}
      invariant keys <= sockets.Keys
      invariant kept == map k | k in sockets && (k in keys || k in desired) :: sockets[k]
      invariant options'.Keys == kept.Keys && forall k :: k in kept && k !in keys ==> options'[k] == desired[k]
      invariant Apart(kept, others, made, closes')
      decreases keys
    {
      var key :| key in keys;
      keys := keys - {key};
      if key in desired {
        options' := options'[key := desired[key]];
      } else {
        CloseOne(kept, others, key, made, closes');
        closes' := closes' + multiset{kept[key]};
        kept, options' := kept - {key}, options' - {key};
      }
    }
  }

  method OpenMissingUdp(sockets: map<string, nat>, options: map<string, UdpOptions>, desired: map<string, UdpOptions>,
                        listens: string -> bool, ghost others: set<nat>, made: nat, ghost closes: multiset<nat>)
    returns (all: map<string, nat>, options': map<string, UdpOptions>, made': nat)
    requires Apart(sockets, others, made, closes)
    requires sockets.Keys <= desired.Keys && options == OptionsAt(sockets, desired)
    ensures all.Keys == Up(sockets, desired.Keys, listens) && all.Keys <= desired.Keys
    ensures Extends(sockets, all)
    ensures options'.Keys == all.Keys && options' == OptionsAt(all, desired)
    ensures Apart(all, others, made', closes)
  {
    hide Apart;
    all, options', made' := sockets, options, made;
    var keys := desired.Keys;
    while keys != {}
      invariant keys <= desired.Keys
      invariant all.Keys == set k | k in desired && (k in sockets || (k !in keys && listens(k)))
      invariant forall k :: k in sockets ==> all[k] == sockets[k]
      invariant options' == OptionsAt(all, desired)
      invariant Apart(all, others, made', closes)
      decreases keys
    {
      var key :| key in keys;
      keys := keys - {key};
      if key !in all && listens(key) {
        OpenOne(all, others, key, made', closes);
        all, options', made' := all[key := made'], options'[key := desired[key]], made' + 1;
      }
    }
  }

  // The server ------------------------------------------------------------------------------------------------------

  /** Which of the plan's listeners of a kind are up: those that were and those that could be opened. */
  ghost function Up(old_: map<string, nat>, wanted: set<string>, listens: string -> bool): set<string> {
    set k | k in wanted && (k in old_ || listens(k))
  }

  /** The options of the listeners that are up. */
  ghost function OptionsAt(sockets: map<string, nat>, options: map<string, UdpOptions>): map<string, UdpOptions> {
    map k | k in sockets && k in options :: options[k]
  }

  ghost predicate Extends(old_: map<string, nat>, new_: map<string, nat>) {
    forall k :: k in old_ ==> k in new_ && new_[k] == old_[k]
  }

  /** A listener that is up before and after is the same listener. */
  ghost predicate Survives(old_: map<string, nat>, new_: map<string, nat>) {
    forall k :: k in old_ && k in new_ ==> new_[k] == old_[k]
  }

  class Server {
    const text: Text
    var plan: Plan
    var state: Balancing.PlanState?
    var lastSnapshot: string
    var watchRevision: int
    var listeners: map<string, nat>
    var tcpListeners: map<string, nat>
    var udpListeners: map<string, nat>
    var udpOptions: map<string, UdpOptions>
    var made: nat
    var closes: multiset<nat>
    /** The listing the plan in force was made from, if there has been one. */
    ghost var applied: Option<seq<ServiceConfig>>

    ghost predicate SocketsAccounted()
      reads this
    {
      AllApart(listeners, tcpListeners, udpListeners, made, closes)
    }

    /** The plan is the plan of the listing, and what listens is what it asks for. */
    ghost predicate InForce(items: seq<ServiceConfig>)
      reads this
    {
      && Compiles(text, Normal(text, items)) && Describes(text, Normal(text, items), plan) && Indexed(text, plan)
      && listeners.Keys == plan.listeners.Keys
      && tcpListeners.Keys <= plan.tcp.Keys
      && udpListeners.Keys <= plan.udp.Keys
      && udpOptions.Keys == udpListeners.Keys && udpOptions == OptionsAt(udpListeners, UdpOptionsOf(text, plan))
      && state != null
    }

    ghost predicate Valid()
      reads this
    {
      && SocketsAccounted()
      && match applied
         case None =>
           && plan == EMPTY_PLAN && state == null && lastSnapshot == "" && watchRevision == 0
           && listeners == map[] && tcpListeners == map[] && udpListeners == map[] && udpOptions == map[]
         case Some(items) =>
           && InForce(items) && lastSnapshot == SnapshotKey(text, items)
           && forall c :: c in items ==> c.resourceVersion < watchRevision
    }

    constructor (text: Text)
      ensures Valid() && this.text == text && applied.None?
    {
      this.text := text;
      plan, state, lastSnapshot, watchRevision := EMPTY_PLAN, null, "", 0;
      listeners, tcpListeners, udpListeners, udpOptions := map[], map[], map[], map[];
      made, closes, applied := 0, multiset{}, None;
      new;
      NothingOpen();
    }

    method CloseAllStale(http: set<string>, tcp: set<string>, udp: map<string, UdpOptions>)
      requires SocketsAccounted() && udpOptions.Keys == udpListeners.Keys
      modifies this`listeners, this`tcpListeners, this`udpListeners, this`udpOptions, this`closes
      ensures SocketsAccounted()
      ensures listeners == Kept(old(listeners), http)
      ensures tcpListeners == Kept(old(tcpListeners), tcp)
      ensures udpListeners == Kept(old(udpListeners), udp.Keys)
      ensures udpOptions.Keys == udpListeners.Keys && udpOptions == OptionsAt(udpListeners, udp)
    {
      hide Apart, AllApart, Kept, OptionsAt;
      EachApart(listeners, tcpListeners, udpListeners, made, closes);
      var http', closes' := CloseStale(listeners, http, tcpListeners.Values + udpListeners.Values, made, closes);
      FirstChanged(listeners, tcpListeners, udpListeners, made, closes, http', made, closes');
      listeners, closes := http', closes';
      EachApart(listeners, tcpListeners, udpListeners, made, closes);
      var tcp';
      tcp', closes' := CloseStale(tcpListeners, tcp, listeners.Values + udpListeners.Values, made, closes);
      SecondChanged(listeners, tcpListeners, udpListeners, made, closes, tcp', made, closes');
      tcpListeners, closes := tcp', closes';
      EachApart(listeners, tcpListeners, udpListeners, made, closes);
      var udp', options';
      udp', options', closes' :=
        CloseStaleUdp(udpListeners, udpOptions, udp, listeners.Values + tcpListeners.Values, made, closes);
      ThirdChanged(listeners, tcpListeners, udpListeners, made, closes, udp', made, closes');
      udpListeners, udpOptions, closes := udp', options', closes';
    }

    method OpenAllMissing(http: set<string>, tcp: set<string>, udp: map<string, UdpOptions>,
                          listensTcp: string -> bool, listensUdp: string -> bool)
      requires SocketsAccounted()
      requires listeners.Keys <= http && tcpListeners.Keys <= tcp && udpListeners.Keys <= udp.Keys
      requires udpOptions == OptionsAt(udpListeners, udp)
      modifies this`listeners, this`tcpListeners, this`udpListeners, this`udpOptions, this`made
      ensures SocketsAccounted()
      ensures listeners.Keys == Up(old(listeners), http, k => true)
      ensures tcpListeners.Keys == Up(old(tcpListeners), tcp, listensTcp)
      ensures udpListeners.Keys == Up(old(udpListeners), udp.Keys, listensUdp)
      ensures tcpListeners.Keys <= tcp && udpListeners.Keys <= udp.Keys
      ensures udpOptions.Keys == udpListeners.Keys && udpOptions == OptionsAt(udpListeners, udp)
      ensures Extends(old(listeners), listeners)
      ensures Extends(old(tcpListeners), tcpListeners)
      ensures Extends(old(udpListeners), udpListeners)
    {
      hide Apart, AllApart, Up, Extends, OptionsAt;
      EachApart(listeners, tcpListeners, udpListeners, made, closes);
      var http', made' := OpenMissing(listeners, http, k => true, tcpListeners.Values + udpListeners.Values, made,
                                      closes);
      FirstChanged(listeners, tcpListeners, udpListeners, made, closes, http', made', closes);
      listeners, made := http', made';
      EachApart(listeners, tcpListeners, udpListeners, made, closes);
      var tcp';
      tcp', made' := OpenMissing(tcpListeners, tcp, listensTcp, listeners.Values + udpListeners.Values, made, closes);
      SecondChanged(listeners, tcpListeners, udpListeners, made, closes, tcp', made', closes);
      tcpListeners, made := tcp', made';
      EachApart(listeners, tcpListeners, udpListeners, made, closes);
      var udp', options';
      udp', options', made' :=
        OpenMissingUdp(udpListeners, udpOptions, udp, listensUdp, listeners.Values + tcpListeners.Values, made, closes);
      ThirdChanged(listeners, tcpListeners, udpListeners, made, closes, udp', made', closes);
      udpListeners, udpOptions, made := udp', options', made';
    }

    /** Closes what is not wanted, opens what is missing; what was up and is wanted is not touched. */
    method Reconcile(http: set<string>, tcp: set<string>, udp: map<string, UdpOptions>,
                     listensTcp: string -> bool, listensUdp: string -> bool)
      requires SocketsAccounted() && udpOptions.Keys == udpListeners.Keys
      modifies this`listeners, this`tcpListeners, this`udpListeners, this`udpOptions, this`made, this`closes
      ensures SocketsAccounted()
      ensures listeners.Keys == http
      ensures tcpListeners.Keys == Up(old(tcpListeners), tcp, listensTcp)
      ensures udpListeners.Keys == Up(old(udpListeners), udp.Keys, listensUdp)
      ensures tcpListeners.Keys <= tcp && udpListeners.Keys <= udp.Keys
      ensures udpOptions.Keys == udpListeners.Keys && udpOptions == OptionsAt(udpListeners, udp)
      ensures Survives(old(listeners), listeners)
      ensures Survives(old(tcpListeners), tcpListeners)
      ensures Survives(old(udpListeners), udpListeners)
      ensures forall k :: k in tcpListeners <==> k in tcp && (k in old(tcpListeners) || listensTcp(k))
      ensures forall k :: k in udpListeners <==> k in udp && (k in old(udpListeners) || listensUdp(k))
      ensures forall k :: k in udpListeners ==> udpOptions[k] == udp[k]
      ensures forall k :: k in listeners && k in old(listeners) ==> listeners[k] == old(listeners)[k]
      ensures forall k :: k in tcpListeners && k in old(tcpListeners) ==> tcpListeners[k] == old(tcpListeners)[k]
      ensures forall k :: k in udpListeners && k in old(udpListeners) ==> udpListeners[k] == old(udpListeners)[k]
    {
      hide SocketsAccounted;
      CloseAllStale(http, tcp, udp);
      OpenAllMissing(http, tcp, udp, listensTcp, listensUdp);
    }

    /** The second half of a refresh: a new plan takes over. */
    method Adopt(items: seq<ServiceConfig>, next: Plan, snapshot: string, nextWatchRev: int,
                 listensTcp: string -> bool, listensUdp: string -> bool)
      requires SocketsAccounted() && udpOptions.Keys == udpListeners.Keys
      requires Compiles(text, Normal(text, items)) && Describes(text, Normal(text, items), next) && Indexed(text, next)
      modifies this
      ensures SocketsAccounted() && InForce(items)
      ensures plan == next && lastSnapshot == snapshot && applied == Some(items)
      ensures watchRevision == if nextWatchRev > old(watchRevision) then nextWatchRev else old(watchRevision)
      ensures if old(state) == null then fresh(state) else state == old(state)
      ensures tcpListeners.Keys == Up(old(tcpListeners), next.tcp.Keys, listensTcp)
      ensures udpListeners.Keys == Up(old(udpListeners), next.udp.Keys, listensUdp)
      ensures Survives(old(listeners), listeners)
      ensures Survives(old(tcpListeners), tcpListeners)
      ensures Survives(old(udpListeners), udpListeners)
    {
      hide AllApart, Describes, Compiles, Indexed, Normal, UdpOptionsOf, OptionsAt, Survives, Up;
      var http, tcp, udp := Wanted(text, Normal(text, items), next);
      if state == null {
        state := new Balancing.PlanState();
      }
      plan, lastSnapshot, applied := next, snapshot, Some(items);
      if nextWatchRev > watchRevision {
        watchRevision := nextWatchRev;
      }
      Reconcile(http, tcp, udp, listensTcp, listensUdp);
    }

    /** One refresh. `listing` is what the registry returned, or nothing on an error; `listensTcp` and
        `listensUdp` say for which listener keys opening a socket would succeed. */
    method Refresh(listing: Option<seq<ServiceConfig>>, listensTcp: string -> bool, listensUdp: string -> bool)
      returns (ok: bool)
      requires Valid()
      modifies this
      ensures Valid()
      ensures watchRevision >= old(watchRevision)
      ensures ok <==> listing.Some? && (SnapshotKey(text, listing.value) == old(lastSnapshot)
                                        || Compiles(text, Normal(text, listing.value)))
      ensures ok ==> lastSnapshot == SnapshotKey(text, listing.value)
      ensures ok ==> forall c :: c in listing.value ==> c.resourceVersion < watchRevision
      ensures ok ==> (watchRevision == old(watchRevision) || watchRevision == 1
                      || exists c :: c in listing.value && watchRevision == c.resourceVersion + 1)
      ensures !ok ==> unchanged(this)
      ensures ok && lastSnapshot == old(lastSnapshot) ==>
                unchanged(`plan, `state, `listeners, `tcpListeners, `udpListeners, `udpOptions, `made, `closes,
                          `applied)
      ensures ok && lastSnapshot != old(lastSnapshot) ==>
                && applied == listing
                && tcpListeners.Keys == Up(old(tcpListeners), plan.tcp.Keys, listensTcp)
                && udpListeners.Keys == Up(old(udpListeners), plan.udp.Keys, listensUdp)
      ensures old(state) != null ==> state == old(state)
      ensures Survives(old(listeners), listeners)
      ensures Survives(old(tcpListeners), tcpListeners)
      ensures Survives(old(udpListeners), udpListeners)
    {
      hide AllApart, Describes, Compiles, Indexed, SnapshotKey, Up, UdpOptionsOf;
      if listing.None? {
        return false;
      }
      var items := listing.value;
      var nextWatchRev := NextServiceWatchRevision(items);
      var snapshot := ServiceSnapshotKey(text, items);
      NeverBlank(text, items);
      if snapshot == lastSnapshot {
        if nextWatchRev > watchRevision {
          watchRevision := nextWatchRev;
        }
        return true;
      }
      var built := BuildPlan(text, items);
      if built.Err? {
        return false;
      }
      Adopt(items, built.value, snapshot, nextWatchRev, listensTcp, listensUdp);
      return true;
    }

    // Against a registry --------------------------------------------------------------------------------------------

    /** The listing in force is that of store state `seen`, and no later event is before the watch. */
    ghost predicate Follows(seen: Registry.Kv)
      reads this
    {
      && watchRevision <= |seen.log| + 1
      && Registry.Inv(text, seen)
      && (applied.Some? ==> Registry.IsListing(text, seen, applied.value))
    }

    /** A refresh that reads the registry in state `kv`, at or after the state it read last. Whenever it
        succeeds, by applying the listing or by recognising it, the plan in force is the plan of exactly
        this listing; otherwise everything stays as it was. */
    method RefreshFrom(ghost seen: Registry.Kv, ghost kv: Registry.Kv, listing: Option<seq<ServiceConfig>>,
                       listensTcp: string -> bool, listensUdp: string -> bool)
      returns (ok: bool)
      requires Valid() && Follows(seen) && Registry.Inv(text, kv) && seen.log <= kv.log
      requires CleanNames(text, seen) || CleanNames(text, kv)
      requires listing.Some? ==> Registry.IsListing(text, kv, listing.value)
      modifies this
      ensures Valid()
      ensures ok <==> listing.Some? && Compiles(text, Normal(text, listing.value))
      ensures ok ==> applied == listing && InForce(listing.value) && Follows(kv)
      ensures !ok ==> unchanged(this) && Follows(seen)
    {
      hide AllApart, Compiles, Describes, Indexed, SnapshotKey, Up, Survives;
      hide Registry.IsListing, Registry.Inv, CleanNames;
      ok := Refresh(listing, listensTcp, listensUdp);
      if ok {
        NeverBlank(text, listing.value);
        RevisionsInLog(text, kv, listing.value);
        if lastSnapshot == old(lastSnapshot) {
          SameFingerprintSameListing(text, seen, kv, applied.value, listing.value);
        }
      }
    }

    /** Where the watch starts: an event after the listing in force has a revision of at least this. */
    method GetServiceWatchRevision(ghost seen: Registry.Kv) returns (rev: int)
      requires Follows(seen)
      ensures 1 <= rev <= |seen.log| + 1
    {
      if watchRevision <= 0 {
        return 1;
      }
      return watchRevision;
    }
  }

  // Recognising a listing ---------------------------------------------------------------------------------------------

  ghost predicate CleanNames(text: Text, kv: Registry.Kv) {
    forall c :: c in Registry.Items(kv) ==> Clean(text.trim(c.name))
  }

  lemma RevisionsInLog(text: Text, kv: Registry.Kv, items: seq<ServiceConfig>)
    requires Registry.Inv(text, kv) && Registry.IsListing(text, kv, items)
    ensures forall c :: c in items ==> 1 <= c.resourceVersion <= |kv.log|
  {
    hide Registry.ServiceKey;
    forall c | c in items ensures 1 <= c.resourceVersion <= |kv.log| {
      assert c in Registry.Items(kv);
      var k :| k in kv.data && c == kv.data[k].value.(resourceVersion := kv.data[k].modRev);
      assert Registry.KeyMatchesLog(text, kv, k);
    }
  }

  /** What one listing shows at some revision and the later one shows under an equal entry is the same. */
  lemma EntriesShared(text: Text, s: Registry.Kv, t: Registry.Kv, a: seq<ServiceConfig>, b: seq<ServiceConfig>)
    requires Registry.Inv(text, s) && Registry.Inv(text, t) && s.log <= t.log
    requires Registry.IsListing(text, s, a) && Registry.IsListing(text, t, b)
    requires multiset(Entries(text, a)) == multiset(Entries(text, b))
    ensures forall c :: c in a <==> c in b
  {
    hide Registry.Inv, Registry.Items;
    SameMembers(Entries(text, a), Entries(text, b));
    forall c | c in a ensures c in b {
      var i :| 0 <= i < |a| && a[i] == c;
      assert Entries(text, a)[i] in Entries(text, b);
      var j :| 0 <= j < |b| && Entries(text, b)[j] == Entries(text, a)[i];
      Registry.RevisionIdentifies(text, s, t, c, b[j]);
    }
    forall c | c in b ensures c in a {
      var i :| 0 <= i < |b| && b[i] == c;
      assert Entries(text, b)[i] in Entries(text, a);
      var j :| 0 <= j < |a| && Entries(text, a)[j] == Entries(text, b)[i];
      Registry.RevisionIdentifies(text, s, t, a[j], c);
    }
  }

  /** Between two states of one registry, equal fingerprints mean equal listings: every stored write
      takes a new revision, so a revision shown twice shows the same configuration. */
  lemma SameFingerprintSameListing(text: Text, s: Registry.Kv, t: Registry.Kv, a: seq<ServiceConfig>,
                                   b: seq<ServiceConfig>)
    requires Registry.Inv(text, s) && Registry.Inv(text, t) && s.log <= t.log
    requires Registry.IsListing(text, s, a) && Registry.IsListing(text, t, b)
    requires CleanNames(text, s) || CleanNames(text, t)
    ensures SnapshotKey(text, a) == SnapshotKey(text, b) <==> a == b
  {
    hide Registry.Inv, Registry.Items, SnapshotKey, Registry.ServiceKey, Clean;
    if SnapshotKey(text, a) == SnapshotKey(text, b) {
      assert CleanNames(text, s) ==> CleanItems(text, a);
      assert CleanNames(text, t) ==> CleanItems(text, b);
      SnapshotIdentifies(text, a, b);
      EntriesShared(text, s, t, a, b);
      Registry.ListingUnique(text, a, b);
    }
  }

  /** The same said of whole histories: whatever clients did between two listings, skipping on an equal
      fingerprint skips nothing. */
  lemma SkipIsSound(text: Text, before: seq<Registry.Step>, between: seq<Registry.Step>,
                    a: seq<ServiceConfig>, b: seq<ServiceConfig>)
    requires text.Laws()
    requires Registry.IsListing(text, Registry.Run(text, Registry.NO_DATA, before), a)
    requires Registry.IsListing(text, Registry.Run(text, Registry.Run(text, Registry.NO_DATA, before), between), b)
    requires CleanNames(text, Registry.Run(text, Registry.NO_DATA, before))
      || CleanNames(text, Registry.Run(text, Registry.Run(text, Registry.NO_DATA, before), between))
    ensures SnapshotKey(text, a) == SnapshotKey(text, b) <==> a == b
  {
    hide Registry.Inv, Registry.IsListing, CleanNames, SnapshotKey, Registry.Run;
    var s := Registry.Run(text, Registry.NO_DATA, before);
    Registry.EmptyKvInv(text);
    Registry.RunKeepsInv(text, Registry.NO_DATA, before);
    Registry.RunKeepsInv(text, s, between);
    SameFingerprintSameListing(text, s, Registry.Run(text, s, between), a, b);
  }

  // Options -----------------------------------------------------------------------------------------------------------

  /** A UDP listener runs with the options of its own service exactly when looking that service up by its
      trimmed name finds a service with the same options. For a trimmed name it always does; the plan
      files policies under names as stored, so for another name it need not. */
  lemma OwnOptions(text: Text, cs: seq<ServiceConfig>, p: Plan, c: ServiceConfig)
    requires Describes(text, cs, p) && DistinctServices(cs) && c in cs && Valid(text, c) && KindOf(text, c) == Udp
    ensures KeyOf(text, c) in UdpOptionsOf(text, p)
    ensures UdpOptionsOf(text, p)[KeyOf(text, c)] == RuntimeOptions(c.policy.udp) <==>
            exists d :: d in cs && d.name == text.trim(c.name) && d.policy.udp == c.policy.udp
    ensures text.trim(c.name) == c.name ==> UdpOptionsOf(text, p)[KeyOf(text, c)] == RuntimeOptions(c.policy.udp)
  {
    hide ListenerMapKey, KindOf, RouteTables, GroupTables, Valid, RuntimeOptions, LastNamed;
    ValidOptions(text, c);
    assert p.udp[KeyOf(text, c)] == BindingOf(c);
    LastNamedIsMember(cs, text.trim(c.name));
    forall d | d in cs
      ensures RuntimeOptions(d.policy.udp) == RuntimeOptions(c.policy.udp) <==> d.policy.udp == c.policy.udp
    {
      OptionsTellPolicies(d.policy.udp, c.policy.udp);
    }
  }

  /** In a listing of the registry trimmed names are distinct, so that is exactly when the name is its own trim. */
  lemma OwnOptionsIffTrimmed(text: Text, kv: Registry.Kv, items: seq<ServiceConfig>, p: Plan, c: ServiceConfig)
    requires text.Laws() && Registry.IsListing(text, kv, items) && Describes(text, Normal(text, items), p)
    requires c in Normal(text, items) && Valid(text, c) && KindOf(text, c) == Udp
    ensures KeyOf(text, c) in UdpOptionsOf(text, p)
    ensures UdpOptionsOf(text, p)[KeyOf(text, c)] == RuntimeOptions(c.policy.udp) <==> text.trim(c.name) == c.name
  {
    hide Describes, KindOf, ListenerMapKey, Valid, Normal, Registry.IsListing, UdpOptionsOf, RuntimeOptions;
    ListedTrimsAreDistinct(text, kv, items);
    TrimsMakeNamesDistinct(text, Normal(text, items));
    OwnOptions(text, Normal(text, items), p, c);
    OnlyOwnTrim(text, Normal(text, items), c);
  }

  lemma ListedTrimsAreDistinct(text: Text, kv: Registry.Kv, items: seq<ServiceConfig>)
    requires Registry.IsListing(text, kv, items)
    ensures DistinctTrims(text, Normal(text, items))
  {
    hide Registry.Items;
    var cs := Normal(text, items);
    forall i, j | 0 <= i < j < |cs| ensures text.trim(cs[i].name) != text.trim(cs[j].name) {
      assert cs[i].name == items[i].name && cs[j].name == items[j].name;
      LessIrreflexive(Registry.ServiceKey(text, items[i].name));
    }
  }

  lemma OptionsTellPolicies(a: UdpPolicy, b: UdpPolicy)
    ensures RuntimeOptions(a) == RuntimeOptions(b) <==> a == b
  {}

  lemma ValidOptions(text: Text, c: ServiceConfig)
    requires Valid(text, c)
    ensures RuntimeOptions(c.policy.udp) != NO_OPTIONS
  {
    assert ValidPolicy(text, c.policy);
  }

  /** The options on record are the service's own sizes and times, in nanoseconds, each in its place. */
  lemma OptionsAreTheService(text: Text, cs: seq<ServiceConfig>, p: Plan, c: ServiceConfig)
    requires Describes(text, cs, p) && DistinctServices(cs) && c in cs && Valid(text, c) && KindOf(text, c) == Udp
    requires text.trim(c.name) == c.name
    ensures KeyOf(text, c) in UdpOptionsOf(text, p)
    ensures var o, u := UdpOptionsOf(text, p)[KeyOf(text, c)], c.policy.udp;
            && o.maxPacketSize == u.maxPacketSize
            && o.dialTimeout == u.dialTimeoutMs * 1_000_000 && o.readTimeout == u.readTimeoutMs * 1_000_000
            && o.writeTimeout == u.writeTimeoutMs * 1_000_000 && o.sessionTtl == u.sessionTtlMs * 1_000_000
  {
    hide Describes, Valid, KindOf, ListenerMapKey, UdpOptionsOf;
    OwnOptions(text, cs, p, c);
  }

  /** The failing inputs, all of them: a UDP service alone, valid and compiling, under a name that is not its
      own trim. Its listener runs with no options at all; a packet size of zero means that every datagram
      reads as empty and is passed over. */
  lemma UntrimmedNameLosesOptions(text: Text, c: ServiceConfig, p: Plan)
    requires Valid(text, c) && KindOf(text, c) == Udp && text.trim(c.name) != c.name
    requires Describes(text, [c], p)
    ensures Compiles(text, [c])
    ensures KeyOf(text, c) in UdpOptionsOf(text, p) && UdpOptionsOf(text, p)[KeyOf(text, c)] == NO_OPTIONS
    ensures RuntimeOptions(c.policy.udp) != NO_OPTIONS
  {
    hide ListenerMapKey, KindOf, RouteTables, GroupTables, RuntimeOptions;
    ValidOptions(text, c);
    CompilesAlone(text, c);
    assert c in [c] && p.udp[KeyOf(text, c)] == BindingOf(c);
    LastNamedIsMember([c], text.trim(c.name));
  }

  lemma CompilesAlone(text: Text, c: ServiceConfig)
    requires Valid(text, c)
    ensures Compiles(text, [c])
  {
    hide ValidPolicy, ValidServiceRoute, ValidGroup, MayCoexist;
    FlatMapSnoc([], c, ItemsOf());
    assert [] + [c] == [c] && GroupItems([]) == [];
    assert [] + ItemsOf()(c) == ItemsOf()(c);
    forall i, j | 0 <= i < j < |ItemsOf()(c)| ensures NameOf(text, ItemsOf()(c)[i]) != NameOf(text, ItemsOf()(c)[j]) {
      assert text.trim(c.groups[i].name) != text.trim(c.groups[j].name);
    }
  }

  /** Such a service. */
  const SPACED := ServiceConfig(" u", 0, [ServiceRoute(["*"], "/", "d", 1)], [],
                                Policy("l4-udp", ["udp"], "0.0.0.0", 53, UdpPolicy(1, 1, 1, 100, 512),
                                       "", 0, 0.0, 0, 1))

  lemma SpacedIsValid(text: Text)
    requires text.Laws() && text.trim(" u") == "u" && text.ipv4("0.0.0.0") && text.lower("udp") == "udp"
             && text.lower("") == ""
    requires forall s :: s in {"*", "/", "d", "l4-udp", "udp", "0.0.0.0"} ==> text.trim(s) == s
    ensures Valid(text, SPACED) && KindOf(text, SPACED) == Udp && text.trim(SPACED.name) != SPACED.name
  {
    assert text.trim("l4-udp") == "l4-udp" && text.trim("udp") == "udp" && text.trim("0.0.0.0") == "0.0.0.0";
    assert text.Fold("") == "" && text.Fold("udp") == "udp" && SPACED.policy.protocols[0] == "udp";
    assert ProtocolOf("l4-udp") == "udp" && text.Fold("l4-udp") == "l4-udp";
    assert ValidPolicy(text, SPACED.policy);
    assert text.trim("/") == "/" && text.trim("d") == "d" && text.trim("*") == "*";
    assert ValidServiceRoute(text, SPACED.routes[0]);
  }
}
