/** Serving one HTTP request: choosing upstreams and retrying until one answers. */
module Failover {
  import opened Strings
  import opened Wrappers
  import opened Sequences
  import opened Sorting
  import opened ServiceModel
  import opened RouteIndex
  import opened PlanCompiler
  import opened PlanTheorems
  import opened Balancing

  /** What lies outside: which addresses parse, which upstreams complete an exchange, with what status
      and after how many milliseconds, which destinations are direct addresses, and how a decimal
      header parses. */
  datatype Env = Env(
    parses: string -> bool,
    completes: string -> bool,
    status: string -> int,
    elapsed: string -> real,
    direct: string -> bool,
    atoi: string -> Option<int>)

  /** A transport error reads as status 502. */
  function StatusOf(env: Env, upstream: string): int {
    if env.completes(upstream) then env.status(upstream) else 502
  }

  /** The random draws one request may consume. */
  datatype Draws = Draws(weighted: nat, direct: seq<nat>, relay: seq<nat>)

  ghost predicate DrawsFit(text: Text, p: Plan, dest: string, d: Draws) {
    var name := text.trim(dest);
    name in p.groups ==>
      && (Total(p.groups[name].targets) > 0 ==> d.weighted < Total(p.groups[name].targets))
      && IsDraw(d.direct, |Select(text, p.groups[name].targets, false)|)
      && IsDraw(d.relay, |Select(text, p.groups[name].targets, true)|)
  }

  function EffectiveMaxAttempts(configured: int): int { if configured <= 0 then 1 else configured }

  function EffectiveMaxHops(configured: int): int { if configured <= 0 then 2 else configured }

  function ApplyRetryBudget(maxAttempts: int, ratio: real): int {
    if maxAttempts <= 1 || ratio <= 0.0 then 1
    else if ratio >= 1.0 then maxAttempts
    else
      var extra := maxAttempts - 1;
      var allowed := (extra as real * ratio).Floor;
      1 + (if allowed == 0 then 1 else if allowed > extra then extra else allowed)
  }

  /** The budget never adds attempts, never takes the first one away, and leaves a retry exactly when
      retries were configured at all. */
  lemma RetryBudgetBounds(maxAttempts: int, ratio: real)
    ensures var n := ApplyRetryBudget(EffectiveMaxAttempts(maxAttempts), ratio);
            && 1 <= n <= EffectiveMaxAttempts(maxAttempts)
            && (n >= 2 <==> maxAttempts >= 2 && ratio > 0.0)
  {
    var m := EffectiveMaxAttempts(maxAttempts);
    if m > 1 && 0.0 < ratio < 1.0 {
      assert (m - 1) as real * ratio >= 0.0;
    }
  }

  function ParseIncomingHops(text: Text, env: Env, raw: string): Option<int> {
    var t := text.trim(raw);
    if t == "" then Some(0)
    else
      var n := env.atoi(t);
      if n.None? || n.value < 0 then None else n
  }

  predicate ShouldRetryStatus(status: int) { status >= 502 }

  predicate Parses(text: Text, env: Env, dest: string) { text.trim(dest) != "" && env.parses(text.trim(dest)) }

  predicate IsRelayCandidate(text: Text, p: Plan, dest: string, resolved: string) {
    text.trim(dest) in p.relayAddrs && text.trim(resolved) in p.relayAddrs[text.trim(dest)]
  }

  // Resolving destinations -----------------------------------------------------------------------------------

  function Loopback(addr: string): string { if addr == "0.0.0.0" then "127.0.0.1" else addr }

  /** A destination that is no backend group: another service's listener or a direct address. */
  function ResolveOther(text: Text, env: Env, p: Plan, dest: string): Option<string> {
    var name := text.trim(dest);
    if name == "" then None
    else if name in p.serviceListeners then
      Some(JoinHostPort(Loopback(p.serviceListeners[name].addr), p.serviceListeners[name].port))
    else if env.direct(name) then Some(name)
    else None
  }

  /** What a single pick from a group may be. */
  ghost predicate Picked(strategy: Strategy, targets: seq<BackendTarget>, group: string, counters: map<string, nat>,
                         latencies: map<string, real>, draw: nat, r: Option<string>)
  {
    if targets == [] then r.None?
    else
      match strategy
      case LoadFirst =>
        exists i :: 0 <= i < |targets| && r == Some(targets[i].addr)
          && forall j :: 0 <= j < |targets| ==> !LoadBefore(targets[j], targets[i])
      case LatencyFirst =>
        exists i :: 0 <= i < |targets| && r == Some(targets[i].addr)
          && forall j :: 0 <= j < |targets| ==> !LatencyBefore(latencies)(targets[j], targets[i])
      case RoundRobin => r == Some(targets[RoundRobinIndex(counters, group, |targets|)].addr)
      case Random =>
        if |targets| == 1 then r == Some(targets[0].addr)
        else if Total(targets) <= 0 then r.None?
        else exists i :: FallsOn(targets, draw, i) && r == Some(targets[i].addr)
      case Custom(_) => r.None?
  }

  lemma HeadPrecedesAll(less: (BackendTarget, BackendTarget) -> bool, targets: seq<BackendTarget>,
                        s: seq<BackendTarget>)
    returns (i: nat)
    requires WeakOrder(less) && Sorted(less, s) && multiset(s) == multiset(targets) && targets != []
    ensures s != [] && i < |targets| && s[0] == targets[i]
    ensures forall j :: 0 <= j < |targets| ==> !less(targets[j], targets[i])
  {
    SameMembers(s, targets);
    assert |multiset(s)| == |multiset(targets)|;
    assert s[0] in targets;
    i :| 0 <= i < |targets| && targets[i] == s[0];
    forall j | 0 <= j < |targets| ensures !less(targets[j], s[0]) {
      assert targets[j] in s;
      var k :| 0 <= k < |s| && s[k] == targets[j];
    }
  }

  method SelectBackendTarget(text: Text, state: PlanState, group: string, targets: seq<BackendTarget>,
                             strategy: string, draw: nat)
    returns (r: Option<string>)
    requires Total(targets) > 0 ==> draw < Total(targets)
    modifies state
    ensures Picked(StrategyOf(text, strategy), targets, group, old(state.rrCounters), old(state.latencyEWMA), draw, r)
    ensures state.rrCounters == CountersAfterOrder(StrategyOf(text, strategy), old(state.rrCounters), group, |targets|)
    ensures Ticks(old(state.rrCounters), state.rrCounters, group,
                  AsksFor(text, strategy, {"rr", "round-robin"}) && |targets| > 1)
    ensures AsksFor(text, strategy, {"rr", "round-robin"}) && |targets| > 1 ==>
              r == Some(targets[CounterAt(old(state.rrCounters), group) % |targets|].addr)
    ensures state.latencyEWMA == old(state.latencyEWMA)
  {
    hide StrategyOf, AsksFor;
    StrategyNames(text, strategy);
    if targets == [] {
      return None;
    }
    match StrategyOf(text, strategy)
    case LoadFirst =>
      var best := LoadFirstPick(targets);
      r := Some(best.addr);
    case LatencyFirst =>
      var ordered := Sort(LatencyBefore(state.latencyEWMA), targets);
      r := Some(ordered[0].addr);
      LatencyBeforeIsWeakOrder(state.latencyEWMA);
      SortSorted(LatencyBefore(state.latencyEWMA), targets);
      var _ := HeadPrecedesAll(LatencyBefore(state.latencyEWMA), targets, ordered);
    case RoundRobin =>
      var i := state.NextRoundRobinIndex(group, |targets|);
      r := Some(targets[i].addr);
    case Random =>
      r := WeightedRandomTarget(targets, draw);
    case Custom(_) =>
      r := None;
  }

  /** What resolving a destination to one upstream may give. */
  ghost predicate OneChoice(text: Text, env: Env, p: Plan, dest: string, counters: map<string, nat>,
                            latencies: map<string, real>, d: Draws, r: Option<string>)
  {
    var name := text.trim(dest);
    if name != "" && name in p.groups && name in p.strategies then
      Picked(StrategyOf(text, p.strategies[name]), p.groups[name].targets, name, counters, latencies, d.weighted, r)
    else r == ResolveOther(text, env, p, dest)
  }

  /** What resolving it to a list of upstreams may give: for a group its ordered targets, cycled, even when
      one attempt is asked for; otherwise the one upstream again and again. */
  ghost predicate Listed(text: Text, env: Env, p: Plan, dest: string, attempts: int, counters: map<string, nat>,
                         latencies: map<string, real>, d: Draws, c: Option<seq<string>>)
  {
    var name := text.trim(dest);
    if attempts <= 0 then c.None?
    else if name != "" && name in p.groups && name in p.strategies then
      var targets := p.groups[name].targets;
      if targets == [] then c.None?
      else
        var luck := LuckOf(text, counters, latencies, name, targets, p.strategies[name], d.direct, d.relay);
        && Fits(text, targets, luck)
        && var o := Addresses(OrderedGroup(text, targets, StrategyOf(text, p.strategies[name]), luck));
           o != [] && c == Some(Cycle(o, attempts))
    else
      var r := ResolveOther(text, env, p, dest);
      c == if r.None? then None else Some(seq(attempts, i => r.value))
  }

  /** The upstreams an HTTP request may be sent to, in order; None when the destination does not resolve. */
  ghost predicate Candidates(text: Text, env: Env, p: Plan, dest: string, attempts: int, counters: map<string, nat>,
                             latencies: map<string, real>, d: Draws, c: Option<seq<string>>)
  {
    if attempts <= 1 then
      exists r :: OneChoice(text, env, p, dest, counters, latencies, d, r)
        && c == (if r.None? then None else Some([r.value]))
    else Listed(text, env, p, dest, attempts, counters, latencies, d, c)
  }

  lemma ChoiceIsCandidate(text: Text, env: Env, p: Plan, dest: string, attempts: int, counters: map<string, nat>,
                          latencies: map<string, real>, d: Draws, r: Option<string>)
    requires OneChoice(text, env, p, dest, counters, latencies, d, r) && attempts <= 1
    ensures Candidates(text, env, p, dest, attempts, counters, latencies, d, if r.None? then None else Some([r.value]))
  {
    hide OneChoice;
  }

  lemma ListIsCandidates(text: Text, env: Env, p: Plan, dest: string, attempts: int, counters: map<string, nat>,
                         latencies: map<string, real>, d: Draws, c: Option<seq<string>>)
    requires Listed(text, env, p, dest, attempts, counters, latencies, d, c) && attempts >= 2
    ensures Candidates(text, env, p, dest, attempts, counters, latencies, d, c)
  {
    hide Listed;
  }

  /** The round-robin counters after a single pick. */
  function CountersAfterOne(text: Text, p: Plan, dest: string, counters: map<string, nat>): map<string, nat> {
    var name := text.trim(dest);
    if name == "" || name !in p.groups || name !in p.strategies then counters
    else CountersAfterOrder(StrategyOf(text, p.strategies[name]), counters, name, |p.groups[name].targets|)
  }

  /** A list of candidates moves one counter for the direct and one for the relay targets. */
  function CountersAfterList(text: Text, p: Plan, dest: string, attempts: int, counters: map<string, nat>)
    : map<string, nat>
  {
    var name := text.trim(dest);
    if attempts <= 0 || name == "" || name !in p.groups || name !in p.strategies then counters
    else CountersAfterGroup(text, StrategyOf(text, p.strategies[name]), counters, name, p.groups[name].targets)
  }

  function CountersAfterResolve(text: Text, p: Plan, dest: string, attempts: int, counters: map<string, nat>)
    : map<string, nat>
  {
    if attempts <= 1 then CountersAfterOne(text, p, dest, counters)
    else CountersAfterList(text, p, dest, attempts, counters)
  }

  /** An exchange that ends the request is measured; one that only fails over is not. */
  function LatenciesAfter(text: Text, env: Env, single: bool, latencies: map<string, real>, r: Reply)
    : map<string, real>
  {
    match r.answeredBy
    case None => latencies
    case Some(upstream) =>
      if (if single then env.completes(upstream) else !ShouldRetryStatus(r.status)) then
        Observed(text, latencies, upstream, env.elapsed(upstream))
      else latencies
  }

  ghost predicate GroupsComplete(p: Plan) { p.groups.Keys == p.strategies.Keys }

  /** The name is that of a backend group whose service asks for round-robin. */
  ghost predicate TakesTurns(text: Text, p: Plan, name: string) {
    name != "" && name in p.groups && name in p.strategies && AsksFor(text, p.strategies[name], {"rr", "round-robin"})
  }

  method ResolveDestination(text: Text, env: Env, p: Plan, state: PlanState, dest: string, d: Draws)
    returns (r: Option<string>)
    requires GroupsComplete(p) && DrawsFit(text, p, dest, d)
    modifies state
    ensures OneChoice(text, env, p, dest, old(state.rrCounters), old(state.latencyEWMA), d, r)
    ensures state.rrCounters == CountersAfterOne(text, p, dest, old(state.rrCounters))
    ensures var name := text.trim(dest);
            Ticks(old(state.rrCounters), state.rrCounters, name,
                  TakesTurns(text, p, name) && |p.groups[name].targets| > 1)
    ensures state.latencyEWMA == old(state.latencyEWMA)
  {
    hide StrategyOf, Picked;
    var name := text.trim(dest);
    if name == "" {
      return None;
    }
    if name in p.groups {
      r := SelectBackendTarget(text, state, name, p.groups[name].targets, p.strategies[name], d.weighted);
      return;
    }
    if name in p.serviceListeners {
      var l := p.serviceListeners[name];
      r := Some(JoinHostPort(Loopback(l.addr), l.port));
    } else {
      r := if env.direct(name) then Some(name) else None;
    }
  }

  method ResolveForAttempts(text: Text, env: Env, p: Plan, state: PlanState, dest: string, attempts: int, d: Draws)
    returns (c: Option<seq<string>>)
    requires GroupsComplete(p) && DrawsFit(text, p, dest, d)
    modifies state
    ensures Listed(text, env, p, dest, attempts, old(state.rrCounters), old(state.latencyEWMA), d, c)
    ensures c.Some? ==> |c.value| == attempts
    ensures state.rrCounters == CountersAfterList(text, p, dest, attempts, old(state.rrCounters))
    ensures var name := text.trim(dest);
            var robin := attempts > 0 && TakesTurns(text, p, name);
            TicksTwice(old(state.rrCounters), state.rrCounters, name,
                       robin && |Select(text, p.groups[name].targets, false)| > 1,
                       robin && |Select(text, p.groups[name].targets, true)| > 1)
    ensures state.latencyEWMA == old(state.latencyEWMA)
  {
    hide StrategyOf, Picked, Ordered;
    if attempts <= 0 {
      return None;
    }
    var name := text.trim(dest);
    if name == "" {
      return None;
    }
    if name in p.groups {
      var targets := p.groups[name].targets;
      if targets == [] {
        return None;
      }
      ghost var counters, latencies := state.rrCounters, state.latencyEWMA;
      var ordered := OrderedBackendTargets(text, state, name, targets, p.strategies[name], d.direct, d.relay);
      NotEmpty(text, targets, StrategyOf(text, p.strategies[name]),
               LuckOf(text, counters, latencies, name, targets, p.strategies[name], d.direct, d.relay));
      var items: seq<string> := [];
      for i := 0 to attempts
        invariant |items| == i && forall k :: 0 <= k < i ==> items[k] == ordered[k % |ordered|]
      {
        items := items + [ordered[i % |ordered|]];
      }
      assert items == Cycle(ordered, attempts);
      return Some(items);
    }
    var one := ResolveDestination(text, env, p, state, dest, d);
    if one.None? {
      return None;
    }
    var items: seq<string> := [];
    for i := 0 to attempts
      invariant |items| == i && forall k :: 0 <= k < i ==> items[k] == one.value
    {
      items := items + [one.value];
    }
    assert items == seq(attempts, i => one.value);
    return Some(items);
  }

  lemma NotEmpty(text: Text, targets: seq<BackendTarget>, strategy: Strategy, luck: Luck)
    requires targets != [] && Fits(text, targets, luck)
    ensures Addresses(OrderedGroup(text, targets, strategy, luck)) != []
    ensures |Addresses(OrderedGroup(text, targets, strategy, luck))| == |targets|
  {
    hide Fits, OrderedGroup, IsRelay;
    CandidateOrder(text, targets, strategy, luck);
    var o := OrderedGroup(text, targets, strategy, luck);
    assert |multiset(o)| == |multiset(targets)|;
  }

  // The head of the candidates ---------------------------------------------------------------------------------

  lemma TiesShareAddress(latencies: map<string, real>, a: BackendTarget, b: BackendTarget)
    ensures !LoadBefore(a, b) && !LoadBefore(b, a) ==> a.addr == b.addr
    ensures !LatencyBefore(latencies)(a, b) && !LatencyBefore(latencies)(b, a) ==> a.addr == b.addr
  {
    LessTotal(a.addr, b.addr);
  }

  /** Without relay targets the first candidate is the target that load-first or latency-first picks from the
      same state when no retries are left. */
  lemma HeadIsPick(text: Text, targets: seq<BackendTarget>, strategy: Strategy, luck: Luck, group: string,
                   counters: map<string, nat>, draw: nat, r: Option<string>)
    requires Fits(text, targets, luck) && targets != []
    requires forall i :: 0 <= i < |targets| ==> !IsRelay(text, targets[i])
    requires strategy.LoadFirst? || strategy.LatencyFirst?
    requires Picked(strategy, targets, group, counters, luck.latencies, draw, r)
    ensures OrderedGroup(text, targets, strategy, luck) != []
    ensures r == Some(OrderedGroup(text, targets, strategy, luck)[0].addr)
  {
    hide OrderedGroup, Fits, LoadBefore, LatencyBefore;
    SortedAlone(text, targets, strategy, luck);
    if strategy.LoadFirst? {
      LoadBeforeIsWeakOrder();
      forall a, b ensures !LoadBefore(a, b) && !LoadBefore(b, a) ==> a.addr == b.addr { TiesShareAddress(map[], a, b); }
      var best :| 0 <= best < |targets| && r == Some(targets[best].addr)
        && forall j :: 0 <= j < |targets| ==> !LoadBefore(targets[j], targets[best]);
      MinimumIsHead(LoadBefore, targets, best);
    } else {
      var less := LatencyBefore(luck.latencies);
      LatencyBeforeIsWeakOrder(luck.latencies);
      forall a, b ensures !less(a, b) && !less(b, a) ==> a.addr == b.addr { TiesShareAddress(luck.latencies, a, b); }
      var best :| 0 <= best < |targets| && r == Some(targets[best].addr)
        && forall j :: 0 <= j < |targets| ==> !less(targets[j], targets[best]);
      MinimumIsHead(less, targets, best);
    }
  }

  lemma MinimumIsHead(less: (BackendTarget, BackendTarget) -> bool, targets: seq<BackendTarget>, best: nat)
    requires WeakOrder(less) && best < |targets|
    requires forall a, b :: !less(a, b) && !less(b, a) ==> a.addr == b.addr
    requires forall j :: 0 <= j < |targets| ==> !less(targets[j], targets[best])
    ensures |Sort(less, targets)| > 0 && Sort(less, targets)[0].addr == targets[best].addr
  {
    hide Sort;
    SortSorted(less, targets);
    var i := HeadPrecedesAll(less, targets, Sort(less, targets));
  }

  lemma SortedAlone(text: Text, targets: seq<BackendTarget>, strategy: Strategy, luck: Luck)
    requires Fits(text, targets, luck) && forall i :: 0 <= i < |targets| ==> !IsRelay(text, targets[i])
    ensures strategy.LoadFirst? ==> OrderedGroup(text, targets, strategy, luck) == Sort(LoadBefore, targets)
    ensures strategy.LatencyFirst? ==>
              OrderedGroup(text, targets, strategy, luck) == Sort(LatencyBefore(luck.latencies), targets)
  {
    hide IsRelay, LoadBefore, LatencyBefore;
    AllDirect(text, targets);
  }

  // One request ------------------------------------------------------------------------------------------------

  /** `tried` lists the upstream requests made, each carrying the hop count one higher. */
  datatype Reply = Reply(status: int, attempts: nat, relayHit: bool, tried: seq<string>, answeredBy: Option<string>)

  ghost predicate RelayAmong(text: Text, p: Plan, dest: string, tried: seq<string>) {
    exists i :: 0 <= i < |tried| && IsRelayCandidate(text, p, dest, tried[i])
  }

  /** The reply a candidate list leads to: every candidate before the last one used was reached and
      answered 502 or worse; the last one used did not parse, or answered below 502, or was the last. */
  ghost predicate IsReply(text: Text, env: Env, p: Plan, dest: string, c: seq<string>, r: Reply) {
    && 1 <= r.attempts <= |c|
    && (forall j :: 0 <= j < r.attempts - 1 ==> Parses(text, env, c[j]) && ShouldRetryStatus(StatusOf(env, c[j])))
    && (r.relayHit <==> RelayAmong(text, p, dest, c[..r.attempts]))
    && var last := c[r.attempts - 1];
       if !Parses(text, env, last) then
         r.status == 502 && r.tried == c[..r.attempts - 1] && r.answeredBy == None
       else
         r.status == StatusOf(env, last) && r.tried == c[..r.attempts] && r.answeredBy == Some(last)
         && (!ShouldRetryStatus(r.status) || r.attempts == |c|)
  }

  lemma RelayOneMore(text: Text, p: Plan, dest: string, c: seq<string>, i: nat)
    requires i < |c|
    ensures RelayAmong(text, p, dest, c[..i + 1]) <==>
            RelayAmong(text, p, dest, c[..i]) || IsRelayCandidate(text, p, dest, c[i])
  {
    if RelayAmong(text, p, dest, c[..i]) {
      var k :| 0 <= k < i && IsRelayCandidate(text, p, dest, c[..i][k]);
      assert IsRelayCandidate(text, p, dest, c[..i + 1][k]);
    }
    if IsRelayCandidate(text, p, dest, c[i]) {
      assert IsRelayCandidate(text, p, dest, c[..i + 1][i]);
    }
    if RelayAmong(text, p, dest, c[..i + 1]) {
      var k :| 0 <= k < i + 1 && IsRelayCandidate(text, p, dest, c[..i + 1][k]);
      assert k < i ==> IsRelayCandidate(text, p, dest, c[..i][k]);
    }
  }

  method RetryLoop(text: Text, env: Env, p: Plan, state: PlanState, dest: string, candidates: seq<string>)
    returns (r: Reply)
    requires candidates != []
    modifies state
    ensures IsReply(text, env, p, dest, candidates, r)
    ensures state.rrCounters == old(state.rrCounters)
    ensures state.latencyEWMA == LatenciesAfter(text, env, false, old(state.latencyEWMA), r)
  {
    var relayHit := false;
    var i := 0;
    while true
      invariant 0 <= i < |candidates|
      invariant relayHit <==> RelayAmong(text, p, dest, candidates[..i])
      invariant state.rrCounters == old(state.rrCounters) && state.latencyEWMA == old(state.latencyEWMA)
      invariant forall j :: 0 <= j < i ==>
                  Parses(text, env, candidates[j]) && ShouldRetryStatus(StatusOf(env, candidates[j]))
      decreases |candidates| - i
    {
      var resolved := candidates[i];
      RelayOneMore(text, p, dest, candidates, i);
      if !relayHit && IsRelayCandidate(text, p, dest, resolved) {
        relayHit := true;
      }
      if !Parses(text, env, resolved) {
        return Reply(502, i + 1, relayHit, candidates[..i], None);
      }
      var status := StatusOf(env, resolved);
      if !ShouldRetryStatus(status) {
        state.ObserveLatency(text, resolved, env.elapsed(resolved));
      }
      if !ShouldRetryStatus(status) || i == |candidates| - 1 {
        return Reply(status, i + 1, relayHit, candidates[..i + 1], Some(resolved));
      }
      i := i + 1;
    }
  }

  const NO_POLICY := Policy("", [], "", 0, UdpPolicy(0, 0, 0, 0, 0), "", 0, 0.0, 0, 0)

  function PolicyOf(text: Text, p: Plan, service: string): Policy {
    var found := ServicePolicy(text, p, service);
    if found.Some? then found.value else NO_POLICY
  }

  function AttemptsOf(policy: Policy): int {
    ApplyRetryBudget(EffectiveMaxAttempts(policy.maxAttempts), policy.budgetRatio)
  }

  function PathOf(path: string): string { if path == "" then "/" else path }

  /** What comes back for a request, case by case. */
  ghost predicate Served(text: Text, env: Env, p: Plan, l: ListenerKey, host: string, path: string, hops: string,
                         counters: map<string, nat>, latencies: map<string, real>, draws: string -> Draws, r: Reply)
  {
    var m := Answer(text, p, l.addr, l.port, host, PathOf(path));
    if m.None? then r == Reply(404, 0, false, [], None)
    else
      var policy := PolicyOf(text, p, m.value.service);
      var incoming := ParseIncomingHops(text, env, hops);
      if incoming.None? then r == Reply(400, 0, false, [], None)
      else if incoming.value > EffectiveMaxHops(policy.maxHops) then r == Reply(508, 0, false, [], None)
      else
        exists c ::
          && Candidates(text, env, p, m.value.dest, AttemptsOf(policy), counters, latencies, draws(m.value.dest), c)
          && (c.None? ==> r == Reply(502, if AttemptsOf(policy) <= 1 then 1 else 0, false, [], None))
          && (c.Some? ==> IsReply(text, env, p, m.value.dest, c.value, r))
  }

  /** The attempts a request gets if it reaches the choice of an upstream. */
  ghost function Admitted(text: Text, env: Env, p: Plan, l: ListenerKey, host: string, path: string, hops: string)
    : Option<(string, int)>
  {
    var m := Answer(text, p, l.addr, l.port, host, PathOf(path));
    if m.None? then None
    else
      var policy := PolicyOf(text, p, m.value.service);
      var incoming := ParseIncomingHops(text, env, hops);
      if incoming.None? || incoming.value > EffectiveMaxHops(policy.maxHops) then None
      else Some((m.value.dest, AttemptsOf(policy)))
  }

  method ServeRequest(text: Text, env: Env, p: Plan, state: PlanState, l: ListenerKey, host: string, path: string,
                      hops: string, draws: string -> Draws)
    returns (r: Reply)
    requires GroupsComplete(p)
    requires forall dest :: DrawsFit(text, p, dest, draws(dest))
    modifies state
    ensures Served(text, env, p, l, host, path, hops, old(state.rrCounters), old(state.latencyEWMA), draws, r)
    ensures match Admitted(text, env, p, l, host, path, hops)
            case None => state.rrCounters == old(state.rrCounters) && state.latencyEWMA == old(state.latencyEWMA)
            case Some((dest, attempts)) =>
              && state.rrCounters == CountersAfterResolve(text, p, dest, attempts, old(state.rrCounters))
              && state.latencyEWMA == LatenciesAfter(text, env, attempts <= 1, old(state.latencyEWMA), r)
  {
    hide Answer, Candidates, OneChoice, Listed, IsReply, DrawsFit, ParseIncomingHops, GroupsComplete;
    ghost var counters, latencies := state.rrCounters, state.latencyEWMA;
    var found := Match(text, p, l.addr, l.port, host, PathOf(path));
    if found.None? {
      return Reply(404, 0, false, [], None);
    }
    var m := found.value;
    var policy := PolicyOf(text, p, m.service);
    var maxAttempts := AttemptsOf(policy);
    RetryBudgetBounds(policy.maxAttempts, policy.budgetRatio);
    var incoming := ParseIncomingHops(text, env, hops);
    if incoming.None? {
      return Reply(400, 0, false, [], None);
    }
    if incoming.value > EffectiveMaxHops(policy.maxHops) {
      return Reply(508, 0, false, [], None);
    }
    if maxAttempts <= 1 {
      var resolved := ResolveDestination(text, env, p, state, m.dest, draws(m.dest));
      ChoiceIsCandidate(text, env, p, m.dest, maxAttempts, counters, latencies, draws(m.dest), resolved);
      if resolved.None? {
        return Reply(502, 1, false, [], None);
      }
      r := ForwardOnce(text, env, p, state, m.dest, resolved.value);
      return;
    }
    var candidates := ResolveForAttempts(text, env, p, state, m.dest, maxAttempts, draws(m.dest));
    ListIsCandidates(text, env, p, m.dest, maxAttempts, counters, latencies, draws(m.dest), candidates);
    if candidates.None? {
      return Reply(502, 0, false, [], None);
    }
    r := RetryLoop(text, env, p, state, m.dest, candidates.value);
  }

  method ForwardOnce(text: Text, env: Env, p: Plan, state: PlanState, dest: string, resolved: string)
    returns (r: Reply)
    modifies state
    ensures IsReply(text, env, p, dest, [resolved], r)
    ensures state.rrCounters == old(state.rrCounters)
    ensures state.latencyEWMA == LatenciesAfter(text, env, true, old(state.latencyEWMA), r)
  {
    var relayHit := IsRelayCandidate(text, p, dest, resolved);
    assert [resolved][..1] == [resolved] && [resolved][..0] == [];
    assert relayHit <==> RelayAmong(text, p, dest, [resolved]) by {
      assert [resolved][0] == resolved;
    }
    if !Parses(text, env, resolved) {
      return Reply(502, 1, relayHit, [], None);
    }
    if !env.completes(resolved) {
      return Reply(502, 1, relayHit, [resolved], Some(resolved));
    }
    state.ObserveLatency(text, resolved, env.elapsed(resolved));
    return Reply(env.status(resolved), 1, relayHit, [resolved], Some(resolved));
  }

  // Whose policy ---------------------------------------------------------------------------------------------------

  /** A request is served under its own service's policy exactly when looking that service up by its trimmed
      name finds a service with the same policy. */
  lemma OwnPolicy(text: Text, cs: seq<ServiceConfig>, p: Plan, c: ServiceConfig)
    requires Describes(text, cs, p) && DistinctServices(cs) && c in cs && Valid(text, c)
    ensures PolicyOf(text, p, c.name) == c.policy <==>
            exists d :: d in cs && d.name == text.trim(c.name) && d.policy == c.policy
    ensures text.trim(c.name) == c.name ==> PolicyOf(text, p, c.name) == c.policy
  {
    hide BindingTable, RouteTables, GroupTables, LastNamed, Valid;
    ValidIsSomePolicy(text, c);
    LastNamedIsMember(cs, text.trim(c.name));
  }

  /** Where trimmed names are distinct, as in every listing of the registry, that is exactly when the service's
      name is its own trim; and only then does any destination find the service by name. */
  lemma OwnPolicyIffTrimmed(text: Text, cs: seq<ServiceConfig>, p: Plan, c: ServiceConfig)
    requires text.Laws() && Describes(text, cs, p) && DistinctTrims(text, cs) && c in cs && Valid(text, c)
    ensures PolicyOf(text, p, c.name) == c.policy <==> text.trim(c.name) == c.name
    ensures (exists dest :: text.trim(dest) == c.name && text.trim(dest) in p.serviceListeners) <==>
              text.trim(c.name) == c.name
  {
    hide BindingTable, RouteTables, GroupTables, Valid;
    TrimsMakeNamesDistinct(text, cs);
    OwnPolicy(text, cs, p, c);
    OnlyOwnTrim(text, cs, c);
    LastNamedIsMember(cs, c.name);
    if text.trim(c.name) == c.name {
      assert c.name in p.serviceListeners;
    }
  }

  lemma ValidIsSomePolicy(text: Text, c: ServiceConfig)
    requires Valid(text, c)
    ensures c.policy != NO_POLICY
  {
    assert ValidPolicy(text, c.policy);
  }

  /** The failing inputs: a service alone, under a name that is not its own trim. Its requests get one attempt
      whatever retries are configured, and the default hop limit. */
  lemma UntrimmedNameLosesRetries(text: Text, c: ServiceConfig, p: Plan)
    requires Valid(text, c) && text.trim(c.name) != c.name && Describes(text, [c], p)
    ensures PolicyOf(text, p, c.name) == NO_POLICY
    ensures AttemptsOf(PolicyOf(text, p, c.name)) == 1 && EffectiveMaxHops(PolicyOf(text, p, c.name).maxHops) == 2
  {
    hide BindingTable, RouteTables, GroupTables, Valid;
    LastNamedIsMember([c], text.trim(c.name));
  }

  // What the relay flag tells ---------------------------------------------------------------------------------------

  /** The plan holds the relay addresses of a group, as stored. */
  ghost predicate RelaysFiled(text: Text, p: Plan, name: string) {
    name in p.groups && name in p.relayAddrs && p.relayAddrs[name] == RelayAddrs(text, p.groups[name])
  }

  lemma PlansFileRelays(text: Text, cs: seq<ServiceConfig>, p: Plan, name: string)
    requires Describes(text, cs, p) && name in p.groups
    ensures RelaysFiled(text, p, name) && GroupsComplete(p)
  {
    hide BindingTable, RouteTables, PolicyTables, NormalizeStrategy, RelayAddrs;
    var item :| item in GroupItems(cs) && NameOf(text, item) == name;
    assert GroupEntry(text, item, p.groups, p.relayAddrs, p.strategies);
  }

  /** Some tried address is that of a target tagged relay. */
  ghost predicate TriedRelay(text: Text, g: BackendGroup, tried: seq<string>) {
    exists i :: 0 <= i < |tried| && tried[i] in RelayAddrs(text, g)
  }

  ghost predicate FromGroup(g: BackendGroup, tried: seq<string>) {
    forall i :: 0 <= i < |tried| ==> Lists(g, tried[i])
  }

  ghost predicate Lists(g: BackendGroup, addr: string) { exists t :: t in g.targets && t.addr == addr }

  /** Trimming an address of the group neither takes it out of the relay addresses nor puts it in. */
  ghost predicate TrimKeepsRelays(text: Text, g: BackendGroup) {
    forall t :: t in g.targets ==> (text.trim(t.addr) in RelayAddrs(text, g) <==> t.addr in RelayAddrs(text, g))
  }

  ghost predicate FlagTellsRelays(text: Text, p: Plan, dest: string, g: BackendGroup) {
    forall tried :: FromGroup(g, tried) ==> (RelayAmong(text, p, dest, tried) <==> TriedRelay(text, g, tried))
  }

  /** Relay addresses are stored as written but looked up trimmed. The flag says whether a relay was tried, on
      all lists of addresses of the group, if and only if trimming them does not matter. */
  lemma FlagTellsRelaysIffTrimKeeps(text: Text, p: Plan, dest: string)
    requires RelaysFiled(text, p, text.trim(dest))
    ensures FlagTellsRelays(text, p, dest, p.groups[text.trim(dest)]) <==>
              TrimKeepsRelays(text, p.groups[text.trim(dest)])
  {
    hide RelayAddrs;
    var g := p.groups[text.trim(dest)];
    if TrimKeepsRelays(text, g) {
      forall tried | FromGroup(g, tried) ensures RelayAmong(text, p, dest, tried) <==> TriedRelay(text, g, tried) {
        forall i | 0 <= i < |tried|
          ensures IsRelayCandidate(text, p, dest, tried[i]) <==> tried[i] in RelayAddrs(text, g)
        {
          assert Lists(g, tried[i]);
          var t :| t in g.targets && t.addr == tried[i];
        }
      }
    } else {
      var t :| t in g.targets && !(text.trim(t.addr) in RelayAddrs(text, g) <==> t.addr in RelayAddrs(text, g));
      var tried := [t.addr];
      assert Lists(g, t.addr) && FromGroup(g, tried);
      assert RelayAmong(text, p, dest, tried) <==> IsRelayCandidate(text, p, dest, tried[0]);
      assert TriedRelay(text, g, tried) <==> tried[0] in RelayAddrs(text, g);
    }
  }

  lemma TrimmedAddressesKeepRelays(text: Text, g: BackendGroup)
    requires forall t :: t in g.targets ==> text.trim(t.addr) == t.addr
    ensures TrimKeepsRelays(text, g)
  {}

  /** The failing inputs: a group whose only target is a relay with space around its address, which validation
      accepts and forwarding trims. Its requests are answered through the relay and the flag stays false. */
  lemma SpacedRelayIsMissed(text: Text, env: Env, p: Plan, dest: string, t: BackendTarget, c: seq<string>, r: Reply)
    requires RelaysFiled(text, p, text.trim(dest)) && p.groups[text.trim(dest)].targets == [t]
    requires IsRelay(text, t) && text.trim(t.addr) != t.addr && Parses(text, env, t.addr)
    requires c != [] && (forall i :: 0 <= i < |c| ==> c[i] == t.addr) && IsReply(text, env, p, dest, c, r)
    ensures r.answeredBy == Some(t.addr) && TriedRelay(text, p.groups[text.trim(dest)], r.tried)
    ensures !r.relayHit
  {
    hide IsRelay, Parses, StatusOf, ShouldRetryStatus;
    var g := p.groups[text.trim(dest)];
    OnlyRelay(text, g, t);
    assert r.tried[0] in RelayAddrs(text, g);
    forall i | 0 <= i < r.attempts ensures !IsRelayCandidate(text, p, dest, c[..r.attempts][i]) {
      assert c[..r.attempts][i] == t.addr;
    }
  }

  lemma OnlyRelay(text: Text, g: BackendGroup, t: BackendTarget)
    requires g.targets == [t] && IsRelay(text, t)
    ensures RelayAddrs(text, g) == {t.addr}
  {
    hide IsRelay;
    assert t in g.targets;
  }

  // Failover is complete ----------------------------------------------------------------------------------------

  /** If all candidates parse and some candidate answers below 502, the client gets the first such
      answer, the attempt count is that candidate's position, and nothing after it is tried. */
  lemma {:induction false} FirstGoodAnswerWins(text: Text, env: Env, p: Plan, dest: string, c: seq<string>, r: Reply,
                                               k: nat)
    requires IsReply(text, env, p, dest, c, r)
    requires forall i :: 0 <= i < |c| ==> Parses(text, env, c[i])
    requires k < |c| && !ShouldRetryStatus(StatusOf(env, c[k]))
    requires forall i :: 0 <= i < k ==> ShouldRetryStatus(StatusOf(env, c[i]))
    ensures r.attempts == k + 1 && r.status == StatusOf(env, c[k]) && r.answeredBy == Some(c[k])
            && r.tried == c[..k + 1]
    ensures r.relayHit <==> RelayAmong(text, p, dest, r.tried)
  {
    assert r.attempts - 1 <= k;
  }

  /** Failover over a backend group: with at least two attempts and at least as many as the group has
      targets, one good target is enough. The answer comes from the first good one in candidate order,
      within as many attempts as there are targets. */
  lemma GroupFailover(text: Text, env: Env, p: Plan, dest: string, attempts: int, counters: map<string, nat>,
                      latencies: map<string, real>, d: Draws, c: Option<seq<string>>, r: Reply, good: BackendTarget)
    requires GroupsComplete(p) && text.trim(dest) != "" && text.trim(dest) in p.groups
    requires attempts >= 2 && attempts >= |p.groups[text.trim(dest)].targets|
    requires Candidates(text, env, p, dest, attempts, counters, latencies, d, c)
    requires c.Some? ==> IsReply(text, env, p, dest, c.value, r)
    requires good in p.groups[text.trim(dest)].targets && !ShouldRetryStatus(StatusOf(env, good.addr))
    requires forall t :: t in p.groups[text.trim(dest)].targets ==> Parses(text, env, t.addr)
    ensures c.Some? && |c.value| == attempts
    ensures var k := r.attempts - 1;
            && 0 <= k < |p.groups[text.trim(dest)].targets|
            && !ShouldRetryStatus(r.status) && r.status == StatusOf(env, c.value[k]) && r.answeredBy == Some(c.value[k])
            && (forall i :: 0 <= i < k ==> ShouldRetryStatus(StatusOf(env, c.value[i])))
            && r.tried == c.value[..k + 1]
            && (r.relayHit <==> RelayAmong(text, p, dest, r.tried))
    ensures RelaysFiled(text, p, text.trim(dest)) && TrimKeepsRelays(text, p.groups[text.trim(dest)]) ==>
              (r.relayHit <==> TriedRelay(text, p.groups[text.trim(dest)], r.tried))
  {
    hide Candidates, IsReply, StatusOf, ShouldRetryStatus, Parses, RelayAmong, Cycle, GroupsComplete;
    hide RelaysFiled, TrimKeepsRelays, TriedRelay, FromGroup;
    var targets := p.groups[text.trim(dest)].targets;
    var o := GroupCandidates(text, env, p, dest, attempts, counters, latencies, d, c);
    SameMembers(o, targets);
    CycledFailover(text, env, p, dest, o, attempts, r, good);
    CycledFromGroup(p.groups[text.trim(dest)], o, attempts, r.attempts);
    if RelaysFiled(text, p, text.trim(dest)) && TrimKeepsRelays(text, p.groups[text.trim(dest)]) {
      FlagTellsRelaysIffTrimKeeps(text, p, dest);
    }
  }

  lemma CycledFromGroup(g: BackendGroup, o: seq<BackendTarget>, attempts: nat, k: nat)
    requires o != [] && k <= attempts && forall t :: t in o ==> t in g.targets
    ensures FromGroup(g, Cycle(Addresses(o), attempts)[..k])
  {
    var tried := Cycle(Addresses(o), attempts)[..k];
    forall i | 0 <= i < k ensures Lists(g, tried[i]) {
      var t := o[i % |o|];
      assert t in o && t.addr == tried[i];
    }
  }

  lemma CycledFailover(text: Text, env: Env, p: Plan, dest: string, o: seq<BackendTarget>, attempts: nat, r: Reply,
                       good: BackendTarget)
    requires o != [] && attempts >= |o|
    requires IsReply(text, env, p, dest, Cycle(Addresses(o), attempts), r)
    requires good in o && !ShouldRetryStatus(StatusOf(env, good.addr))
    requires forall t :: t in o ==> Parses(text, env, t.addr)
    ensures var c, k := Cycle(Addresses(o), attempts), r.attempts - 1;
            && |c| == attempts && 0 <= k < |o|
            && !ShouldRetryStatus(r.status) && r.status == StatusOf(env, c[k]) && r.answeredBy == Some(c[k])
            && (forall i :: 0 <= i < k ==> ShouldRetryStatus(StatusOf(env, c[i])))
            && r.tried == c[..k + 1]
            && (r.relayHit <==> RelayAmong(text, p, dest, r.tried))
  {
    hide IsReply, StatusOf, ShouldRetryStatus, Parses, RelayAmong;
    var c := Cycle(Addresses(o), attempts);
    var g :| 0 <= g < |o| && o[g] == good;
    var k := FirstGood(env, Addresses(o), g);
    forall i | 0 <= i < |c| ensures Parses(text, env, c[i]) {
      assert o[i % |o|] in o;
    }
    forall i | 0 <= i <= k ensures c[i] == Addresses(o)[i] { ModSmall(i, |o|); }
    FirstGoodAnswerWins(text, env, p, dest, c, r, k);
  }

  /** What a client may rely on: a request routed to such a group is answered below 502 by one of its
      targets, within as many attempts as there are targets. */
  lemma GoodTargetServes(text: Text, env: Env, p: Plan, l: ListenerKey, host: string, path: string, hops: string,
                         counters: map<string, nat>, latencies: map<string, real>, draws: string -> Draws, r: Reply,
                         dest: string, attempts: int, good: BackendTarget)
    requires Served(text, env, p, l, host, path, hops, counters, latencies, draws, r)
    requires Admitted(text, env, p, l, host, path, hops) == Some((dest, attempts))
    requires GroupsComplete(p) && text.trim(dest) != "" && text.trim(dest) in p.groups
    requires attempts >= 2 && attempts >= |p.groups[text.trim(dest)].targets|
    requires good in p.groups[text.trim(dest)].targets && !ShouldRetryStatus(StatusOf(env, good.addr))
    requires forall t :: t in p.groups[text.trim(dest)].targets ==> Parses(text, env, t.addr)
    ensures !ShouldRetryStatus(r.status) && 1 <= r.attempts <= |p.groups[text.trim(dest)].targets|
    ensures exists t ::
              && t in p.groups[text.trim(dest)].targets
              && r.answeredBy == Some(t.addr) && r.status == StatusOf(env, t.addr)
    ensures |r.tried| == r.attempts && (r.relayHit <==> RelayAmong(text, p, dest, r.tried))
    ensures RelaysFiled(text, p, text.trim(dest)) && TrimKeepsRelays(text, p.groups[text.trim(dest)]) ==>
              (r.relayHit <==> TriedRelay(text, p.groups[text.trim(dest)], r.tried))
  {
    hide Served, Admitted, Candidates, IsReply, StatusOf, ShouldRetryStatus, Parses, RelayAmong, Cycle, GroupsComplete;
    hide RelaysFiled, TrimKeepsRelays, TriedRelay;
    var c := CandidatesServed(text, env, p, l, host, path, hops, counters, latencies, draws, r, dest, attempts);
    GroupFailover(text, env, p, dest, attempts, counters, latencies, draws(dest), c, r, good);
    var o := GroupCandidates(text, env, p, dest, attempts, counters, latencies, draws(dest), c);
    var k := r.attempts - 1;
    CycleStart(Addresses(o), attempts, k);
    SameMembers(o, p.groups[text.trim(dest)].targets);
    assert o[k] in o && r.answeredBy == Some(o[k].addr);
  }

  lemma CandidatesServed(text: Text, env: Env, p: Plan, l: ListenerKey, host: string, path: string, hops: string,
                         counters: map<string, nat>, latencies: map<string, real>, draws: string -> Draws, r: Reply,
                         dest: string, attempts: int)
    returns (c: Option<seq<string>>)
    requires Served(text, env, p, l, host, path, hops, counters, latencies, draws, r)
    requires Admitted(text, env, p, l, host, path, hops) == Some((dest, attempts))
    ensures Candidates(text, env, p, dest, attempts, counters, latencies, draws(dest), c)
    ensures c.Some? ==> IsReply(text, env, p, dest, c.value, r)
  {
    hide Answer, Candidates, IsReply, ParseIncomingHops, AttemptsOf, EffectiveMaxHops, PolicyOf;
    c :| Candidates(text, env, p, dest, attempts, counters, latencies, draws(dest), c)
      && (c.Some? ==> IsReply(text, env, p, dest, c.value, r));
  }

  lemma CycleStart(addrs: seq<string>, attempts: nat, k: nat)
    requires k < |addrs| && k < attempts
    ensures |Cycle(addrs, attempts)| == attempts && Cycle(addrs, attempts)[k] == addrs[k]
  {
    ModSmall(k, |addrs|);
  }

  /** The candidates cycle through the targets in some order. */
  lemma GroupCandidates(text: Text, env: Env, p: Plan, dest: string, attempts: int, counters: map<string, nat>,
                        latencies: map<string, real>, d: Draws, c: Option<seq<string>>)
    returns (o: seq<BackendTarget>)
    requires GroupsComplete(p) && text.trim(dest) != "" && text.trim(dest) in p.groups
    requires attempts >= 2 && p.groups[text.trim(dest)].targets != []
    requires Candidates(text, env, p, dest, attempts, counters, latencies, d, c)
    ensures o != [] && |o| == |p.groups[text.trim(dest)].targets|
    ensures multiset(o) == multiset(p.groups[text.trim(dest)].targets)
    ensures c == Some(Cycle(Addresses(o), attempts))
  {
    hide StrategyOf, Picked, Fits, OrderedGroup, LuckOf, Cycle;
    var name := text.trim(dest);
    var targets := p.groups[name].targets;
    var strategy := StrategyOf(text, p.strategies[name]);
    var luck := LuckOf(text, counters, latencies, name, targets, p.strategies[name], d.direct, d.relay);
    o := OrderedGroup(text, targets, strategy, luck);
    CandidateOrder(text, targets, strategy, luck);
    NotEmpty(text, targets, strategy, luck);
  }

  lemma FirstGood(env: Env, addrs: seq<string>, g: nat) returns (k: nat)
    requires g < |addrs| && !ShouldRetryStatus(StatusOf(env, addrs[g]))
    ensures k <= g && !ShouldRetryStatus(StatusOf(env, addrs[k]))
    ensures forall i :: 0 <= i < k ==> ShouldRetryStatus(StatusOf(env, addrs[i]))
  {
    k := 0;
    while ShouldRetryStatus(StatusOf(env, addrs[k]))
      invariant k <= g && forall i :: 0 <= i < k ==> ShouldRetryStatus(StatusOf(env, addrs[i]))
      decreases g - k
    {
      k := k + 1;
    }
  }
}
