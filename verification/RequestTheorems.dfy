/** What clients see of requests: the hop header, refusals, failover, turns and measurements, in terms of what
    they send and what upstreams do. */
module RequestTheorems {
  import opened Strings
  import opened Wrappers
  import opened Sequences
  import opened ServiceModel
  import opened RouteIndex
  import opened PlanCompiler
  import opened PlanTheorems
  import opened Balancing
  import opened Failover

  /** A request, what lies outside it, and the state it meets. */
  datatype Arrival = Arrival(listener: ListenerKey, host: string, path: string, hops: string,
                             counters: map<string, nat>, latencies: map<string, real>, draws: string -> Draws)

  ghost predicate Replied(text: Text, env: Env, p: Plan, a: Arrival, r: Reply) {
    Served(text, env, p, a.listener, a.host, a.path, a.hops, a.counters, a.latencies, a.draws, r)
  }

  /** The route found; an empty path asks for the root. */
  ghost predicate Routed(text: Text, p: Plan, a: Arrival, m: MatchResult) {
    Answer(text, p, a.listener.addr, a.listener.port, a.host, if a.path == "" then "/" else a.path) == Some(m)
  }

  ghost function HopLimit(text: Text, p: Plan, m: MatchResult): int {
    var configured := PolicyOf(text, p, m.service).maxHops;
    if configured > 0 then configured else 2
  }

  ghost predicate Reaches(text: Text, env: Env, p: Plan, a: Arrival, dest: string, attempts: int) {
    Admitted(text, env, p, a.listener, a.host, a.path, a.hops) == Some((dest, attempts))
  }

  // The hop header ------------------------------------------------------------------------------------------

  /** The refusal of a bad header, and that of one over the limit. */
  const BAD_REQUEST := Reply(400, 0, false, [], None)

  const LOOP_DETECTED := Reply(508, 0, false, [], None)

  /** A routed request without the header goes on to its upstreams. With a numeral it does if and only if the
      numeral is at most the limit of the service, and is refused as a loop otherwise. It is refused as bad
      exactly when the header is neither blank nor a numeral of at least zero. */
  lemma HopHeaderDecides(text: Text, env: Env, p: Plan, a: Arrival, r: Reply, m: MatchResult)
    requires Replied(text, env, p, a, r) && Routed(text, p, a, m)
    ensures var t := text.trim(a.hops);
            var attempts := AttemptsOf(PolicyOf(text, p, m.service));
            var numeral := t != "" && env.atoi(t).Some? && env.atoi(t).value >= 0;
            && (t == "" ==> Reaches(text, env, p, a, m.dest, attempts))
            && (numeral ==>
                  && (Reaches(text, env, p, a, m.dest, attempts) <==> env.atoi(t).value <= HopLimit(text, p, m))
                  && (r == LOOP_DETECTED <==> env.atoi(t).value > HopLimit(text, p, m)))
            && (r == BAD_REQUEST <==> t != "" && !numeral)
  {
    hide Answer, PolicyOf, AttemptsOf, Candidates;
  }

  /** Without a route the answer is 404; a route whose destination does not resolve gives 502. Neither asks
      anybody. */
  lemma Refusals(text: Text, env: Env, p: Plan, a: Arrival, r: Reply)
    requires Replied(text, env, p, a, r)
    ensures (forall m :: !Routed(text, p, a, m)) ==> r == Reply(404, 0, false, [], None)
    ensures forall m :: Routed(text, p, a, m) && text.trim(m.dest) == "" && text.trim(a.hops) == "" ==>
              && r.status == 502 && r.tried == [] && r.answeredBy == None
              && r.attempts == if AttemptsOf(PolicyOf(text, p, m.service)) <= 1 then 1 else 0
  {
    hide Answer, PolicyOf, AttemptsOf, IsReply, Picked;
    var path := if a.path == "" then "/" else a.path;
    if Answer(text, p, a.listener.addr, a.listener.port, a.host, path).Some? {
      assert Routed(text, p, a, Answer(text, p, a.listener.addr, a.listener.port, a.host, path).value);
    }
  }

  // Retries ---------------------------------------------------------------------------------------------------

  /** How many attempts a policy gives. A ratio between zero and one lets the largest whole number of the
      configured retries through that is within the ratio, but at least one. */
  lemma BudgetIsShareOfRetries(policy: Policy)
    ensures policy.maxAttempts <= 1 || policy.budgetRatio <= 0.0 ==> AttemptsOf(policy) == 1
    ensures policy.maxAttempts > 1 && policy.budgetRatio >= 1.0 ==> AttemptsOf(policy) == policy.maxAttempts
    ensures policy.maxAttempts > 1 && 0.0 < policy.budgetRatio < 1.0 ==>
              var retries, share := AttemptsOf(policy) - 1, (policy.maxAttempts - 1) as real * policy.budgetRatio;
              && 1 <= retries <= policy.maxAttempts - 1
              && (retries as real <= share || retries == 1)
              && share < retries as real + 1.0
  {
    if policy.maxAttempts > 1 && 0.0 < policy.budgetRatio < 1.0 {
      ShareIsWithin(policy.maxAttempts - 1, policy.budgetRatio);
    }
  }

  lemma ShareIsWithin(extra: int, ratio: real)
    requires extra >= 1 && 0.0 < ratio < 1.0
    ensures 0.0 < extra as real * ratio < extra as real
  {}

  /** An upstream that completes an exchange with a status below 502. */
  ghost predicate Good(env: Env, addr: string) { env.completes(addr) && env.status(addr) < 502 }

  lemma GoodIsNotRetried(env: Env, addr: string)
    ensures Good(env, addr) <==> !ShouldRetryStatus(StatusOf(env, addr))
    ensures Good(env, addr) ==> StatusOf(env, addr) == env.status(addr)
  {}

  /** A client that sends no hop header and is routed to a backend group, with at least two attempts and at least
      as many as the group has targets, is answered by a good target if there is one: by the first good one in
      the order in which they were tried. */
  lemma ClientIsServed(text: Text, env: Env, p: Plan, a: Arrival, r: Reply, m: MatchResult, good: BackendTarget)
    requires Replied(text, env, p, a, r) && Routed(text, p, a, m) && text.trim(a.hops) == ""
    requires GroupsComplete(p) && text.trim(m.dest) != "" && text.trim(m.dest) in p.groups
    requires var attempts := AttemptsOf(PolicyOf(text, p, m.service));
      attempts >= 2 && attempts >= |p.groups[text.trim(m.dest)].targets|
    requires good in p.groups[text.trim(m.dest)].targets && Good(env, good.addr)
    requires forall t :: t in p.groups[text.trim(m.dest)].targets ==> Parses(text, env, t.addr)
    ensures 1 <= |r.tried| == r.attempts <= |p.groups[text.trim(m.dest)].targets|
    ensures var last := r.tried[|r.tried| - 1];
            Good(env, last) && r.answeredBy == Some(last) && r.status == env.status(last)
    ensures forall i :: 0 <= i < |r.tried| - 1 ==> !Good(env, r.tried[i])
  {
    hide Answer, Served, Admitted, Candidates, IsReply, PolicyOf, AttemptsOf, Parses, GroupsComplete, RelayAmong;
    hide RelaysFiled, TrimKeepsRelays, TriedRelay;
    var dest, attempts := m.dest, AttemptsOf(PolicyOf(text, p, m.service));
    HopHeaderDecides(text, env, p, a, r, m);
    forall addr ensures Good(env, addr) <==> !ShouldRetryStatus(StatusOf(env, addr)) { GoodIsNotRetried(env, addr); }
    var c := CandidatesServed(text, env, p, a.listener, a.host, a.path, a.hops, a.counters, a.latencies, a.draws, r,
                              dest, attempts);
    GroupFailover(text, env, p, dest, attempts, a.counters, a.latencies, a.draws(dest), c, r, good);
    forall i | 0 <= i < |r.tried| - 1 ensures !Good(env, r.tried[i]) {
      assert r.tried[i] == c.value[i];
    }
  }

  /** An admitted request is answered with what its last upstream said, or with 502 when that did not complete the
      exchange or nobody could be asked. */
  lemma AnswersAreUpstreams(text: Text, env: Env, p: Plan, a: Arrival, r: Reply, dest: string, attempts: int)
    requires Replied(text, env, p, a, r) && Reaches(text, env, p, a, dest, attempts)
    ensures r.answeredBy.Some? ==> r.tried != [] && r.answeredBy.value == r.tried[|r.tried| - 1]
    ensures r.answeredBy.Some? && env.completes(r.answeredBy.value) ==> r.status == env.status(r.answeredBy.value)
    ensures r.answeredBy.Some? && !env.completes(r.answeredBy.value) ==> r.status == 502
    ensures r.answeredBy.None? ==> r.status == 502
  {
    hide Answer, PolicyOf, AttemptsOf, Candidates, Parses, RelayAmong, ShouldRetryStatus, ParseIncomingHops;
  }

  // Turns -------------------------------------------------------------------------------------------------------

  /** Resolving moves the group's own counters and no others. */
  lemma ResolvingTicks(text: Text, p: Plan, dest: string, attempts: int, counters: map<string, nat>)
    ensures var name, after := text.trim(dest), CountersAfterResolve(text, p, dest, attempts, counters);
            && (attempts <= 1 ==>
                  Ticks(counters, after, name, TakesTurns(text, p, name) && |p.groups[name].targets| > 1))
            && (attempts > 1 ==>
                  TicksTwice(counters, after, name,
                             TakesTurns(text, p, name) && |Select(text, p.groups[name].targets, false)| > 1,
                             TakesTurns(text, p, name) && |Select(text, p.groups[name].targets, true)| > 1))
  {
    hide StrategyOf, AsksFor;
    if text.trim(dest) in p.strategies {
      StrategyNames(text, p.strategies[text.trim(dest)]);
    }
    DifferentGroups(text.trim(dest));
  }

  /** The targets a request takes turns over, and the use it makes of the group. */
  ghost function TurnTargets(text: Text, p: Plan, name: string, attempts: int): seq<BackendTarget>
    requires name in p.groups
  {
    if attempts <= 1 then p.groups[name].targets else Select(text, p.groups[name].targets, false)
  }

  ghost function TurnUse(attempts: int): Use { if attempts <= 1 then Single else Direct }

  /** Under round-robin the target a request tries first is the one the group's counter points at. */
  lemma FirstTriedIsNextInTurn(text: Text, env: Env, p: Plan, a: Arrival, r: Reply, dest: string, attempts: int)
    requires Replied(text, env, p, a, r) && Reaches(text, env, p, a, dest, attempts)
    requires TakesTurns(text, p, text.trim(dest)) && |TurnTargets(text, p, text.trim(dest), attempts)| > 1
    requires forall t :: t in p.groups[text.trim(dest)].targets ==> Parses(text, env, t.addr)
    ensures var name := text.trim(dest);
            var ts := TurnTargets(text, p, name, attempts);
            && r.tried != []
            && r.tried[0] == ts[CounterAt(a.counters, CounterKey(name, TurnUse(attempts))) % |ts|].addr
  {
    hide Served, Admitted, Answer, Candidates, IsReply, Parses, CounterAt, AsksFor, StrategyOf;
    var name := text.trim(dest);
    var c := CandidatesServed(text, env, p, a.listener, a.host, a.path, a.hops, a.counters, a.latencies, a.draws, r,
                              dest, attempts);
    StrategyNames(text, p.strategies[name]);
    FirstCandidate(text, env, p, dest, attempts, a.counters, a.latencies, a.draws(dest), c);
    FirstIsTried(text, env, p, dest, c.value, r);
  }

  lemma FirstIsTried(text: Text, env: Env, p: Plan, dest: string, c: seq<string>, r: Reply)
    requires IsReply(text, env, p, dest, c, r) && Parses(text, env, c[0])
    ensures r.tried != [] && r.tried[0] == c[0]
  {
    hide StatusOf, RelayAmong, Parses;
  }

  lemma FirstCandidate(text: Text, env: Env, p: Plan, dest: string, attempts: int, counters: map<string, nat>,
                       latencies: map<string, real>, d: Draws, c: Option<seq<string>>)
    requires Candidates(text, env, p, dest, attempts, counters, latencies, d, c)
    requires TakesTurns(text, p, text.trim(dest)) && |TurnTargets(text, p, text.trim(dest), attempts)| > 1
    requires StrategyOf(text, p.strategies[text.trim(dest)]) == RoundRobin
    ensures var name := text.trim(dest);
            var ts := TurnTargets(text, p, name, attempts);
            var t := ts[CounterAt(counters, CounterKey(name, TurnUse(attempts))) % |ts|];
            c.Some? && c.value != [] && c.value[0] == t.addr && t in p.groups[name].targets
  {
    hide StrategyOf, AsksFor, CounterAt, Picked, Listed, ResolveOther;
    var name := text.trim(dest);
    var targets := p.groups[name].targets;
    if attempts <= 1 {
      var r :| OneChoice(text, env, p, dest, counters, latencies, d, r)
        && c == (if r.None? then None else Some([r.value]));
      PickInTurn(targets, name, counters, latencies, d.weighted, r);
    } else {
      ListInTurn(text, env, p, dest, attempts, counters, latencies, d, c);
    }
  }

  lemma PickInTurn(targets: seq<BackendTarget>, name: string, counters: map<string, nat>, latencies: map<string, real>,
                   draw: nat, r: Option<string>)
    requires |targets| > 1 && Picked(RoundRobin, targets, name, counters, latencies, draw, r)
    ensures r == Some(targets[CounterAt(counters, name) % |targets|].addr)
  {}

  lemma ListInTurn(text: Text, env: Env, p: Plan, dest: string, attempts: int, counters: map<string, nat>,
                   latencies: map<string, real>, d: Draws, c: Option<seq<string>>)
    requires Listed(text, env, p, dest, attempts, counters, latencies, d, c) && attempts > 1
    requires text.trim(dest) != "" && text.trim(dest) in p.groups && text.trim(dest) in p.strategies
    requires StrategyOf(text, p.strategies[text.trim(dest)]) == RoundRobin
    requires |Select(text, p.groups[text.trim(dest)].targets, false)| > 1
    ensures var ds := Select(text, p.groups[text.trim(dest)].targets, false);
            var t := ds[CounterAt(counters, CounterKey(text.trim(dest), Direct)) % |ds|];
            c.Some? && c.value != [] && c.value[0] == t.addr && t in p.groups[text.trim(dest)].targets
  {
    hide StrategyOf, Select, ResolveOther, Fits, OrderedGroup, Cycle, CounterAt;
    var name := text.trim(dest);
    var targets := p.groups[name].targets;
    var ds := Select(text, targets, false);
    SelectNone(text);
    assert targets != [];
    var luck := LuckOf(text, counters, latencies, name, targets, p.strategies[name], d.direct, d.relay);
    OrderStartsInTurn(text, targets, luck);
    var o := OrderedGroup(text, targets, RoundRobin, luck);
    CycleStart(Addresses(o), attempts, 0);
  }

  lemma OrderStartsInTurn(text: Text, targets: seq<BackendTarget>, luck: Luck)
    requires Fits(text, targets, luck) && luck.directStart < |Select(text, targets, false)|
    ensures var o := OrderedGroup(text, targets, RoundRobin, luck);
            o != [] && o[0] == Select(text, targets, false)[luck.directStart] && o[0] in targets
  {
    hide Select;
    var o := OrderedGroup(text, targets, RoundRobin, luck);
    CandidateOrder(text, targets, RoundRobin, luck);
    SameMembers(o, targets);
    assert o[0] in o;
  }

  /** Requests in a row, each meeting the counters the one before left. */
  ghost predicate InARow(text: Text, env: Env, p: Plan, as_: seq<Arrival>, rs: seq<Reply>, dest: string,
                         attempts: int)
  {
    && |as_| == |rs|
    && (forall i :: 0 <= i < |as_| ==>
          Replied(text, env, p, as_[i], rs[i]) && Reaches(text, env, p, as_[i], dest, attempts))
    && (forall i :: 0 <= i < |as_| - 1 ==>
          as_[i + 1].counters == CountersAfterResolve(text, p, dest, attempts, as_[i].counters))
  }

  /** Of k times n requests in a row for a round-robin group exactly k try each of its n targets first; with
      retries, each of its n direct targets. */
  lemma RequestsTakeTurns(text: Text, env: Env, p: Plan, as_: seq<Arrival>, rs: seq<Reply>, dest: string, attempts: int,
                          k: nat, j: nat)
    requires InARow(text, env, p, as_, rs, dest, attempts) && TakesTurns(text, p, text.trim(dest))
    requires forall t :: t in p.groups[text.trim(dest)].targets ==> Parses(text, env, t.addr)
    requires var ts := TurnTargets(text, p, text.trim(dest), attempts);
      |ts| > 1 && DistinctAddresses(ts) && j < |ts| && |as_| == k * |ts|
    ensures var ts := TurnTargets(text, p, text.trim(dest), attempts);
            |set i: nat | i < |rs| && rs[i].tried != [] && rs[i].tried[0] == ts[j].addr| == k
  {
    hide InARow, Parses, CounterKey, TurnTargets, CounterAt, AsksFor;
    var name := text.trim(dest);
    var ts := TurnTargets(text, p, name, attempts);
    var got := seq(|rs|, i requires 0 <= i < |rs| => if rs[i].tried == [] then "" else rs[i].tried[0]);
    SameLength(text, env, p, as_, rs, dest, attempts);
    var c := if as_ == [] then 0 else CounterAt(as_[0].counters, CounterKey(name, TurnUse(attempts)));
    forall i: nat | i < |as_| ensures rs[i].tried != [] && got[i] == ts[(c + i) % |ts|].addr {
      TriedInTurn(text, env, p, as_, rs, dest, attempts, c, i);
    }
    ConsecutiveShares(ts, got, c, k, j);
    assert (set i: nat | i < |rs| && rs[i].tried != [] && rs[i].tried[0] == ts[j].addr)
        == (set i: nat | i < |got| && got[i] == ts[j].addr);
  }

  lemma SameLength(text: Text, env: Env, p: Plan, as_: seq<Arrival>, rs: seq<Reply>, dest: string, attempts: int)
    requires InARow(text, env, p, as_, rs, dest, attempts)
    ensures |as_| == |rs|
  {}

  lemma TriedInTurn(text: Text, env: Env, p: Plan, as_: seq<Arrival>, rs: seq<Reply>, dest: string, attempts: int,
                    c: nat, i: nat)
    requires InARow(text, env, p, as_, rs, dest, attempts) && TakesTurns(text, p, text.trim(dest)) && i < |as_|
    requires forall t :: t in p.groups[text.trim(dest)].targets ==> Parses(text, env, t.addr)
    requires |TurnTargets(text, p, text.trim(dest), attempts)| > 1
    requires c == CounterAt(as_[0].counters, CounterKey(text.trim(dest), TurnUse(attempts)))
    ensures var ts := TurnTargets(text, p, text.trim(dest), attempts);
            rs[i].tried != [] && rs[i].tried[0] == ts[(c + i) % |ts|].addr
  {
    hide TakesTurns, Replied, Reaches, Parses, CounterKey, TurnTargets, CounterAt, CountersAfterResolve;
    CounterMovesOn(text, env, p, as_, rs, dest, attempts, i);
    FirstTriedIsNextInTurn(text, env, p, as_[i], rs[i], dest, attempts);
  }

  lemma {:induction false} CounterMovesOn(text: Text, env: Env, p: Plan, as_: seq<Arrival>, rs: seq<Reply>,
                                          dest: string, attempts: int, i: nat)
    requires InARow(text, env, p, as_, rs, dest, attempts) && TakesTurns(text, p, text.trim(dest)) && i < |as_|
    requires |TurnTargets(text, p, text.trim(dest), attempts)| > 1
    ensures var key := CounterKey(text.trim(dest), TurnUse(attempts));
            CounterAt(as_[i].counters, key) == CounterAt(as_[0].counters, key) + i
  {
    hide TakesTurns, Replied, Reaches, CountersAfterResolve, CounterAt, CounterKey, TurnUse, TurnTargets;
    if i > 0 {
      CounterMovesOn(text, env, p, as_, rs, dest, attempts, i - 1);
      assert as_[i - 1 + 1].counters == CountersAfterResolve(text, p, dest, attempts, as_[i - 1].counters);
      CounterMovesOnce(text, p, dest, attempts, as_[i - 1].counters);
    }
  }

  lemma CounterMovesOnce(text: Text, p: Plan, dest: string, attempts: int, counters: map<string, nat>)
    requires TakesTurns(text, p, text.trim(dest)) && |TurnTargets(text, p, text.trim(dest), attempts)| > 1
    ensures var key := CounterKey(text.trim(dest), TurnUse(attempts));
            CounterAt(CountersAfterResolve(text, p, dest, attempts, counters), key) == CounterAt(counters, key) + 1
  {
    hide CountersAfterResolve, CounterAt;
    ResolvingTicks(text, p, dest, attempts, counters);
    DifferentGroups(text.trim(dest));
  }

  // Measurements ------------------------------------------------------------------------------------------------

  /** An answer below 502, or any answer when there are no retries, is measured: the average of its upstream is
      there afterwards, at a fifth of the way from where it was, and no other average moved. When every candidate
      fails nothing is measured. */
  lemma AnswersAreMeasured(text: Text, env: Env, single: bool, latencies: map<string, real>, r: Reply)
    ensures r.answeredBy.None? ==> LatenciesAfter(text, env, single, latencies, r) == latencies
    ensures r.answeredBy.Some? && !single && r.status >= 502 ==>
              LatenciesAfter(text, env, single, latencies, r) == latencies
    ensures r.answeredBy.Some? && (single || r.status < 502) && env.completes(r.answeredBy.value)
            && text.trim(r.answeredBy.value) != "" && env.elapsed(r.answeredBy.value) > 0.0 ==>
              var u, ms := text.trim(r.answeredBy.value), env.elapsed(r.answeredBy.value);
              var after := LatenciesAfter(text, env, single, latencies, r);
              && u in after
              && (u !in latencies ==> after[u] == ms)
              && (u in latencies ==> 5.0 * (ms - after[u]) == 4.0 * (ms - latencies[u]))
              && forall v :: v != u ==> (v in after <==> v in latencies) && (v in after ==> after[v] == latencies[v])
  {
    if r.answeredBy.Some? && text.trim(r.answeredBy.value) != "" && env.elapsed(r.answeredBy.value) > 0.0 {
      AverageClosesAFifth(text, latencies, r.answeredBy.value, env.elapsed(r.answeredBy.value));
    }
  }

  // Picks and destinations ----------------------------------------------------------------------------------------

  /** What a single pick is, under the name a configuration gives. */
  lemma PickMeans(text: Text, strategy: string, targets: seq<BackendTarget>, group: string, counters: map<string, nat>,
                  latencies: map<string, real>, draw: nat, r: Option<string>)
    requires Picked(StrategyOf(text, strategy), targets, group, counters, latencies, draw, r) && targets != []
    ensures AsksFor(text, strategy, {"", "load-first"}) ==>
              exists t :: t in targets && r == Some(t.addr) && forall x :: x in targets ==> x.weight <= t.weight
    ensures AsksFor(text, strategy, {"latency-first"}) ==>
              exists t :: t in targets && r == Some(t.addr) && forall x :: x in targets && x.addr in latencies ==>
                t.addr in latencies && latencies[t.addr] <= latencies[x.addr]
    ensures AsksFor(text, strategy, {"rand", "random"}) && r.Some? ==>
              exists t :: t in targets && r == Some(t.addr)
    ensures !AsksFor(text, strategy, {"", "load-first", "latency-first", "rr", "round-robin", "rand", "random"}) ==>
              r.None?
  {
    hide StrategyOf, AsksFor, Less;
    StrategyNames(text, strategy);
    match StrategyOf(text, strategy)
    case LoadFirst =>
      var i :| 0 <= i < |targets| && r == Some(targets[i].addr)
        && forall j :: 0 <= j < |targets| ==> !LoadBefore(targets[j], targets[i]);
      forall x | x in targets ensures x.weight <= targets[i].weight {
        var j :| 0 <= j < |targets| && targets[j] == x;
      }
    case LatencyFirst =>
      var i :| 0 <= i < |targets| && r == Some(targets[i].addr)
        && forall j :: 0 <= j < |targets| ==> !LatencyBefore(latencies)(targets[j], targets[i]);
      forall x | x in targets && x.addr in latencies
        ensures targets[i].addr in latencies && latencies[targets[i].addr] <= latencies[x.addr]
      {
        var j :| 0 <= j < |targets| && targets[j] == x;
        assert !LatencyBefore(latencies)(targets[j], targets[i]);
      }
    case _ =>
  }

  /** Where a destination that is no backend group leads: to the listener of the service of that name, at the
      loopback address if it listens everywhere, else to itself if it is an address. */
  lemma DestinationsMean(text: Text, env: Env, p: Plan, dest: string, counters: map<string, nat>,
                         latencies: map<string, real>, d: Draws, r: Option<string>)
    requires OneChoice(text, env, p, dest, counters, latencies, d, r) && text.trim(dest) !in p.groups
    ensures text.trim(dest) == "" ==> r.None?
    ensures text.trim(dest) != "" && text.trim(dest) in p.serviceListeners ==>
              var l := p.serviceListeners[text.trim(dest)];
              && (l.addr == "0.0.0.0" ==> r == Some("127.0.0.1" + ":" + Itoa(l.port)))
              && (l.addr != "0.0.0.0" && ':' !in l.addr ==> r == Some(l.addr + ":" + Itoa(l.port)))
              && (':' in l.addr ==> r == Some("[" + l.addr + "]:" + Itoa(l.port)))
    ensures text.trim(dest) != "" && text.trim(dest) !in p.serviceListeners ==>
              r == if env.direct(text.trim(dest)) then Some(text.trim(dest)) else None
  {
    if text.trim(dest) in p.serviceListeners {
      var l := p.serviceListeners[text.trim(dest)];
      assert ':' !in "0.0.0.0" && ':' !in "127.0.0.1";
      assert "[" + l.addr + "]" + ":" + Itoa(l.port) == "[" + l.addr + "]:" + Itoa(l.port);
    }
  }
}
