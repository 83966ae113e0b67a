/** Choosing and ordering the targets of a backend group. */
module Balancing {
  import opened Strings
  import opened Wrappers
  import opened Sequences
  import opened Sorting
  import opened ServiceModel
  import opened PlanCompiler

  // State ------------------------------------------------------------------------------------------------

  function CounterAt(counters: map<string, nat>, group: string): nat {
    if group in counters then counters[group] else 0
  }

  /** A group has up to three counters: for single picks, and for ordering its direct and its relay targets. */
  datatype Use = Single | Direct | Relay

  function CounterKey(group: string, use: Use): string {
    match use
    case Single => group
    case Direct => group + "#direct"
    case Relay => group + "#relay"
  }

  /** The counter under `key` is one higher if it moves, and all others stand where they stood. */
  ghost predicate Ticks(before: map<string, nat>, after: map<string, nat>, key: string, moves: bool) {
    forall k :: CounterAt(after, k) == CounterAt(before, k) + (if k == key && moves then 1 else 0)
  }

  /** The round-robin position a group with `count` targets gets next. */
  function RoundRobinIndex(counters: map<string, nat>, group: string, count: nat): (i: nat)
    ensures count > 0 ==> i < count
  {
    if count <= 1 then 0 else CounterAt(counters, group) % count
  }

  function RoundRobinAfter(counters: map<string, nat>, group: string, count: nat): map<string, nat> {
    if count <= 1 then counters else counters[group := CounterAt(counters, group) + 1]
  }

  function Average(latencies: map<string, real>, upstream: string, ms: real): real {
    if upstream in latencies then latencies[upstream] * 0.8 + ms * 0.2 else ms
  }

  /** The averages after a finished exchange. */
  function Observed(text: Text, latencies: map<string, real>, upstream: string, ms: real): map<string, real> {
    var u := text.trim(upstream);
    if u == "" || ms <= 0.0 then latencies else latencies[u := Average(latencies, u, ms)]
  }

  /** A first measurement is taken over as it is; every later one closes a fifth of the distance to it. */
  lemma AverageClosesAFifth(text: Text, latencies: map<string, real>, upstream: string, ms: real)
    requires text.trim(upstream) != "" && ms > 0.0
    ensures var u, after := text.trim(upstream), Observed(text, latencies, upstream, ms);
            && u in after
            && (u !in latencies ==> after[u] == ms)
            && (u in latencies ==> 5.0 * (ms - after[u]) == 4.0 * (ms - latencies[u]))
            && forall v :: v != u ==> (v in after <==> v in latencies) && (v in after ==> after[v] == latencies[v])
  {}

  class PlanState {
    var rrCounters: map<string, nat>
    var latencyEWMA: map<string, real>

    constructor ()
      ensures rrCounters == map[] && latencyEWMA == map[]
    {
      rrCounters, latencyEWMA := map[], map[];
    }

    method NextRoundRobinIndex(group: string, count: nat) returns (i: nat)
      modifies this
      ensures i == if count <= 1 then 0 else CounterAt(old(rrCounters), group) % count
      ensures Ticks(old(rrCounters), rrCounters, group, count > 1)
      ensures i == RoundRobinIndex(old(rrCounters), group, count)
      ensures rrCounters == RoundRobinAfter(old(rrCounters), group, count)
      ensures latencyEWMA == old(latencyEWMA)
    {
      if count <= 1 {
        return 0;
      }
      var cur := if group in rrCounters then rrCounters[group] else 0;
      i := cur % count;
      rrCounters := rrCounters[group := cur + 1];
    }

    method ObserveLatency(text: Text, upstream: string, ms: real)
      modifies this
      ensures rrCounters == old(rrCounters)
      ensures latencyEWMA == Observed(text, old(latencyEWMA), upstream, ms)
    {
      var u := text.trim(upstream);
      if u == "" || ms <= 0.0 {
        return;
      }
      if u !in latencyEWMA {
        latencyEWMA := latencyEWMA[u := ms];
        return;
      }
      var prev := latencyEWMA[u];
      latencyEWMA := latencyEWMA[u := prev * (1.0 - 0.2) + ms * 0.2];
    }
  }

  // Orders -----------------------------------------------------------------------------------------------

  /** Heaviest first, then by address. */
  predicate LoadBefore(a: BackendTarget, b: BackendTarget) {
    if a.weight != b.weight then a.weight > b.weight else Less(a.addr, b.addr)
  }

  /** Measured targets first, fastest first among them, then as by load. */
  function LatencyBefore(latencies: map<string, real>): (BackendTarget, BackendTarget) -> bool {
    (a: BackendTarget, b: BackendTarget) =>
      var ha, hb := a.addr in latencies, b.addr in latencies;
      if ha && hb && latencies[a.addr] != latencies[b.addr] then latencies[a.addr] < latencies[b.addr]
      else if ha != hb then ha
      else LoadBefore(a, b)
  }

  lemma LoadBeforeIsWeakOrder()
    ensures WeakOrder(LoadBefore)
  {
    forall x: BackendTarget ensures !LoadBefore(x, x) { LessIrreflexive(x.addr); }
    forall x: BackendTarget, y: BackendTarget, z: BackendTarget | LoadBefore(x, y) && LoadBefore(y, z)
      ensures LoadBefore(x, z)
    {
      if x.weight == y.weight == z.weight { LessTransitive(x.addr, y.addr, z.addr); }
    }
    forall x: BackendTarget, y: BackendTarget, z: BackendTarget | !LoadBefore(x, y) && !LoadBefore(y, z)
      ensures !LoadBefore(x, z)
    {
      NotLess(x.addr, y.addr, z.addr);
    }
  }

  lemma NotLess(x: string, y: string, z: string)
    ensures !Less(x, y) && !Less(y, z) ==> !Less(x, z)
  {
    LessTotal(x, y);
    LessTotal(y, z);
    if Less(y, x) && Less(z, y) {
      LessTransitive(z, y, x);
      LessAsymmetric(z, x);
    }
    if x == z { LessIrreflexive(x); }
    if Less(x, z) { LessAsymmetric(x, z); }
  }

  lemma LatencyBeforeIsWeakOrder(latencies: map<string, real>)
    ensures WeakOrder(LatencyBefore(latencies))
  {
    var less := LatencyBefore(latencies);
    LoadBeforeIsWeakOrder();
    forall x: BackendTarget ensures !less(x, x) { assert !LoadBefore(x, x); }
    forall x: BackendTarget, y: BackendTarget, z: BackendTarget | less(x, y) && less(y, z)
      ensures less(x, z)
    {
      assert LoadBefore(x, y) && LoadBefore(y, z) ==> LoadBefore(x, z);
    }
    forall x: BackendTarget, y: BackendTarget, z: BackendTarget | !less(x, y) && !less(y, z)
      ensures !less(x, z)
    {
      assert !LoadBefore(x, y) && !LoadBefore(y, z) ==> !LoadBefore(x, z);
    }
  }

  /** A finished exchange with an upstream. */
  datatype Exchange = Exchange(upstream: string, ms: real)

  function AfterExchanges(text: Text, latencies: map<string, real>, exchanges: seq<Exchange>): map<string, real> {
    if exchanges == [] then latencies
    else
      var x := exchanges[|exchanges| - 1];
      Observed(text, AfterExchanges(text, latencies, exchanges[..|exchanges| - 1]), x.upstream, x.ms)
  }

  lemma {:induction false} OnlyTrimsAreMeasured(text: Text, exchanges: seq<Exchange>)
    requires text.Laws()
    ensures forall u :: u in AfterExchanges(text, map[], exchanges) ==> text.trim(u) == u
  {
    if exchanges != [] {
      OnlyTrimsAreMeasured(text, exchanges[..|exchanges| - 1]);
    }
  }

  /** Averages are filed under trimmed addresses and looked up as written. Once an exchange with a target was
      timed, the target counts as measured if and only if its address is its own trim; a target that is not
      stays behind every measured one, however fast it answers. */
  lemma MeasuredIffTrimmed(text: Text, exchanges: seq<Exchange>, t: BackendTarget, other: BackendTarget)
    requires text.Laws()
    requires exists i :: 0 <= i < |exchanges| && exchanges[i].upstream == t.addr && exchanges[i].ms > 0.0
    requires text.trim(t.addr) != ""
    ensures t.addr in AfterExchanges(text, map[], exchanges) <==> text.trim(t.addr) == t.addr
    ensures text.trim(t.addr) != t.addr && other.addr in AfterExchanges(text, map[], exchanges) ==>
              LatencyBefore(AfterExchanges(text, map[], exchanges))(other, t)
  {
    hide Average;
    OnlyTrimsAreMeasured(text, exchanges);
    var i :| 0 <= i < |exchanges| && exchanges[i].upstream == t.addr && exchanges[i].ms > 0.0;
    TimedIsMeasured(text, exchanges, i);
  }

  lemma {:induction false} TimedIsMeasured(text: Text, exchanges: seq<Exchange>, i: nat)
    requires i < |exchanges| && exchanges[i].ms > 0.0 && text.trim(exchanges[i].upstream) != ""
    ensures text.trim(exchanges[i].upstream) in AfterExchanges(text, map[], exchanges)
  {
    hide Average;
    if i < |exchanges| - 1 {
      TimedIsMeasured(text, exchanges[..|exchanges| - 1], i);
    }
  }

  function Rotate<T>(s: seq<T>, start: nat): seq<T>
    requires start <= |s|
  {
    s[start..] + s[..start]
  }

  function Swap<T>(s: seq<T>, i: nat, j: nat): seq<T>
    requires i < |s| && j < |s|
  {
    s[i := s[j]][j := s[i]]
  }

  /** What rand.Shuffle may draw: position i is swapped with one at or before it. */
  ghost predicate IsDraw(draws: seq<nat>, n: nat) {
    |draws| == n && forall i :: 0 <= i < n ==> draws[i] <= i
  }

  /** The swaps rand.Shuffle makes for positions `i` down to 1. */
  function Shuffled<T>(s: seq<T>, draws: seq<nat>, i: nat): (r: seq<T>)
    requires i < |s| && i < |draws| && forall k :: 0 <= k <= i ==> draws[k] <= k
    ensures |r| == |s|
    decreases i
  {
    if i == 0 then s else Shuffled(Swap(s, i, draws[i]), draws, i - 1)
  }

  lemma SwapPermutes<T>(s: seq<T>, i: nat, j: nat)
    requires i <= j < |s|
    ensures multiset(Swap(s, j, i)) == multiset(s)
  {
    if i < j {
      assert s == s[..i] + [s[i]] + s[i + 1..j] + [s[j]] + s[j + 1..];
      assert Swap(s, j, i) == s[..i] + [s[j]] + s[i + 1..j] + [s[i]] + s[j + 1..];
    } else {
      assert Swap(s, j, i) == s;
    }
  }

  lemma {:induction false} ShufflePermutes<T>(s: seq<T>, draws: seq<nat>, i: nat)
    requires i < |s| && i < |draws| && forall k :: 0 <= k <= i ==> draws[k] <= k
    ensures multiset(Shuffled(s, draws, i)) == multiset(s)
    decreases i
  {
    if i > 0 {
      SwapPermutes(s, draws[i], i);
      ShufflePermutes(Swap(s, i, draws[i]), draws, i - 1);
    }
  }

  lemma {:induction false} ShuffleKeepsAbove<T>(s: seq<T>, draws: seq<nat>, i: nat)
    requires i < |s| && i < |draws| && forall k :: 0 <= k <= i ==> draws[k] <= k
    ensures Shuffled(s, draws, i)[i + 1..] == s[i + 1..]
    decreases i
  {
    if i > 0 {
      var t := Swap(s, i, draws[i]);
      ShuffleKeepsAbove(t, draws, i - 1);
      assert t[i + 1..] == s[i + 1..];
      assert Shuffled(t, draws, i - 1)[i..][1..] == Shuffled(t, draws, i - 1)[i + 1..];
      assert t[i..][1..] == t[i + 1..];
    }
  }

  /** A shuffle can give every order: for each permutation there are draws that lead to it. Being as many as the
      orders of distinct elements, the draws lead to each exactly once. */
  lemma {:induction false} EveryOrderHasDraws<T>(s: seq<T>, t: seq<T>, i: nat) returns (draws: seq<nat>)
    requires i < |s| == |t| && multiset(s[..i + 1]) == multiset(t[..i + 1]) && s[i + 1..] == t[i + 1..]
    ensures |draws| == i + 1 && (forall k :: 0 <= k <= i ==> draws[k] <= k)
    ensures Shuffled(s, draws, i) == t
    decreases i
  {
    var j := DrawFor(s, t, i);
    if i == 0 {
      draws := [0];
      assert s == [s[0]] + s[1..] && t == [t[0]] + t[1..];
    } else {
      var rest := EveryOrderHasDraws(Swap(s, i, j), t, i - 1);
      draws := rest + [j];
      ShuffleReadsPrefix(Swap(s, i, j), rest, draws, i - 1);
    }
  }

  /** The draw that brings the right element to position `i`. */
  lemma DrawFor<T>(s: seq<T>, t: seq<T>, i: nat) returns (j: nat)
    requires i < |s| == |t| && multiset(s[..i + 1]) == multiset(t[..i + 1]) && s[i + 1..] == t[i + 1..]
    ensures j <= i && s[j] == t[i]
    ensures var u := Swap(s, i, j);
            |u| == |t| && multiset(u[..i]) == multiset(t[..i]) && u[i..] == t[i..]
  {
    hide Swap;
    assert t[..i + 1][i] == t[i] && t[i] in multiset(t[..i + 1]);
    assert t[i] in multiset(s[..i + 1]);
    j :| j <= i && s[..i + 1][j] == t[i];
    SwapInPrefix(s, i, j);
    var u := Swap(s, i, j);
    assert u[..i + 1] == u[..i] + [t[i]] && t[..i + 1] == t[..i] + [t[i]];
    Cancel(u[..i], t[..i], t[i]);
    assert u[i..] == [u[i]] + u[i + 1..] && t[i..] == [t[i]] + t[i + 1..];
  }

  lemma SwapInPrefix<T>(s: seq<T>, i: nat, j: nat)
    requires j <= i < |s|
    ensures var u := Swap(s, i, j);
            && |u| == |s| && multiset(u[..i + 1]) == multiset(s[..i + 1])
            && u[i] == s[j] && u[i + 1..] == s[i + 1..]
  {
    SwapPermutes(s[..i + 1], j, i);
    assert Swap(s, i, j)[..i + 1] == Swap(s[..i + 1], i, j);
  }

  lemma Cancel<T>(a: seq<T>, b: seq<T>, x: T)
    requires multiset(a + [x]) == multiset(b + [x])
    ensures multiset(a) == multiset(b)
  {
    assert multiset(a + [x]) - multiset{x} == multiset(a);
    assert multiset(b + [x]) - multiset{x} == multiset(b);
  }

  lemma {:induction false} ShuffleReadsPrefix<T>(s: seq<T>, a: seq<nat>, b: seq<nat>, i: nat)
    requires i < |s| && i < |a| <= |b| && a == b[..|a|] && forall k :: 0 <= k <= i ==> a[k] <= k
    ensures Shuffled(s, a, i) == Shuffled(s, b, i)
    decreases i
  {
    if i > 0 {
      ShuffleReadsPrefix(Swap(s, i, a[i]), a, b, i - 1);
    }
  }

  method ShuffleInPlace(a: array<BackendTarget>, draws: seq<nat>)
    requires IsDraw(draws, a.Length)
    modifies a
    ensures a.Length > 0 ==> a[..] == Shuffled(old(a[..]), draws, a.Length - 1)
    ensures multiset(a[..]) == multiset(old(a[..]))
  {
    if a.Length <= 1 {
      return;
    }
    var i := a.Length - 1;
    ghost var was := a[..];
    while i > 0
      invariant 0 <= i < a.Length
      invariant Shuffled(a[..], draws, i) == Shuffled(was, draws, a.Length - 1)
    {
      var j := draws[i];
      ghost var before := a[..];
      a[i], a[j] := a[j], a[i];
      assert a[..] == Swap(before, i, j);
      i := i - 1;
    }
    ShufflePermutes(was, draws, a.Length - 1);
  }

  /** The strategies the program knows; any other well-formed name is registered by an extension. */
  datatype Strategy = LoadFirst | LatencyFirst | RoundRobin | Random | Custom(name: string)

  function StrategyOf(text: Text, strategy: string): Strategy {
    var s := NormalizeStrategy(text, strategy);
    if s == "load-first" then LoadFirst
    else if s == "latency-first" then LatencyFirst
    else if s == "round-robin" then RoundRobin
    else if s == "random" then Random
    else Custom(s)
  }

  /** The names under which a configuration asks for a strategy, in any case and with space around. */
  ghost predicate AsksFor(text: Text, strategy: string, names: set<string>) { text.lower(text.trim(strategy)) in names }

  /** Which names mean which strategy. */
  lemma StrategyNames(text: Text, strategy: string)
    ensures StrategyOf(text, strategy) == LoadFirst <==> AsksFor(text, strategy, {"", "load-first"})
    ensures StrategyOf(text, strategy) == LatencyFirst <==> AsksFor(text, strategy, {"latency-first"})
    ensures StrategyOf(text, strategy) == RoundRobin <==> AsksFor(text, strategy, {"rr", "round-robin"})
    ensures StrategyOf(text, strategy) == Random <==> AsksFor(text, strategy, {"rand", "random"})
    ensures StrategyOf(text, strategy).Custom? <==>
              !AsksFor(text, strategy, {"", "load-first", "latency-first", "rr", "round-robin", "rand", "random"})
    ensures StrategyOf(text, strategy).Custom? ==>
              StrategyOf(text, strategy).name == text.lower(text.trim(strategy))
  {}

  /** The order a strategy puts targets in, given the balancer state and the random draws. */
  function Ordered(strategy: Strategy, targets: seq<BackendTarget>, start: nat,
                   latencies: map<string, real>, draws: seq<nat>): seq<BackendTarget>
    requires start <= |targets| && |draws| == |targets| && forall i :: 0 <= i < |draws| ==> draws[i] <= i
  {
    if targets == [] then []
    else
      match strategy
      case RoundRobin => Rotate(targets, start)
      case Random => Shuffled(targets, draws, |targets| - 1)
      case LatencyFirst => Sort(LatencyBefore(latencies), targets)
      case _ => Sort(LoadBefore, targets)
  }

  lemma OrderedPermutes(strategy: Strategy, targets: seq<BackendTarget>, start: nat,
                        latencies: map<string, real>, draws: seq<nat>)
    requires start <= |targets| && IsDraw(draws, |targets|)
    ensures multiset(Ordered(strategy, targets, start, latencies, draws)) == multiset(targets)
  {
    assert targets == targets[..start] + targets[start..];
    if targets != [] {
      ShufflePermutes(targets, draws, |targets| - 1);
    }
  }

  /** Only round-robin moves a counter. */
  function CountersAfterOrder(s: Strategy, counters: map<string, nat>, group: string, count: nat): map<string, nat> {
    if s == RoundRobin then RoundRobinAfter(counters, group, count) else counters
  }

  /** The sorting strategies leave no target before one that should precede it; unknown strategies
      order by load. */
  lemma OrderedIsSorted(strategy: Strategy, targets: seq<BackendTarget>, start: nat,
                        latencies: map<string, real>, draws: seq<nat>)
    requires start <= |targets| && IsDraw(draws, |targets|) && !strategy.RoundRobin? && !strategy.Random?
    ensures Sorted(if strategy.LatencyFirst? then LatencyBefore(latencies) else LoadBefore,
                   Ordered(strategy, targets, start, latencies, draws))
  {
    LatencyBeforeIsWeakOrder(latencies);
    LoadBeforeIsWeakOrder();
    SortSorted(LatencyBefore(latencies), targets);
    SortSorted(LoadBefore, targets);
  }

  lemma NothingToOrder(s: Strategy, latencies: map<string, real>, draws: seq<nat>)
    requires draws == []
    ensures Ordered(s, [], 0, latencies, draws) == []
  {}

  /** The targets one after the other from the counter's position on. */
  ghost predicate InTurn(targets: seq<BackendTarget>, counter: nat, ordered: seq<BackendTarget>) {
    |ordered| == |targets| && forall i :: 0 <= i < |targets| ==> ordered[i] == targets[(counter + i) % |targets|]
  }

  lemma NothingToTurn(counter: nat)
    ensures InTurn([], counter, [])
  {}

  lemma StartsInTurn(targets: seq<BackendTarget>, counter: nat, start: nat, ordered: seq<BackendTarget>)
    requires targets != [] && start == (if |targets| == 1 then 0 else counter % |targets|) && |ordered| == |targets|
    requires forall k :: 0 <= k < |targets| ==> ordered[k] == targets[(start + k) % |targets|]
    ensures InTurn(targets, counter, ordered)
  {
    forall i | 0 <= i < |targets|
      ensures ordered[i] == targets[(counter + i) % |targets|]
    {
      if |targets| > 1 { ModAdds(counter, i, |targets|); }
    }
  }

  method OrderTargetsByStrategy(text: Text, state: PlanState, group: string, targets: seq<BackendTarget>,
                                strategy: string, draws: seq<nat>)
    returns (ordered: seq<BackendTarget>)
    requires IsDraw(draws, |targets|)
    modifies state
    ensures var s := StrategyOf(text, strategy);
            && ordered == Ordered(s, targets, RoundRobinIndex(old(state.rrCounters), group, |targets|),
                                  old(state.latencyEWMA), draws)
            && state.rrCounters == CountersAfterOrder(s, old(state.rrCounters), group, |targets|)
            && state.latencyEWMA == old(state.latencyEWMA)
    ensures Ticks(old(state.rrCounters), state.rrCounters, group,
                  AsksFor(text, strategy, {"rr", "round-robin"}) && |targets| > 1)
    ensures AsksFor(text, strategy, {"rr", "round-robin"}) ==>
              InTurn(targets, CounterAt(old(state.rrCounters), group), ordered)
  {
    hide StrategyOf, Sort, LatencyBefore, AsksFor, InTurn;
    StrategyNames(text, strategy);
    if targets == [] {
      NothingToTurn(CounterAt(state.rrCounters, group));
      NothingToOrder(StrategyOf(text, strategy), state.latencyEWMA, draws);
      return [];
    }
    match StrategyOf(text, strategy)
    case RoundRobin =>
      var start := state.NextRoundRobinIndex(group, |targets|);
      ordered := [];
      for i := 0 to |targets|
        invariant |ordered| == i && forall k :: 0 <= k < i ==> ordered[k] == targets[(start + k) % |targets|]
      {
        ordered := ordered + [targets[(start + i) % |targets|]];
      }
      RotateByModulo(targets, start, ordered);
      StartsInTurn(targets, CounterAt(old(state.rrCounters), group), start, ordered);
    case Random =>
      var a := new BackendTarget[|targets|](i requires 0 <= i < |targets| => targets[i]);
      assert a[..] == targets;
      ShuffleInPlace(a, draws);
      ordered := a[..];
    case LatencyFirst =>
      ordered := Sort(LatencyBefore(state.latencyEWMA), targets);
    case _ =>
      ordered := Sort(LoadBefore, targets);
  }

  lemma ModUnique(x: int, q: int, r: int, n: int)
    requires n > 0 && 0 <= r < n && x == q * n + r
    ensures x % n == r
  {
    var d := q - x / n;
    assert d * n == x % n - r;
    MultipleIsFar(d, n);
  }

  lemma MultipleIsFar(d: int, n: int)
    requires n > 0
    ensures d >= 1 ==> d * n >= n
    ensures d <= -1 ==> d * n <= -n
  {
    assert d * n == (d - 1) * n + n == (d + 1) * n - n;
    if d >= 1 { assert (d - 1) * n >= 0; }
    if d <= -1 { assert (-d - 1) * n >= 0; }
  }

  lemma ModPlus(x: int, n: int)
    requires n > 0
    ensures (x + n) % n == x % n
  {
    assert (x / n + 1) * n == x / n * n + n;
    ModUnique(x + n, x / n + 1, x % n, n);
  }

  lemma ModAdds(x: int, y: int, n: int)
    requires n > 0
    ensures (x % n + y) % n == (x + y) % n
  {
    var q, r := (x % n + y) / n, (x % n + y) % n;
    assert (x / n + q) * n == x / n * n + q * n;
    ModUnique(x + y, x / n + q, r, n);
  }

  lemma ModSmall(x: int, n: int)
    requires 0 <= x < n
    ensures x % n == x
  {
    ModUnique(x, 0, x, n);
  }

  lemma RotateByModulo(targets: seq<BackendTarget>, start: nat, rotated: seq<BackendTarget>)
    requires start < |targets| == |rotated|
    requires forall k :: 0 <= k < |targets| ==> rotated[k] == targets[(start + k) % |targets|]
    ensures rotated == Rotate(targets, start)
  {
    var n := |targets|;
    forall k | 0 <= k < n ensures rotated[k] == Rotate(targets, start)[k] {
      if start + k < n {
        ModSmall(start + k, n);
      } else {
        ModPlus(start + k - n, n);
        ModSmall(start + k - n, n);
      }
    }
  }

  // Direct before relay ------------------------------------------------------------------------------------

  function Select(text: Text, targets: seq<BackendTarget>, relay: bool): seq<BackendTarget> {
    if targets == [] then []
    else
      Select(text, targets[..|targets| - 1], relay)
        + (if IsRelay(text, targets[|targets| - 1]) == relay then [targets[|targets| - 1]] else [])
  }

  method SplitDirectAndRelay(text: Text, targets: seq<BackendTarget>)
    returns (direct: seq<BackendTarget>, relay: seq<BackendTarget>)
    ensures direct == Select(text, targets, false) && relay == Select(text, targets, true)
  {
    direct, relay := [], [];
    for i := 0 to |targets|
      invariant direct == Select(text, targets[..i], false) && relay == Select(text, targets[..i], true)
    {
      assert targets[..i + 1][..i] == targets[..i];
      if IsRelay(text, targets[i]) {
        relay := relay + [targets[i]];
      } else {
        direct := direct + [targets[i]];
      }
    }
    assert targets[..|targets|] == targets;
  }

  /** Each kind keeps the listed order: what is selected of a list is what is selected of its parts, in turn. */
  lemma {:induction false} SelectInOrder(text: Text, a: seq<BackendTarget>, b: seq<BackendTarget>, relay: bool)
    ensures Select(text, a + b, relay) == Select(text, a, relay) + Select(text, b, relay)
    ensures |a| == 1 ==> Select(text, a, relay) == if IsRelay(text, a[0]) == relay then a else []
  {
    hide IsRelay;
    if b == [] {
      assert a + b == a;
    } else {
      SelectInOrder(text, a, b[..|b| - 1], relay);
      assert (a + b)[..|a + b| - 1] == a + b[..|b| - 1];
    }
  }

  lemma {:induction false} SelectKeeps(text: Text, targets: seq<BackendTarget>, relay: bool)
    ensures forall i :: 0 <= i < |Select(text, targets, relay)| ==>
              IsRelay(text, Select(text, targets, relay)[i]) == relay
  {
    hide IsRelay;
    if targets != [] {
      SelectKeeps(text, targets[..|targets| - 1], relay);
    }
  }

  lemma {:induction false} SelectSplits(text: Text, targets: seq<BackendTarget>)
    ensures multiset(Select(text, targets, false)) + multiset(Select(text, targets, true)) == multiset(targets)
  {
    hide IsRelay, Select;
    if targets == [] {
      SelectNone(text);
    } else {
      var before, t := targets[..|targets| - 1], targets[|targets| - 1];
      SelectSplits(text, before);
      SelectOneMore(text, targets);
      assert targets == before + [t];
      if IsRelay(text, t) {
        OneMoreSplits(Select(text, before, true), Select(text, before, false), before, t);
      } else {
        OneMoreSplits(Select(text, before, false), Select(text, before, true), before, t);
      }
    }
  }

  lemma SelectNone(text: Text)
    ensures Select(text, [], false) == [] && Select(text, [], true) == []
  {}

  lemma SelectOneMore(text: Text, targets: seq<BackendTarget>)
    requires targets != []
    ensures var before, t := targets[..|targets| - 1], targets[|targets| - 1];
            if IsRelay(text, t) then
              Select(text, targets, true) == Select(text, before, true) + [t]
              && Select(text, targets, false) == Select(text, before, false)
            else
              Select(text, targets, false) == Select(text, before, false) + [t]
              && Select(text, targets, true) == Select(text, before, true)
  {
    hide IsRelay;
  }

  lemma OneMoreSplits<T>(a: seq<T>, b: seq<T>, whole: seq<T>, x: T)
    requires multiset(a) + multiset(b) == multiset(whole)
    ensures multiset(a + [x]) + multiset(b) == multiset(whole + [x])
  {
    assert multiset(a + [x]) == multiset(a) + multiset{x} && multiset(whole + [x]) == multiset(whole) + multiset{x};
  }

  /** The draws and counters one ordering of a group consumes. */
  datatype Luck = Luck(directStart: nat, relayStart: nat, latencies: map<string, real>,
                       directDraws: seq<nat>, relayDraws: seq<nat>)

  ghost predicate Fits(text: Text, targets: seq<BackendTarget>, luck: Luck) {
    var d, r := Select(text, targets, false), Select(text, targets, true);
    luck.directStart <= |d| && luck.relayStart <= |r| && IsDraw(luck.directDraws, |d|) && IsDraw(luck.relayDraws, |r|)
  }

  ghost function OrderedGroup(text: Text, targets: seq<BackendTarget>, strategy: Strategy, luck: Luck)
    : seq<BackendTarget>
    requires Fits(text, targets, luck)
  {
    Ordered(strategy, Select(text, targets, false), luck.directStart, luck.latencies, luck.directDraws)
      + Ordered(strategy, Select(text, targets, true), luck.relayStart, luck.latencies, luck.relayDraws)
  }

  /** For every strategy, counter and draw: all targets of the group, each as often as it is listed,
      and no relay target before a direct one. */
  lemma {:induction false} CandidateOrder(text: Text, targets: seq<BackendTarget>, strategy: Strategy, luck: Luck)
    requires Fits(text, targets, luck)
    ensures var o := OrderedGroup(text, targets, strategy, luck);
            && multiset(o) == multiset(targets)
            && forall i, j :: 0 <= i < j < |o| && IsRelay(text, o[i]) ==> IsRelay(text, o[j])
  {
    var d, r := Select(text, targets, false), Select(text, targets, true);
    hide IsRelay, Ordered;
    SelectSplits(text, targets);
    SelectKeeps(text, targets, false);
    SelectKeeps(text, targets, true);
    var od := Ordered(strategy, d, luck.directStart, luck.latencies, luck.directDraws);
    var or := Ordered(strategy, r, luck.relayStart, luck.latencies, luck.relayDraws);
    OrderedPermutes(strategy, d, luck.directStart, luck.latencies, luck.directDraws);
    OrderedPermutes(strategy, r, luck.relayStart, luck.latencies, luck.relayDraws);
    forall i | 0 <= i < |od| ensures !IsRelay(text, od[i]) {
      assert od[i] in multiset(d);
    }
    forall i | 0 <= i < |or| ensures IsRelay(text, or[i]) {
      assert or[i] in multiset(r);
    }
  }

  // Candidates ---------------------------------------------------------------------------------------------

  function Addresses(targets: seq<BackendTarget>): seq<string> { Map(targets, (t: BackendTarget) => t.addr) }

  /** The ordered list, cycled up to the number of attempts. */
  function Cycle<T>(ordered: seq<T>, attempts: nat): seq<T>
    requires ordered != []
  {
    seq(attempts, i requires 0 <= i < attempts => ordered[i % |ordered|])
  }

  /** Any run of as many consecutive candidates as there are targets uses each target once: none is
      tried again before all were. */
  lemma {:induction false} CycleWindows<T>(ordered: seq<T>, attempts: nat, w: nat)
    requires ordered != [] && w + |ordered| <= attempts
    ensures multiset(Cycle(ordered, attempts)[w..w + |ordered|]) == multiset(ordered)
  {
    hide Cycle, Periodic;
    CycleRepeats(ordered, attempts);
    PeriodicWindows(ordered, Cycle(ordered, attempts), |ordered|, w);
  }

  lemma {:induction false} PeriodicWindows<T>(ordered: seq<T>, c: seq<T>, n: nat, w: nat)
    requires |ordered| == n && 0 < n && w + n <= |c|
    requires forall i :: 0 <= i < n ==> c[i] == ordered[i]
    requires Periodic(c, n)
    ensures multiset(c[w..w + n]) == multiset(ordered)
  {
    hide Periodic;
    if w == 0 {
      FirstWindow(ordered, c);
    } else {
      PeriodicWindows(ordered, c, n, w - 1);
      PeriodAt(c, n, w - 1);
      SlideWindow(c, n, w);
    }
  }

  ghost predicate Periodic<T>(c: seq<T>, n: nat) {
    forall i, j :: 0 <= i && j == i + n && j < |c| ==> c[j] == c[i]
  }

  lemma PeriodAt<T>(c: seq<T>, n: nat, i: nat)
    requires Periodic(c, n) && i + n < |c|
    ensures c[i + n] == c[i]
  {}

  lemma CycleRepeats<T>(ordered: seq<T>, attempts: nat)
    requires ordered != []
    ensures |Cycle(ordered, attempts)| == attempts
    ensures forall i :: 0 <= i < |ordered| && i < attempts ==> Cycle(ordered, attempts)[i] == ordered[i]
    ensures Periodic(Cycle(ordered, attempts), |ordered|)
  {
    forall i | 0 <= i < |ordered| && i < attempts ensures Cycle(ordered, attempts)[i] == ordered[i] {
      ModSmall(i, |ordered|);
    }
    forall i | 0 <= i && i + |ordered| < attempts
      ensures Cycle(ordered, attempts)[i + |ordered|] == Cycle(ordered, attempts)[i]
    {
      ModPlus(i, |ordered|);
    }
  }

  lemma FirstWindow<T>(ordered: seq<T>, c: seq<T>)
    requires |ordered| <= |c| && forall i :: 0 <= i < |ordered| ==> c[i] == ordered[i]
    ensures c[0..|ordered|] == ordered
  {}

  lemma SlideWindow<T>(c: seq<T>, n: nat, w: nat)
    requires 0 < n && 0 < w && w + n <= |c| && c[w + n - 1] == c[w - 1]
    ensures multiset(c[w..w + n]) == multiset(c[w - 1..w - 1 + n])
  {
    assert c[w - 1..w - 1 + n] == [c[w - 1]] + c[w..w + n - 1];
    assert c[w..w + n] == c[w..w + n - 1] + [c[w + n - 1]];
  }

  /** Direct and relay targets of a group rotate independently. */
  function CountersAfterGroup(text: Text, s: Strategy, counters: map<string, nat>, group: string,
                              targets: seq<BackendTarget>): map<string, nat>
  {
    CountersAfterOrder(s, CountersAfterOrder(s, counters, CounterKey(group, Direct), |Select(text, targets, false)|),
                       CounterKey(group, Relay), |Select(text, targets, true)|)
  }

  /** The counters for the direct and for the relay targets of a group, each moved by itself. */
  ghost predicate TicksTwice(before: map<string, nat>, after: map<string, nat>, group: string,
                             direct: bool, relay: bool)
  {
    forall k :: CounterAt(after, k) == CounterAt(before, k)
                  + (if k == CounterKey(group, Direct) && direct then 1 else 0)
                  + (if k == CounterKey(group, Relay) && relay then 1 else 0)
  }

  lemma TicksCompose(a: map<string, nat>, b: map<string, nat>, c: map<string, nat>, group: string,
                     direct: bool, relay: bool)
    requires Ticks(a, b, CounterKey(group, Direct), direct) && Ticks(b, c, CounterKey(group, Relay), relay)
    ensures TicksTwice(a, c, group, direct, relay)
  {}

  method OrderedBackendTargets(text: Text, state: PlanState, group: string, targets: seq<BackendTarget>,
                               strategy: string, directDraws: seq<nat>, relayDraws: seq<nat>)
    returns (addrs: seq<string>)
    requires IsDraw(directDraws, |Select(text, targets, false)|) && IsDraw(relayDraws, |Select(text, targets, true)|)
    modifies state
    ensures var luck := LuckOf(text, old(state.rrCounters), old(state.latencyEWMA), group, targets, strategy,
                               directDraws, relayDraws);
            && Fits(text, targets, luck)
            && addrs == Addresses(OrderedGroup(text, targets, StrategyOf(text, strategy), luck))
    ensures var robin := AsksFor(text, strategy, {"rr", "round-robin"});
            var d, r := Select(text, targets, false), Select(text, targets, true);
            TicksTwice(old(state.rrCounters), state.rrCounters, group, robin && |d| > 1, robin && |r| > 1)
    ensures var d := Select(text, targets, false);
            AsksFor(text, strategy, {"rr", "round-robin"}) && |d| > 1 ==> |addrs| >= |d| && forall i :: 0 <= i < |d| ==>
              addrs[i] == d[(CounterAt(old(state.rrCounters), CounterKey(group, Direct)) + i) % |d|].addr
    ensures state.rrCounters == CountersAfterGroup(text, StrategyOf(text, strategy), old(state.rrCounters), group,
                                                   targets)
    ensures state.latencyEWMA == old(state.latencyEWMA)
  {
    hide StrategyOf, Ordered, AsksFor, Select, Ticks, TicksTwice;
    ghost var c0 := state.rrCounters;
    var direct, relay := SplitDirectAndRelay(text, targets);
    DifferentGroups(group);
    var d := OrderTargetsByStrategy(text, state, CounterKey(group, Direct), direct, strategy, directDraws);
    ghost var c1 := state.rrCounters;
    var r := OrderTargetsByStrategy(text, state, CounterKey(group, Relay), relay, strategy, relayDraws);
    var ordered := d + r;
    TicksCompose(c0, c1, state.rrCounters, group, AsksFor(text, strategy, {"rr", "round-robin"}) && |direct| > 1,
                 AsksFor(text, strategy, {"rr", "round-robin"}) && |relay| > 1);
    addrs := [];
    for i := 0 to |ordered|
      invariant addrs == Addresses(ordered)[..i]
    {
      addrs := addrs + [ordered[i].addr];
    }
  }

  ghost function LuckOf(text: Text, counters: map<string, nat>, latencies: map<string, real>, group: string,
                        targets: seq<BackendTarget>, strategy: string, directDraws: seq<nat>, relayDraws: seq<nat>)
    : Luck
  {
    Luck(RoundRobinIndex(counters, CounterKey(group, Direct), |Select(text, targets, false)|),
         RoundRobinIndex(counters, CounterKey(group, Relay), |Select(text, targets, true)|),
         latencies, directDraws, relayDraws)
  }

  lemma DifferentGroups(group: string)
    ensures CounterKey(group, Direct) != CounterKey(group, Relay)
  {
    assert |CounterKey(group, Direct)| != |CounterKey(group, Relay)|;
  }

  // Single picks ---------------------------------------------------------------------------------------------

  method LoadFirstPick(targets: seq<BackendTarget>) returns (best: BackendTarget)
    requires targets != []
    ensures best in targets && forall i :: 0 <= i < |targets| ==> !LoadBefore(targets[i], best)
    ensures forall t :: t in targets ==>
              t.weight < best.weight || (t.weight == best.weight && (best.addr == t.addr || Less(best.addr, t.addr)))
  {
    LoadBeforeIsWeakOrder();
    best := targets[0];
    for i := 1 to |targets|
      invariant best in targets && forall k :: 0 <= k < i ==> !LoadBefore(targets[k], best)
    {
      var t := targets[i];
      LoadKeepsBest(targets[..i], best, t);
      if t.weight > best.weight {
        best := t;
      } else if t.weight == best.weight && Less(t.addr, best.addr) {
        best := t;
      }
    }
    forall t | t in targets && t.weight == best.weight ensures best.addr == t.addr || Less(best.addr, t.addr) {
      LessTotal(best.addr, t.addr);
    }
  }

  lemma LoadKeepsBest(seen: seq<BackendTarget>, best: BackendTarget, t: BackendTarget)
    requires forall k :: 0 <= k < |seen| ==> !LoadBefore(seen[k], best)
    ensures LoadBefore(t, best) ==> !LoadBefore(t, t) && forall k :: 0 <= k < |seen| ==> !LoadBefore(seen[k], t)
  {
    LoadBeforeIsWeakOrder();
    assert forall k :: 0 <= k < |seen| && LoadBefore(t, best) && LoadBefore(seen[k], t) ==> LoadBefore(seen[k], best);
  }

  lemma {:induction false} AllDirect(text: Text, targets: seq<BackendTarget>)
    requires forall i :: 0 <= i < |targets| ==> !IsRelay(text, targets[i])
    ensures Select(text, targets, false) == targets && Select(text, targets, true) == []
  {
    if targets != [] {
      AllDirect(text, targets[..|targets| - 1]);
    }
  }

  // Shares of round-robin ------------------------------------------------------------------------------------

  /** A move of the counter filed under `key`. */
  datatype Turn = Turn(key: string, count: nat)

  function CountersAfter(counters: map<string, nat>, turns: seq<Turn>): map<string, nat> {
    if turns == [] then counters
    else
      var c := turns[|turns| - 1];
      RoundRobinAfter(CountersAfter(counters, turns[..|turns| - 1]), c.key, c.count)
  }

  function TurnsOn(turns: seq<Turn>, key: string): nat {
    if turns == [] then 0
    else TurnsOn(turns[..|turns| - 1], key) + (if turns[|turns| - 1].key == key then 1 else 0)
  }

  /** How many of the turns of a counter returned position `j`. */
  function Hits(counters: map<string, nat>, turns: seq<Turn>, key: string, j: nat): nat {
    if turns == [] then 0
    else
      var c := turns[|turns| - 1];
      Hits(counters, turns[..|turns| - 1], key, j)
        + (if c.key == key
              && RoundRobinIndex(CountersAfter(counters, turns[..|turns| - 1]), key, c.count) == j then 1 else 0)
  }

  /** How many of `m` consecutive numbers from `c` leave remainder `j`. */
  function Residues(c: nat, m: nat, n: nat, j: nat): nat
    requires n > 0
  {
    if m == 0 then 0 else Residues(c, m - 1, n, j) + (if (c + m - 1) % n == j then 1 else 0)
  }

  lemma {:induction false} HitsAreResidues(counters: map<string, nat>, turns: seq<Turn>, key: string, n: nat, j: nat)
    requires n > 1 && forall i :: 0 <= i < |turns| && turns[i].key == key ==> turns[i].count == n
    ensures Hits(counters, turns, key, j) == Residues(CounterAt(counters, key), TurnsOn(turns, key), n, j)
    ensures CounterAt(CountersAfter(counters, turns), key) == CounterAt(counters, key) + TurnsOn(turns, key)
  {
    if turns != [] {
      HitsAreResidues(counters, turns[..|turns| - 1], key, n, j);
    }
  }

  lemma {:induction false} OneResiduePerTurn(c: nat, n: nat, j: nat)
    requires j < n
    ensures Residues(c, n, n, j) == 1
  {
    if c == 0 {
      FirstTurn(n, n, j);
    } else {
      OneResiduePerTurn(c - 1, n, j);
      ShiftTurn(c - 1, n, n, j);
      ModPlus(c - 1, n);
    }
  }

  lemma {:induction false} FirstTurn(m: nat, n: nat, j: nat)
    requires j < n && m <= n
    ensures Residues(0, m, n, j) == if j < m then 1 else 0
  {
    if m > 0 {
      FirstTurn(m - 1, n, j);
      ModSmall(m - 1, n);
    }
  }

  lemma {:induction false} ShiftTurn(c: nat, m: nat, n: nat, j: nat)
    requires n > 0
    ensures Residues(c + 1, m, n, j) + (if c % n == j then 1 else 0) ==
            Residues(c, m, n, j) + (if (c + m) % n == j then 1 else 0)
  {
    if m > 0 {
      ShiftTurn(c, m - 1, n, j);
    }
  }

  lemma {:induction false} ResiduesPerTurns(c: nat, k: nat, n: nat, j: nat)
    requires j < n
    ensures Residues(c, k * n, n, j) == k
  {
    if k > 0 {
      hide Residues;
      ResiduesPerTurns(c, k - 1, n, j);
      var m := OneTurnLess(k, n);
      ResiduesConcat(c, m, n, n, j);
      OneResiduePerTurn(c + m, n, j);
    }
  }

  lemma OneTurnLess(k: nat, n: nat) returns (m: nat)
    requires k > 0
    ensures m == (k - 1) * n && k * n == m + n
  {
    m := (k - 1) * n;
  }

  lemma {:induction false} ResiduesConcat(c: nat, a: nat, b: nat, n: nat, j: nat)
    requires n > 0
    ensures Residues(c, a + b, n, j) == Residues(c, a, n, j) + Residues(c + a, b, n, j)
  {
    if b > 0 {
      ResiduesConcat(c, a, b - 1, n, j);
    }
  }

  /** From any counters and between any turns of other counters, k times n turns give each position
      exactly k times. */
  lemma CounterIsExact(counters: map<string, nat>, turns: seq<Turn>, key: string, n: nat, k: nat, j: nat)
    requires n > 1 && j < n && TurnsOn(turns, key) == k * n
    requires forall i :: 0 <= i < |turns| && turns[i].key == key ==> turns[i].count == n
    ensures Hits(counters, turns, key, j) == k
  {
    HitsAreResidues(counters, turns, key, n, j);
    ResiduesPerTurns(CounterAt(counters, key), k, n, j);
  }

  datatype Call = Call(group: string, use: Use, count: nat)

  function TurnOf(): Call -> Turn { (c: Call) => Turn(CounterKey(c.group, c.use), c.count) }

  function TurnsOf(calls: seq<Call>): seq<Turn> { Map(calls, TurnOf()) }

  function CallsOf(calls: seq<Call>, group: string, use: Use): nat {
    if calls == [] then 0
    else
      var c := calls[|calls| - 1];
      CallsOf(calls[..|calls| - 1], group, use) + (if c.group == group && c.use == use then 1 else 0)
  }

  /** How many of a group's calls of one use got position `j`. */
  function CallHits(counters: map<string, nat>, calls: seq<Call>, group: string, use: Use, j: nat): nat {
    if calls == [] then 0
    else
      var before, c := calls[..|calls| - 1], calls[|calls| - 1];
      CallHits(counters, before, group, use, j)
        + (if c.group == group && c.use == use
              && RoundRobinIndex(CountersAfter(counters, TurnsOf(before)), CounterKey(group, use), c.count) == j
           then 1 else 0)
  }

  /** The calls make k full turns of a group that keeps n targets. */
  ghost predicate FullTurns(calls: seq<Call>, group: string, use: Use, n: nat, k: nat) {
    && CallsOf(calls, group, use) == k * n
    && forall i :: 0 <= i < |calls| && calls[i].group == group && calls[i].use == use ==> calls[i].count == n
  }

  /** No group is named like another with "#direct" or "#relay" after it. */
  ghost predicate SeparateNames(names: set<string>) {
    forall g, h :: g in names && h in names ==> g != CounterKey(h, Direct) && g != CounterKey(h, Relay)
  }

  ghost predicate CallsAmong(calls: seq<Call>, names: set<string>) {
    forall i :: 0 <= i < |calls| ==> calls[i].group in names
  }

  lemma KeyReadsBack(g: string, u: Use)
    ensures var k := CounterKey(g, u);
            && (u == Direct ==> k[|k| - 1] == 't' && k[..|k| - 7] == g)
            && (u == Relay ==> k[|k| - 1] == 'y' && k[..|k| - 6] == g)
  {}

  lemma KeysApart(g: string, u: Use, h: string, v: Use)
    requires CounterKey(g, u) == CounterKey(h, v) && SeparateNames({g, h})
    ensures g == h && u == v
  {
    KeyReadsBack(g, u);
    KeyReadsBack(h, v);
  }

  lemma {:induction false} CallsAreTurns(counters: map<string, nat>, calls: seq<Call>, names: set<string>,
                                         group: string, use: Use, j: nat)
    requires SeparateNames(names) && CallsAmong(calls, names) && group in names
    ensures CallsOf(calls, group, use) == TurnsOn(TurnsOf(calls), CounterKey(group, use))
    ensures CallHits(counters, calls, group, use, j) == Hits(counters, TurnsOf(calls), CounterKey(group, use), j)
  {
    hide CounterKey, SeparateNames, CountersAfter, RoundRobinIndex;
    if calls != [] {
      var before, c := calls[..|calls| - 1], calls[|calls| - 1];
      CallsAreTurns(counters, before, names, group, use, j);
      assert TurnsOf(calls)[..|calls| - 1] == TurnsOf(before);
      if CounterKey(c.group, c.use) == CounterKey(group, use) {
        SubsetSeparate(names, c.group, group);
        KeysApart(c.group, c.use, group, use);
      }
    }
  }

  lemma SubsetSeparate(names: set<string>, g: string, h: string)
    requires SeparateNames(names) && g in names && h in names
    ensures SeparateNames({g, h})
  {}

  /** Over any run of single picks and orderings, of any groups with separate names and from any counters,
      k times n calls of one use of an n-target group get each position exactly k times. */
  lemma RoundRobinIsExact(counters: map<string, nat>, calls: seq<Call>, names: set<string>, group: string, use: Use,
                          n: nat, k: nat, j: nat)
    requires SeparateNames(names) && CallsAmong(calls, names) && group in names
    requires n > 1 && j < n && FullTurns(calls, group, use, n, k)
    ensures CallHits(counters, calls, group, use, j) == k
  {
    hide CallHits, Hits, CallsOf, TurnsOn, CounterKey, SeparateNames;
    var key := CounterKey(group, use);
    CallsAreTurns(counters, calls, names, group, use, j);
    forall i | 0 <= i < |calls| && TurnsOf(calls)[i].key == key ensures TurnsOf(calls)[i].count == n {
      SubsetSeparate(names, calls[i].group, group);
      KeysApart(calls[i].group, calls[i].use, group, use);
    }
    CounterIsExact(counters, TurnsOf(calls), key, n, k, j);
  }

  ghost predicate SharesExact(names: set<string>) {
    forall counters: map<string, nat>, calls: seq<Call>, group: string, use: Use, n: nat, k: nat, j: nat ::
      CallsAmong(calls, names) && group in names && n > 1 && j < n && FullTurns(calls, group, use, n, k) ==>
        CallHits(counters, calls, group, use, j) == k
  }

  /** The names decide it: round-robin shares are exact on every run if and only if no two counters of the
      groups are filed under one key. */
  lemma SharesExactIffSeparate(names: set<string>)
    ensures SharesExact(names) <==> SeparateNames(names)
  {
    if SeparateNames(names) {
      forall counters: map<string, nat>, calls: seq<Call>, group: string, use: Use, n: nat, k: nat, j: nat |
        CallsAmong(calls, names) && group in names && n > 1 && j < n && FullTurns(calls, group, use, n, k)
        ensures CallHits(counters, calls, group, use, j) == k
      {
        RoundRobinIsExact(counters, calls, names, group, use, n, k, j);
      }
    } else {
      var g, h :| g in names && h in names && (g == CounterKey(h, Direct) || g == CounterKey(h, Relay));
      SharedCounterSkews(g, h, if g == CounterKey(h, Direct) then Direct else Relay);
    }
  }

  /** Orderings of one group alternating with single picks of the other always get the first of two targets. */
  lemma SharedCounterSkews(g: string, h: string, use: Use)
    requires g == CounterKey(h, use) && use != Single
    ensures var calls := [Call(h, use, 2), Call(g, Single, 2), Call(h, use, 2)];
            CallsAmong(calls, {g, h}) && FullTurns(calls, h, use, 2, 1) && CallHits(map[], calls, h, use, 0) == 2
  {
    hide CounterKey, RoundRobinIndex, RoundRobinAfter;
    var a, b := Call(h, use, 2), Call(g, Single, 2);
    OneCallMore(map[], [], a, h, use, 0);
    OneCallMore(map[], [a], b, h, use, 0);
    OneCallMore(map[], [a, b], a, h, use, 0);
    assert [] + [a] == [a] && [a] + [b] == [a, b] && [a, b] + [a] == [a, b, a];
    assert CounterKey(g, Single) == g by { SingleKey(g); }
    SharedCounter(g);
  }

  lemma SingleKey(g: string)
    ensures CounterKey(g, Single) == g
  {}

  /** The shared counter stands at zero, one and two before the three calls. */
  lemma SharedCounter(key: string)
    ensures RoundRobinIndex(map[], key, 2) == 0
    ensures var one := RoundRobinAfter(map[], key, 2);
            RoundRobinIndex(RoundRobinAfter(one, key, 2), key, 2) == 0
  {}

  lemma OneCallMore(counters: map<string, nat>, calls: seq<Call>, c: Call, group: string, use: Use, j: nat)
    ensures var key := CounterKey(c.group, c.use);
            var before := CountersAfter(counters, TurnsOf(calls));
            && CountersAfter(counters, TurnsOf(calls + [c])) == RoundRobinAfter(before, key, c.count)
            && CallsOf(calls + [c], group, use) == CallsOf(calls, group, use)
                 + (if c.group == group && c.use == use then 1 else 0)
            && CallHits(counters, calls + [c], group, use, j) == CallHits(counters, calls, group, use, j)
                 + (if c.group == group && c.use == use && RoundRobinIndex(before, key, c.count) == j then 1 else 0)
  {
    assert (calls + [c])[..|calls|] == calls;
    assert TurnsOf(calls + [c])[..|calls|] == TurnsOf(calls);
  }

  // From the methods' counters to shares ---------------------------------------------------------------------

  /** The counters before each of a sequence of calls, and after the last, as the methods move them. */
  ghost predicate Ticked(calls: seq<Call>, cs: seq<map<string, nat>>) {
    && |cs| == |calls| + 1
    && forall i :: 0 <= i < |calls| ==>
         Ticks(cs[i], cs[i + 1], CounterKey(calls[i].group, calls[i].use), calls[i].count > 1)
  }

  lemma {:induction false} CountersFollow(calls: seq<Call>, cs: seq<map<string, nat>>, i: nat, key: string)
    requires Ticked(calls, cs) && i <= |calls|
    ensures CounterAt(cs[i], key) == CounterAt(CountersAfter(cs[0], TurnsOf(calls[..i])), key)
  {
    hide CounterAt, CountersAfter, CounterKey, Ticks, RoundRobinAfter;
    if i == 0 {
      NoTurns(cs[0], calls[..0]);
    } else {
      var c := calls[i - 1];
      CountersFollow(calls, cs, i - 1, key);
      assert calls[..i] == calls[..i - 1] + [c];
      OneCallMore(cs[0], calls[..i - 1], c, c.group, c.use, 0);
      assert Ticks(cs[i - 1], cs[i], CounterKey(c.group, c.use), c.count > 1);
      TicksAreAfter(cs[i - 1], cs[i], CountersAfter(cs[0], TurnsOf(calls[..i - 1])), CounterKey(c.group, c.use),
                    c.count, key);
    }
  }

  lemma NoTurns(counters: map<string, nat>, calls: seq<Call>)
    requires calls == []
    ensures CountersAfter(counters, TurnsOf(calls)) == counters
  {}

  lemma TicksAreAfter(before: map<string, nat>, after: map<string, nat>, same: map<string, nat>, moved: string,
                      count: nat, key: string)
    requires Ticks(before, after, moved, count > 1) && CounterAt(before, key) == CounterAt(same, key)
    ensures CounterAt(after, key) == CounterAt(RoundRobinAfter(same, moved, count), key)
  {}

  ghost predicate CallOn(c: Call, group: string, use: Use) { c.group == group && c.use == use }

  ghost function HitSet(calls: seq<Call>, cs: seq<map<string, nat>>, group: string, use: Use,
                        n: nat, j: nat, m: nat): set<nat>
    requires n > 0 && m <= |calls| < |cs|
  {
    set i: nat | i < m && IsHit(calls, cs, group, use, n, j, i)
  }

  ghost predicate IsHit(calls: seq<Call>, cs: seq<map<string, nat>>, group: string, use: Use, n: nat, j: nat, i: nat)
    requires n > 0 && i < |calls| < |cs|
  {
    CallOn(calls[i], group, use) && CounterAt(cs[i], CounterKey(group, use)) % n == j
  }

  lemma {:induction false} HitsAreCounted(calls: seq<Call>, cs: seq<map<string, nat>>, group: string, use: Use,
                                          n: nat, j: nat, m: nat)
    requires Ticked(calls, cs) && n > 1 && m <= |calls|
    requires forall i :: 0 <= i < |calls| && CallOn(calls[i], group, use) ==> calls[i].count == n
    ensures |HitSet(calls, cs, group, use, n, j, m)| == CallHits(cs[0], calls[..m], group, use, j)
  {
    hide CounterKey, CountersAfter, Ticks, CallHits, CallsOf, TurnsOf, HitSet, CounterAt;
    if m == 0 {
      NoHitsYet(calls, cs, group, use, n, j);
      assert calls[..0] == [];
    } else {
      HitsAreCounted(calls, cs, group, use, n, j, m - 1);
      CountersFollow(calls, cs, m - 1, CounterKey(group, use));
      assert calls[..m] == calls[..m - 1] + [calls[m - 1]];
      OneCallMore(cs[0], calls[..m - 1], calls[m - 1], group, use, j);
      OneHitMore(calls, cs, group, use, n, j, m - 1);
    }
  }

  lemma NoHitsYet(calls: seq<Call>, cs: seq<map<string, nat>>, group: string, use: Use, n: nat, j: nat)
    requires n > 0 && |calls| < |cs|
    ensures |HitSet(calls, cs, group, use, n, j, 0)| == 0 == CallHits(cs[0], [], group, use, j)
  {
    assert HitSet(calls, cs, group, use, n, j, 0) == {};
  }

  lemma OneHitMore(calls: seq<Call>, cs: seq<map<string, nat>>, group: string, use: Use, n: nat, j: nat, m: nat)
    requires n > 0 && m < |calls| < |cs|
    ensures |HitSet(calls, cs, group, use, n, j, m + 1)| == |HitSet(calls, cs, group, use, n, j, m)|
              + (if IsHit(calls, cs, group, use, n, j, m) then 1 else 0)
  {
    hide IsHit;
    var before, after := HitSet(calls, cs, group, use, n, j, m), HitSet(calls, cs, group, use, n, j, m + 1);
    if IsHit(calls, cs, group, use, n, j, m) {
      assert after == before + {m};
    } else {
      assert after == before;
    }
  }

  /** Which calls got the address. */
  ghost function Got(calls: seq<Call>, got: seq<string>, group: string, use: Use, addr: string): set<nat>
    requires |got| == |calls|
  {
    set i: nat | i < |calls| && CallOn(calls[i], group, use) && got[i] == addr
  }

  ghost predicate DistinctAddresses(targets: seq<BackendTarget>) {
    forall i, j :: 0 <= i < j < |targets| ==> targets[i].addr != targets[j].addr
  }

  /** Over any run of calls, of any groups with separate names, that moves the counters as the methods do and
      gets, for one use of one group, the target its counter points at: k times n calls get each of the n
      targets exactly k times. */
  lemma SharesAreEven(calls: seq<Call>, cs: seq<map<string, nat>>, got: seq<string>, names: set<string>,
                      group: string, use: Use, targets: seq<BackendTarget>, k: nat, j: nat)
    requires Ticked(calls, cs) && SeparateNames(names) && CallsAmong(calls, names) && group in names
    requires |targets| > 1 && DistinctAddresses(targets) && j < |targets| && FullTurns(calls, group, use, |targets|, k)
    requires |got| == |calls| && forall i :: 0 <= i < |calls| && CallOn(calls[i], group, use) ==>
               got[i] == targets[CounterAt(cs[i], CounterKey(group, use)) % |targets|].addr
    ensures |Got(calls, got, group, use, targets[j].addr)| == k
  {
    hide Ticks, SeparateNames, CounterKey, CallHits;
    HitsAreCounted(calls, cs, group, use, |targets|, j, |calls|);
    assert calls[..|calls|] == calls;
    RoundRobinIsExact(cs[0], calls, names, group, use, |targets|, k, j);
    assert Got(calls, got, group, use, targets[j].addr) == HitSet(calls, cs, group, use, |targets|, j, |calls|);
  }

  ghost function ResidueSet(c: nat, m: nat, n: nat, j: nat): set<nat>
    requires n > 0
  {
    set i: nat | i < m && Leaves(c, i, n, j)
  }

  ghost predicate Leaves(c: nat, i: nat, n: nat, j: nat)
    requires n > 0
  {
    (c + i) % n == j
  }

  lemma {:induction false} ResiduesAreCounted(c: nat, m: nat, n: nat, j: nat)
    requires n > 0
    ensures |ResidueSet(c, m, n, j)| == Residues(c, m, n, j)
  {
    hide Leaves;
    if m == 0 {
      assert ResidueSet(c, 0, n, j) == {};
    } else {
      ResiduesAreCounted(c, m - 1, n, j);
      var before, after := ResidueSet(c, m - 1, n, j), ResidueSet(c, m, n, j);
      LeavesMeans(c, m - 1, n, j);
      if Leaves(c, m - 1, n, j) {
        assert after == before + {m - 1};
      } else {
        assert after == before;
      }
    }
  }

  lemma LeavesMeans(c: nat, i: nat, n: nat, j: nat)
    requires n > 0
    ensures Leaves(c, i, n, j) <==> (c + i) % n == j
  {}

  /** Calls that get the targets in turn, from any start: of k times n in a row exactly k get each of them. */
  lemma ConsecutiveShares(targets: seq<BackendTarget>, got: seq<string>, c: nat, k: nat, j: nat)
    requires |targets| > 1 && DistinctAddresses(targets) && j < |targets| && |got| == k * |targets|
    requires forall i: nat :: i < |got| ==> got[i] == targets[(c + i) % |targets|].addr
    ensures |set i: nat | i < |got| && got[i] == targets[j].addr| == k
  {
    var n := |targets|;
    ResiduesAreCounted(c, |got|, n, j);
    ResiduesPerTurns(c, k, n, j);
    forall i: nat | i < |got| ensures got[i] == targets[j].addr <==> Leaves(c, i, n, j) {
      LeavesMeans(c, i, n, j);
    }
    assert (set i: nat | i < |got| && got[i] == targets[j].addr) == ResidueSet(c, |got|, n, j);
  }

  // Weighted choice --------------------------------------------------------------------------------------------

  function Total(targets: seq<BackendTarget>): int {
    if targets == [] then 0 else Total(targets[..|targets| - 1]) + targets[|targets| - 1].weight
  }

  ghost predicate Weighted(targets: seq<BackendTarget>) {
    forall i :: 0 <= i < |targets| ==> targets[i].weight >= 1
  }

  /** `i` is the target a draw falls on: the draw lies in the target's own stretch of weights. */
  ghost predicate FallsOn(targets: seq<BackendTarget>, draw: int, i: int) {
    0 <= i < |targets| && Total(targets[..i]) <= draw < Total(targets[..i + 1])
  }

  lemma {:induction false} TotalsRise(targets: seq<BackendTarget>, i: nat, j: nat)
    requires Weighted(targets) && i <= j <= |targets|
    ensures 0 <= Total(targets[..i]) && Total(targets[..i]) + (j - i) <= Total(targets[..j])
    decreases j
  {
    if j > 0 {
      assert targets[..j][..j - 1] == targets[..j - 1];
      if i < j {
        TotalsRise(targets, i, j - 1);
      } else {
        TotalsRise(targets, j - 1, j - 1);
      }
    }
  }

  /** The draw is below the total, as rand.Intn promises. The loop always finds its target: the
      return after the loop that the program keeps as a last resort is never taken. */
  method WeightedRandomTarget(targets: seq<BackendTarget>, draw: nat) returns (r: Option<string>)
    requires targets != []
    requires Total(targets) > 0 ==> draw < Total(targets)
    ensures |targets| == 1 ==> r == Some(targets[0].addr)
    ensures |targets| > 1 && Total(targets) <= 0 ==> r.None?
    ensures |targets| > 1 && Total(targets) > 0 ==> exists i :: FallsOn(targets, draw, i) && r == Some(targets[i].addr)
  {
    r := None;
    if |targets| == 1 {
      return Some(targets[0].addr);
    }
    assert targets[..|targets|] == targets;
    var total := 0;
    for i := 0 to |targets|
      invariant total == Total(targets[..i])
    {
      assert targets[..i + 1][..i] == targets[..i];
      total := total + targets[i].weight;
    }
    if total <= 0 {
      return;
    }
    var acc := 0;
    for i := 0 to |targets|
      invariant acc == Total(targets[..i]) <= draw
    {
      assert targets[..i + 1][..i] == targets[..i];
      acc := acc + targets[i].weight;
      if draw < acc {
        assert FallsOn(targets, draw, i);
        return Some(targets[i].addr);
      }
    }
    assert false;
  }

  predicate Within(d: int, a: int, b: int) { a <= d < b }

  lemma {:induction false} RangeSize(a: int, b: int)
    requires a <= b
    ensures |set d: int | a <= d < b && Within(d, a, b)| == b - a
    decreases b - a
  {
    var s := set d: int | a <= d < b && Within(d, a, b);
    if a < b {
      var c := b - 1;
      RangeSize(a, c);
      var t := set d: int | a <= d < c && Within(d, a, c);
      assert forall d :: d in s <==> Within(d, a, b);
      assert forall d :: d in t <==> Within(d, a, c);
      assert s == t + {c};
    } else {
      assert s == {};
    }
  }

  /** Of the draws below the total, exactly weight-many fall on each target, and each draw falls on
      one target only. */
  lemma {:induction false} WeightedSharesAreExact(targets: seq<BackendTarget>, i: nat)
    requires Weighted(targets) && i < |targets|
    ensures |set d | 0 <= d < Total(targets) && FallsOn(targets, d, i)| == targets[i].weight
    ensures forall d, j :: FallsOn(targets, d, i) && FallsOn(targets, d, j) ==> j == i
  {
    var a, b := Total(targets[..i]), Total(targets[..i + 1]);
    assert targets[..i + 1][..i] == targets[..i] && targets[..|targets|] == targets;
    TotalsRise(targets, 0, i);
    TotalsRise(targets, i + 1, |targets|);
    assert (set d | 0 <= d < Total(targets) && FallsOn(targets, d, i)) == (set d: int | a <= d < b && Within(d, a, b));
    RangeSize(a, b);
    forall d, j | FallsOn(targets, d, i) && FallsOn(targets, d, j) ensures j == i {
      if j < i { TotalsRise(targets, j + 1, i); }
      if i < j { TotalsRise(targets, i + 1, j); }
    }
  }
}
