/** A mesh of nodes that forward to each other: every chain ends, and the work it causes is bounded. */
module RelayChains {
  import opened Failover

  datatype Endpoint = MeshNode(name: string) | External

  /** An arbitrary mesh at work. A visit is named by the attempt numbers that led to it, so a node may
      choose other candidates and external upstreams may answer differently every time. `candidates`
      has the attempts left after the budget; external statuses are whatever they are. */
  datatype Mesh = Mesh(
    maxHops: string -> int,
    candidates: (string, seq<nat>) -> seq<Endpoint>,
    external: seq<nat> -> int)

  ghost predicate HopsUpTo(mesh: Mesh, limit: nat) {
    forall n :: EffectiveMaxHops(mesh.maxHops(n)) <= limit
  }

  ghost predicate AttemptsUpTo(mesh: Mesh, limit: nat) {
    forall n, path :: |mesh.candidates(n, path)| <= limit
  }

  /** An upstream request: the attempt numbers that led to it and the hop header it carries. */
  datatype Request = Request(path: seq<nat>, hops: nat)

  datatype Outcome = Outcome(status: int, requests: seq<Request>)

  /** A node serves the request reached by `path` whose hop header reads `hops`: over its limit it answers
      508 and asks nobody, otherwise it tries its candidates, each with the header one higher. That the
      header passes every limit in the end is why this is a function. */
  ghost function Serve(mesh: Mesh, limit: nat, node: string, path: seq<nat>, hops: nat): Outcome
    requires HopsUpTo(mesh, limit) && hops <= limit + 1
    decreases limit + 1 - hops, 1, 0
  {
    if hops > EffectiveMaxHops(mesh.maxHops(node)) then Outcome(508, [])
    else if mesh.candidates(node, path) == [] then Outcome(502, [])
    else Try(mesh, limit, node, path, hops, 0)
  }

  /** The retry loop from candidate `i` on. */
  ghost function Try(mesh: Mesh, limit: nat, node: string, path: seq<nat>, hops: nat, i: nat): Outcome
    requires HopsUpTo(mesh, limit) && hops <= limit && i < |mesh.candidates(node, path)|
    decreases limit + 1 - hops, 0, |mesh.candidates(node, path)| - i
  {
    var c := mesh.candidates(node, path);
    var here := match c[i]
      case MeshNode(next) => Serve(mesh, limit, next, path + [i], hops + 1)
      case External => Outcome(mesh.external(path + [i]), []);
    var made := [Request(path + [i], hops + 1)] + here.requests;
    if !ShouldRetryStatus(here.status) || i == |c| - 1 then Outcome(here.status, made)
    else
      var rest := Try(mesh, limit, node, path, hops, i + 1);
      Outcome(rest.status, made + rest.requests)
  }

  /** a + a^2 + ... + a^k. */
  function Geometric(a: nat, k: nat): nat {
    if k == 0 then 0 else a * (1 + Geometric(a, k - 1))
  }

  lemma TimesMonotone(a: nat, b: nat, x: nat)
    requires a <= b
    ensures a * x <= b * x
  {
    assert b * x == a * x + (b - a) * x;
  }

  lemma {:induction false} TryBounded(mesh: Mesh, limit: nat, node: string, path: seq<nat>, hops: nat, i: nat, a: nat)
    requires HopsUpTo(mesh, limit) && AttemptsUpTo(mesh, a)
    requires hops <= limit && i < |mesh.candidates(node, path)|
    ensures |Try(mesh, limit, node, path, hops, i).requests| <=
            (|mesh.candidates(node, path)| - i) * (1 + Geometric(a, limit - hops))
    decreases limit + 1 - hops, 0, |mesh.candidates(node, path)| - i
  {
    var c := mesh.candidates(node, path);
    var per := 1 + Geometric(a, limit - hops);
    if c[i].MeshNode? {
      ServeBounded(mesh, limit, c[i].name, path + [i], hops + 1, a);
    }
    if i < |c| - 1 {
      TryBounded(mesh, limit, node, path, hops, i + 1, a);
      OneMore(|c| - (i + 1), per);
    }
    TimesMonotone(1, |c| - i, per);
  }

  lemma {:induction false} ServeBounded(mesh: Mesh, limit: nat, node: string, path: seq<nat>, hops: nat, a: nat)
    requires HopsUpTo(mesh, limit) && AttemptsUpTo(mesh, a) && hops <= limit + 1
    ensures |Serve(mesh, limit, node, path, hops).requests| <= Geometric(a, limit + 1 - hops)
    decreases limit + 1 - hops, 1, 0
  {
    var c := mesh.candidates(node, path);
    if hops <= EffectiveMaxHops(mesh.maxHops(node)) && c != [] {
      TryBounded(mesh, limit, node, path, hops, 0, a);
      TimesMonotone(|c|, a, 1 + Geometric(a, limit - hops));
    }
  }

  /** In any topology, cycles included, a request that enters without the header causes at most
      a + a^2 + ... + a^(m+1) upstream requests. */
  lemma RelayWorkIsBounded(mesh: Mesh, m: nat, node: string, a: nat)
    requires HopsUpTo(mesh, m) && AttemptsUpTo(mesh, a)
    ensures |Serve(mesh, m, node, [], 0).requests| <= Geometric(a, m + 1)
  {
    ServeBounded(mesh, m, node, [], 0, a);
  }

  // How far forwards go ------------------------------------------------------------------------------------------

  /** Requests made below a visit: their path extends the visit's, the header counts the extension, and no
      header is above the limit by more than one. */
  ghost predicate Below(limit: nat, path: seq<nat>, hops: nat, requests: seq<Request>) {
    forall r :: r in requests ==> path < r.path && r.hops - hops == |r.path| - |path| && r.hops <= limit + 1
  }

  lemma {:induction false} TryGoesBelow(mesh: Mesh, limit: nat, node: string, path: seq<nat>, hops: nat, i: nat)
    requires HopsUpTo(mesh, limit) && hops <= limit && i < |mesh.candidates(node, path)|
    ensures Below(limit, path, hops, Try(mesh, limit, node, path, hops, i).requests)
    decreases limit + 1 - hops, 0, |mesh.candidates(node, path)| - i
  {
    var c := mesh.candidates(node, path);
    if c[i].MeshNode? {
      ServeGoesBelow(mesh, limit, c[i].name, path + [i], hops + 1);
      var below := Serve(mesh, limit, c[i].name, path + [i], hops + 1).requests;
      forall r | r in below ensures path < r.path { assert path + [i] < r.path; }
    }
    if i < |c| - 1 {
      TryGoesBelow(mesh, limit, node, path, hops, i + 1);
    }
  }

  lemma {:induction false} ServeGoesBelow(mesh: Mesh, limit: nat, node: string, path: seq<nat>, hops: nat)
    requires HopsUpTo(mesh, limit) && hops <= limit + 1
    ensures Below(limit, path, hops, Serve(mesh, limit, node, path, hops).requests)
    decreases limit + 1 - hops, 1, 0
  {
    if hops <= EffectiveMaxHops(mesh.maxHops(node)) && mesh.candidates(node, path) != [] {
      TryGoesBelow(mesh, limit, node, path, hops, 0);
    }
  }

  /** Whatever the topology: every request made on behalf of one that entered without the header carries
      as its header the number of forwards that led to it, and that is at most m + 1. */
  lemma ChainsAreShort(mesh: Mesh, m: nat, node: string)
    requires HopsUpTo(mesh, m)
    ensures forall r :: r in Serve(mesh, m, node, [], 0).requests ==> r.hops == |r.path| <= m + 1
  {
    ServeGoesBelow(mesh, m, node, [], 0);
  }

  // Both bounds are reached --------------------------------------------------------------------------------------

  /** One node that lists itself `a` times, with hop limit `m`. */
  function Loop(a: nat, m: nat): Mesh {
    Mesh(n => m, (n, path) => seq(a, i => MeshNode(n)), path => 200)
  }

  lemma {:induction false} LoopTries(a: nat, m: nat, node: string, path: seq<nat>, hops: nat, i: nat)
    requires m >= 1 && i < a && hops <= m && HopsUpTo(Loop(a, m), m)
    ensures var o := Try(Loop(a, m), m, node, path, hops, i);
            o.status == 508 && |o.requests| == (a - i) * (1 + Geometric(a, m - hops))
    decreases m + 1 - hops, 0, a - i
  {
    var per := 1 + Geometric(a, m - hops);
    LoopServes(a, m, node, path + [i], hops + 1);
    assert Loop(a, m).candidates(node, path)[i] == MeshNode(node);
    if i < a - 1 {
      LoopTries(a, m, node, path, hops, i + 1);
      OneMore(a - (i + 1), per);
    } else {
      assert a - i == 1;
    }
  }

  lemma OneMore(n: int, per: int)
    ensures (n + 1) * per == per + n * per
  {}

  lemma {:induction false} LoopServes(a: nat, m: nat, node: string, path: seq<nat>, hops: nat)
    requires m >= 1 && a >= 1 && hops <= m + 1 && HopsUpTo(Loop(a, m), m)
    ensures var o := Serve(Loop(a, m), m, node, path, hops);
            o.status == 508 && |o.requests| == Geometric(a, m + 1 - hops)
    decreases m + 1 - hops, 1, 0
  {
    if hops <= m {
      LoopTries(a, m, node, path, hops, 0);
    }
  }

  lemma {:induction false} LoopGoesDeep(a: nat, m: nat, node: string, path: seq<nat>, hops: nat) returns (r: Request)
    requires m >= 1 && a >= 1 && hops <= m && HopsUpTo(Loop(a, m), m)
    ensures r in Serve(Loop(a, m), m, node, path, hops).requests && r.hops == m + 1
    decreases m - hops
  {
    assert Loop(a, m).candidates(node, path)[0] == MeshNode(node);
    var here := Serve(Loop(a, m), m, node, path + [0], hops + 1).requests;
    var made := [Request(path + [0], hops + 1)] + here;
    assert made <= Serve(Loop(a, m), m, node, path, hops).requests;
    if hops == m {
      r := made[0];
    } else {
      r := LoopGoesDeep(a, m, node, path + [0], hops + 1);
      assert r in made;
    }
  }

  /** A node that relays to itself answers 508 at the end of every chain, each of those is retried, all
      a + a^2 + ... + a^(m+1) requests are made, and some are m + 1 forwards away. */
  lemma {:induction false} RelayBoundIsReached(a: nat, m: nat, node: string)
    requires m >= 1 && a >= 1
    ensures HopsUpTo(Loop(a, m), m) && AttemptsUpTo(Loop(a, m), a)
    ensures |Serve(Loop(a, m), m, node, [], 0).requests| == Geometric(a, m + 1)
    ensures exists r :: r in Serve(Loop(a, m), m, node, [], 0).requests && r.hops == m + 1
  {
    LoopServes(a, m, node, [], 0);
    var r := LoopGoesDeep(a, m, node, [], 0);
  }
}
