/** The route table of one listener: the plain scored scan, the host and first-byte index that
    replaces it, and when the two agree. */
module RouteIndex {
  import opened Strings
  import opened Wrappers
  import opened Sorting

  datatype ListenerKey = ListenerKey(addr: string, port: int)

  datatype RouteBinding = RouteBinding(
    service: string, hosts: seq<string>, prefix: string, dest: string, weight: int)

  datatype MatchResult = MatchResult(listener: ListenerKey, service: string, dest: string, prefix: string)

  datatype PathMatcher = PathMatcher(root: seq<RouteBinding>, byFirst: map<char, seq<RouteBinding>>)

  datatype ListenerMatcher = ListenerMatcher(exact: map<string, PathMatcher>, wildcard: PathMatcher)

  const NO_ROUTES := PathMatcher([], map[])

  // Best-so-far selection ------------------------------------------------------------------------

  /** The first element of highest non-negative score: what the best-so-far loops keep. */
  function Pick<T>(s: seq<T>, score: T -> int): Option<T> {
    if s == [] then None
    else
      var best, x := Pick(s[..|s| - 1], score), s[|s| - 1];
      if score(x) > (if best.Some? then score(best.value) else -1) then Some(x) else best
  }

  ghost predicate FirstBest<T>(s: seq<T>, score: T -> int, i: int) {
    && 0 <= i < |s| && score(s[i]) >= 0
    && (forall j :: 0 <= j < |s| ==> score(s[j]) <= score(s[i]))
    && (forall j :: 0 <= j < i ==> score(s[j]) < score(s[i]))
  }

  lemma {:induction false} PickIsFirstBest<T>(s: seq<T>, score: T -> int)
    ensures Pick(s, score).None? <==> forall j :: 0 <= j < |s| ==> score(s[j]) < 0
    ensures Pick(s, score).Some? ==> exists i :: FirstBest(s, score, i) && s[i] == Pick(s, score).value
  {
    if s != [] {
      var t, n := s[..|s| - 1], |s| - 1;
      PickIsFirstBest(t, score);
      assert forall j :: 0 <= j < n ==> t[j] == s[j];
      if score(s[n]) > (if Pick(t, score).Some? then score(Pick(t, score).value) else -1) {
        if Pick(t, score).Some? {
          var i :| FirstBest(t, score, i) && t[i] == Pick(t, score).value;
          assert forall j :: 0 <= j < n ==> score(s[j]) <= score(t[i]);
        }
        assert FirstBest(s, score, n);
      } else if Pick(t, score).Some? {
        var i :| FirstBest(t, score, i) && t[i] == Pick(t, score).value;
        assert FirstBest(s, score, i);
      }
    }
  }

  lemma PickFrom<T>(s: seq<T>, score: T -> int, i: int)
    requires FirstBest(s, score, i)
    ensures Pick(s, score) == Some(s[i])
  {
    PickIsFirstBest(s, score);
    var k :| FirstBest(s, score, k) && s[k] == Pick(s, score).value;
    assert k == i;
  }

  /** A list scanned after another: it only takes over with a strictly higher score. */
  function Better<T>(first: Option<T>, second: Option<T>, score: T -> int): Option<T> {
    if second.None? then first
    else if first.None? then second
    else if score(second.value) > score(first.value) then second else first
  }

  lemma {:induction false} PickConcat<T>(a: seq<T>, b: seq<T>, score: T -> int)
    ensures Pick(a + b, score) == Better(Pick(a, score), Pick(b, score), score)
  {
    PickIsFirstBest(a, score);
    PickIsFirstBest(b, score);
    if b == [] {
      assert a + b == a;
    } else {
      var b', x := b[..|b| - 1], b[|b| - 1];
      assert (a + b)[..|a + b| - 1] == a + b' && (a + b)[|a + b| - 1] == x;
      PickConcat(a, b', score);
      PickIsFirstBest(b', score);
    }
  }

  // Hosts and paths ------------------------------------------------------------------------------

  /** The byte after the leading slash; the zero byte stands for "none". */
  function PathFirstByte(path: string): char {
    if |path| < 2 || path[0] != '/' then '\0' else path[1]
  }

  function NormalizeHost(text: Text, host: string): string { UpToColon(text.Fold(host)) }

  function UpToColon(s: string): string {
    if s == "" || s[0] == ':' then "" else [s[0]] + UpToColon(s[1..])
  }

  predicate Names(text: Text, hosts: seq<string>, h: string) {
    exists i :: 0 <= i < |hosts| && text.Fold(hosts[i]) == h
  }

  lemma NamesOneMore(text: Text, hosts: seq<string>, j: nat, h: string)
    requires j < |hosts|
    ensures Names(text, hosts[..j + 1], h) <==> Names(text, hosts[..j], h) || text.Fold(hosts[j]) == h
  {
    if Names(text, hosts[..j], h) {
      var i :| 0 <= i < j && text.Fold(hosts[..j][i]) == h;
      assert text.Fold(hosts[..j + 1][i]) == h;
    }
    if text.Fold(hosts[j]) == h {
      assert text.Fold(hosts[..j + 1][j]) == h;
    }
    if Names(text, hosts[..j + 1], h) {
      var i :| 0 <= i < j + 1 && text.Fold(hosts[..j + 1][i]) == h;
      assert i < j ==> text.Fold(hosts[..j][i]) == h;
    }
  }

  /** 2 for a host the route names, 1 for a route open to all hosts, 0 for no match. */
  function HostScore(text: Text, hosts: seq<string>, host: string): int {
    if Names(text, hosts, host) then 2 else if Names(text, hosts, "*") then 1 else 0
  }

  function Score(hostScore: int, r: RouteBinding): int {
    hostScore * 100000 + |r.prefix| * 100 + r.weight
  }

  function PathScore(path: string, hostScore: int): RouteBinding -> int {
    (r: RouteBinding) => if r.prefix <= path then Score(hostScore, r) else -1
  }

  function ScanScore(text: Text, host: string, path: string): RouteBinding -> int {
    (r: RouteBinding) =>
      if HostScore(text, r.hosts, host) != 0 && r.prefix <= path then Score(HostScore(text, r.hosts, host), r) else -1
  }

  /** The plain scan over the whole table. */
  function ScanMatch(text: Text, routes: seq<RouteBinding>, host: string, path: string): Option<RouteBinding> {
    Pick(routes, ScanScore(text, host, path))
  }

  // The index ------------------------------------------------------------------------------------

  datatype HostClass = Exact(host: string) | Wildcard

  function At(m: map<char, seq<RouteBinding>>, k: char): seq<RouteBinding> { if k in m then m[k] else [] }

  function MatcherOf(m: ListenerMatcher, cls: HostClass): PathMatcher {
    match cls
    case Exact(h) => if h in m.exact then m.exact[h] else NO_ROUTES
    case Wildcard => m.wildcard
  }

  function Content(pm: PathMatcher, k: char): seq<RouteBinding> {
    if k == '\0' then pm.root else At(pm.byFirst, k)
  }

  /** How often the index files a route under a host class: once per spelling of an exact host, once
      for all wildcards together. Blank hosts and "*" are never filed as exact hosts. */
  function Filed(text: Text, hosts: seq<string>, cls: HostClass): nat {
    match cls
    case Exact(h) =>
      if hosts == [] || h == "" || h == "*" then 0
      else Filed(text, hosts[..|hosts| - 1], cls) + (if text.Fold(hosts[|hosts| - 1]) == h then 1 else 0)
    case Wildcard => if Names(text, hosts, "*") then 1 else 0
  }

  function Repeat<T>(x: T, n: nat): seq<T> { if n == 0 then [] else Repeat(x, n - 1) + [x] }

  function FiledAt(text: Text, r: RouteBinding, cls: HostClass, k: char): nat {
    if PathFirstByte(r.prefix) == k then Filed(text, r.hosts, cls) else 0
  }

  /** What the index holds under a host class and first byte: the routes filed there, in table order. */
  function Bucket(text: Text, routes: seq<RouteBinding>, cls: HostClass, k: char): seq<RouteBinding> {
    if routes == [] then []
    else
      var r := routes[|routes| - 1];
      Bucket(text, routes[..|routes| - 1], cls, k) + Repeat(r, FiledAt(text, r, cls, k))
  }

  ghost predicate Indexes(text: Text, routes: seq<RouteBinding>, m: ListenerMatcher) {
    forall cls: HostClass, k: char :: Content(MatcherOf(m, cls), k) == Bucket(text, routes, cls, k)
  }

  function MatchIn(pm: PathMatcher, path: string, hostScore: int): Option<RouteBinding> {
    var k := PathFirstByte(path);
    Pick((if k != '\0' then At(pm.byFirst, k) else []) + pm.root, PathScore(path, hostScore))
  }

  /** The lookup through the index: routes naming the host first, open routes only after them. */
  function IndexMatch(m: ListenerMatcher, host: string, path: string): Option<RouteBinding> {
    OrElse(MatchIn(MatcherOf(m, Exact(host)), path, 2), MatchIn(m.wildcard, path, 1))
  }

  // The program ----------------------------------------------------------------------------------

  function Render(listener: ListenerKey, r: Option<RouteBinding>): Option<MatchResult> {
    if r.None? then None
    else Some(MatchResult(listener, r.value.service, r.value.dest, r.value.prefix))
  }

  method HostMatchScore(text: Text, routeHosts: seq<string>, host: string) returns (score: int, matched: bool)
    ensures matched <==> HostScore(text, routeHosts, host) != 0
    ensures score == HostScore(text, routeHosts, host)
  {
    var best := -1;
    for i := 0 to |routeHosts|
      invariant best == -1 || best == 1 || best == 2
      invariant best == 2 <==> exists j :: 0 <= j < i && text.Fold(routeHosts[j]) == host
      invariant best == -1 ==> forall j :: 0 <= j < i ==> text.Fold(routeHosts[j]) != "*"
      invariant best == 1 ==> exists j :: 0 <= j < i && text.Fold(routeHosts[j]) == "*"
    {
      var trimmed := text.Fold(routeHosts[i]);
      if trimmed == host {
        if best < 2 { best := 2; }
      } else if trimmed == "*" {
        if best < 1 { best := 1; }
      }
    }
    if best < 0 {
      return 0, false;
    }
    return best, true;
  }

  method BestRouteMatchSeed(routes: seq<RouteBinding>, path: string, hostScore: int,
                            bestScore: int, best: Option<RouteBinding>)
    returns (newScore: int, newBest: Option<RouteBinding>)
    requires bestScore >= -1 && (best.None? <==> bestScore == -1)
    requires best.Some? ==> PathScore(path, hostScore)(best.value) == bestScore
    ensures newBest == Better(best, Pick(routes, PathScore(path, hostScore)), PathScore(path, hostScore))
    ensures newScore == if newBest.Some? then PathScore(path, hostScore)(newBest.value) else -1
    ensures newScore >= -1
  {
    newScore, newBest := bestScore, best;
    ghost var f := PathScore(path, hostScore);
    for i := 0 to |routes|
      invariant newBest == Better(best, Pick(routes[..i], f), f)
      invariant newScore == (if newBest.Some? then f(newBest.value) else -1) && newScore >= -1
      invariant newBest.None? <==> newScore == -1
    {
      assert routes[..i + 1][..i] == routes[..i];
      PickIsFirstBest(routes[..i], f);
      PickIsFirstBest(routes[..i + 1], f);
      if routes[i].prefix <= path {
        var score := hostScore * 100000 + |routes[i].prefix| * 100 + routes[i].weight;
        if score > newScore {
          newScore, newBest := score, Some(routes[i]);
        }
      }
    }
    assert routes[..|routes|] == routes;
  }

  method MatchPathMatcher(listener: ListenerKey, pm: PathMatcher, path: string, hostScore: int)
    returns (r: Option<MatchResult>)
    ensures r == Render(listener, MatchIn(pm, path, hostScore))
  {
    var bestScore, best := -1, None;
    var k := PathFirstByte(path);
    ghost var f := PathScore(path, hostScore);
    ghost var front := if k != '\0' then At(pm.byFirst, k) else [];
    if k != '\0' {
      bestScore, best := BestRouteMatchSeed(At(pm.byFirst, k), path, hostScore, bestScore, best);
    }
    PickIsFirstBest(front, f);
    assert best == Pick(front, f);
    bestScore, best := BestRouteMatchSeed(pm.root, path, hostScore, bestScore, best);
    PickConcat(front, pm.root, f);
    PickIsFirstBest(front + pm.root, f);
    if bestScore < 0 {
      return None;
    }
    r := Some(MatchResult(listener, best.value.service, best.value.dest, best.value.prefix));
  }

  method ScanRoutes(text: Text, listener: ListenerKey, routes: seq<RouteBinding>, host: string, path: string)
    returns (r: Option<MatchResult>)
    ensures r == Render(listener, ScanMatch(text, routes, host, path))
  {
    var bestScore, best := -1, None;
    ghost var f := ScanScore(text, host, path);
    for i := 0 to |routes|
      invariant best == Pick(routes[..i], f)
      invariant bestScore == if best.Some? then f(best.value) else -1
    {
      assert routes[..i + 1][..i] == routes[..i];
      var hostScore, matched := HostMatchScore(text, routes[i].hosts, host);
      if matched && routes[i].prefix <= path {
        var score := hostScore * 100000 + |routes[i].prefix| * 100 + routes[i].weight;
        if score > bestScore {
          bestScore, best := score, Some(routes[i]);
        }
      }
    }
    assert routes[..|routes|] == routes;
    PickIsFirstBest(routes, f);
    if bestScore < 0 {
      return None;
    }
    r := Some(MatchResult(listener, best.value.service, best.value.dest, best.value.prefix));
  }

  function File(pm: PathMatcher, k: char, r: RouteBinding): PathMatcher {
    if k == '\0' then pm.(root := pm.root + [r])
    else pm.(byFirst := pm.byFirst[k := At(pm.byFirst, k) + [r]])
  }

  lemma FileAddsOne(pm: PathMatcher, k: char, r: RouteBinding, k': char, n: nat)
    ensures Content(File(pm, k, r), k') == Content(pm, k') + (if k == k' then [r] else [])
    ensures Repeat(r, n) + [r] == Repeat(r, n + 1)
    ensures Repeat(r, 1) == [r]
  {
    assert Repeat(r, 1) == Repeat(r, 0) + [r];
  }

  /** The exact-host part of the index after the first `j` hosts of a route were filed. */
  ghost predicate FiledSoFar(text: Text, route: RouteBinding, start: ListenerMatcher, m: ListenerMatcher,
                             hosts: seq<string>)
  {
    forall h: string, k: char :: Content(MatcherOf(m, Exact(h)), k) ==
      Content(MatcherOf(start, Exact(h)), k)
        + Repeat(route, if PathFirstByte(route.prefix) == k then Filed(text, hosts, Exact(h)) else 0)
  }

  function FileHost(text: Text, route: RouteBinding, m: ListenerMatcher, host: string): ListenerMatcher {
    var h := text.Fold(host);
    if h == "" || h == "*" then m
    else m.(exact := m.exact[h := File(MatcherOf(m, Exact(h)), PathFirstByte(route.prefix), route)])
  }

  lemma FiledOneMore(text: Text, hosts: seq<string>, host: string, x: string)
    ensures Filed(text, hosts + [host], Exact(x)) ==
            Filed(text, hosts, Exact(x)) + (if text.Fold(host) == x && x != "" && x != "*" then 1 else 0)
  {
    assert (hosts + [host])[..|hosts + [host]| - 1] == hosts;
  }

  lemma FileHostAt(text: Text, route: RouteBinding, m: ListenerMatcher, host: string, x: string, k: char,
                   base: seq<RouteBinding>, n: nat)
    requires Content(MatcherOf(m, Exact(x)), k) ==
               base + Repeat(route, if PathFirstByte(route.prefix) == k then n else 0)
    ensures var added := if text.Fold(host) == x && x != "" && x != "*" then 1 else 0;
            Content(MatcherOf(FileHost(text, route, m, host), Exact(x)), k) ==
            base + Repeat(route, if PathFirstByte(route.prefix) == k then n + added else 0)
  {
    var m' := FileHost(text, route, m, host);
    var pk := PathFirstByte(route.prefix);
    if text.Fold(host) == x && x != "" && x != "*" {
      assert MatcherOf(m', Exact(x)) == File(MatcherOf(m, Exact(x)), pk, route);
      FileAddsOne(MatcherOf(m, Exact(x)), pk, route, k, n);
      assert (base + Repeat(route, n)) + [route] == base + (Repeat(route, n) + [route]);
    } else {
      assert MatcherOf(m', Exact(x)) == MatcherOf(m, Exact(x));
    }
  }

  lemma FileHostStep(text: Text, route: RouteBinding, start: ListenerMatcher, m: ListenerMatcher,
                     hosts: seq<string>, host: string)
    requires FiledSoFar(text, route, start, m, hosts)
    ensures FiledSoFar(text, route, start, FileHost(text, route, m, host), hosts + [host])
  {
    forall x: string, k: char
      ensures Content(MatcherOf(FileHost(text, route, m, host), Exact(x)), k) ==
              Content(MatcherOf(start, Exact(x)), k)
                + Repeat(route, if PathFirstByte(route.prefix) == k then Filed(text, hosts + [host], Exact(x)) else 0)
    {
      FiledOneMore(text, hosts, host, x);
      FileHostAt(text, route, m, host, x, k, Content(MatcherOf(start, Exact(x)), k), Filed(text, hosts, Exact(x)));
    }
  }

  method FileHosts(text: Text, route: RouteBinding, start: ListenerMatcher)
    returns (m: ListenerMatcher, wildcard: bool)
    ensures wildcard == Names(text, route.hosts, "*")
    ensures m.wildcard == start.wildcard
    ensures FiledSoFar(text, route, start, m, route.hosts)
  {
    m, wildcard := start, false;
    var pathKey := PathFirstByte(route.prefix);
    for j := 0 to |route.hosts|
      invariant m.wildcard == start.wildcard
      invariant wildcard == Names(text, route.hosts[..j], "*")
      invariant FiledSoFar(text, route, start, m, route.hosts[..j])
    {
      var h := text.Fold(route.hosts[j]);
      NamesOneMore(text, route.hosts, j, "*");
      FileHostStep(text, route, start, m, route.hosts[..j], route.hosts[j]);
      assert route.hosts[..j + 1] == route.hosts[..j] + [route.hosts[j]];
      if h == "*" {
        wildcard := true;
      } else if h != "" {
        m := m.(exact := m.exact[h := File(MatcherOf(m, Exact(h)), pathKey, route)]);
      }
    }
    assert route.hosts[..|route.hosts|] == route.hosts;
  }

  method BuildListenerMatcher(text: Text, routes: seq<RouteBinding>) returns (m: ListenerMatcher)
    ensures Indexes(text, routes, m)
  {
    m := ListenerMatcher(map[], NO_ROUTES);
    for i := 0 to |routes|
      invariant Indexes(text, routes[..i], m)
    {
      var route := routes[i];
      ghost var start := m;
      var filed, wildcard := FileHosts(text, route, m);
      m := if wildcard then filed.(wildcard := File(filed.wildcard, PathFirstByte(route.prefix), route)) else filed;
      assert routes[..i + 1][..i] == routes[..i];
      forall cls: HostClass, k: char
        ensures Content(MatcherOf(m, cls), k) == Bucket(text, routes[..i + 1], cls, k)
      {
        assert Content(MatcherOf(start, cls), k) == Bucket(text, routes[..i], cls, k);
        match cls
        case Exact(h) =>
          assert Content(MatcherOf(filed, Exact(h)), k) ==
                 Content(MatcherOf(start, Exact(h)), k) + Repeat(route, FiledAt(text, route, cls, k));
          assert MatcherOf(m, cls) == MatcherOf(filed, cls);
        case Wildcard => FileAddsOne(start.wildcard, PathFirstByte(route.prefix), route, k, 0);
      }
    }
    assert routes[..|routes|] == routes;
  }
}
