/** The index answers as the scan does, up to the length where the packed score overflows its field,
    and on a sorted table the answer is the lexicographic optimum. */
module RouteTheorems {
  import opened Strings
  import opened Wrappers
  import opened Sorting
  import opened RouteIndex

  /** What validation guarantees of every route. */
  ghost predicate ValidRoute(text: Text, r: RouteBinding) {
    && 1 <= r.weight <= 100
    && r.prefix != ""
    && forall i :: 0 <= i < |r.hosts| ==> text.Fold(r.hosts[i]) != ""
  }

  ghost predicate ValidRoutes(text: Text, routes: seq<RouteBinding>) {
    forall i :: 0 <= i < |routes| ==> ValidRoute(text, routes[i])
  }

  ghost predicate PrefixesUpTo(routes: seq<RouteBinding>, limit: nat) {
    forall i :: 0 <= i < |routes| ==> |routes[i].prefix| <= limit
  }

  // From buckets to masked tables ------------------------------------------------------------------

  function MaskedScore(text: Text, cls: HostClass, k: char, path: string, hostScore: int): RouteBinding -> int {
    (r: RouteBinding) => if FiledAt(text, r, cls, k) > 0 && r.prefix <= path then Score(hostScore, r) else -1
  }

  function ClassScore(text: Text, cls: HostClass, path: string, hostScore: int): RouteBinding -> int {
    (r: RouteBinding) => if Filed(text, r.hosts, cls) > 0 && r.prefix <= path then Score(hostScore, r) else -1
  }

  lemma {:induction false} PickRepeat<T>(x: T, n: nat, score: T -> int)
    ensures Pick(Repeat(x, n), score) == if n > 0 && score(x) >= 0 then Some(x) else None
  {
    if n > 0 {
      PickRepeat(x, n - 1, score);
      assert Repeat(x, n)[..|Repeat(x, n)| - 1] == Repeat(x, n - 1);
    }
  }

  lemma {:induction false} PickBucket(text: Text, routes: seq<RouteBinding>, cls: HostClass, k: char,
                                      path: string, hostScore: int)
    ensures Pick(Bucket(text, routes, cls, k), PathScore(path, hostScore)) ==
            Pick(routes, MaskedScore(text, cls, k, path, hostScore))
  {
    if routes != [] {
      var before, r := routes[..|routes| - 1], routes[|routes| - 1];
      var f, g := PathScore(path, hostScore), MaskedScore(text, cls, k, path, hostScore);
      PickBucket(text, before, cls, k, path, hostScore);
      PickConcat(Bucket(text, before, cls, k), Repeat(r, FiledAt(text, r, cls, k)), f);
      PickRepeat(r, FiledAt(text, r, cls, k), f);
      PickIsFirstBest(before, g);
      assert Pick(before, g).Some? ==> f(Pick(before, g).value) == g(Pick(before, g).value);
    }
  }

  lemma PrefixFirstByte(prefix: string, path: string)
    requires prefix <= path
    ensures PathFirstByte(prefix) == '\0' || PathFirstByte(prefix) == PathFirstByte(path)
    ensures PathFirstByte(prefix) != PathFirstByte(path) ==> |prefix| <= 1
    ensures PathFirstByte(prefix) != '\0' ==> |prefix| >= 2
  {}

  /** Looking only under the path's first byte, and then among the short prefixes, loses nothing and
      changes no precedence: a route under the byte is longer than any short one, and weights cannot
      make up for a byte of length. */
  lemma MatchInIsClassPick(text: Text, routes: seq<RouteBinding>, m: ListenerMatcher, cls: HostClass,
                           path: string, hostScore: int)
    requires Indexes(text, routes, m) && ValidRoutes(text, routes) && hostScore >= 0
    ensures MatchIn(MatcherOf(m, cls), path, hostScore) == Pick(routes, ClassScore(text, cls, path, hostScore))
  {
    var k := PathFirstByte(path);
    var f := PathScore(path, hostScore);
    var long := if k != '\0' then Bucket(text, routes, cls, k) else [];
    var short := Bucket(text, routes, cls, '\0');
    assert Content(MatcherOf(m, cls), k) == Bucket(text, routes, cls, k);
    assert Content(MatcherOf(m, cls), '\0') == short;
    PickConcat(long, short, f);
    PickBucket(text, routes, cls, k, path, hostScore);
    PickBucket(text, routes, cls, '\0', path, hostScore);
    SplitByFirstByte(text, routes, cls, path, hostScore);
  }

  lemma MaskFacts(text: Text, r: RouteBinding, cls: HostClass, path: string, hostScore: int)
    requires ValidRoute(text, r) && hostScore >= 0
    ensures var k := PathFirstByte(path);
            var f, g := PathScore(path, hostScore), ClassScore(text, cls, path, hostScore);
            var gl, gs := MaskedScore(text, cls, k, path, hostScore), MaskedScore(text, cls, '\0', path, hostScore);
            && (gl(r) >= 0 ==> gl(r) == g(r) == f(r) == Score(hostScore, r) && (k != '\0' ==> |r.prefix| >= 2))
            && (gs(r) >= 0 ==> gs(r) == g(r) == f(r) == Score(hostScore, r) && (k != '\0' ==> |r.prefix| <= 1))
            && (g(r) >= 0 ==> g(r) == f(r) && (gs(r) == g(r) || (k != '\0' && gl(r) == g(r))))
  {
    if r.prefix <= path { PrefixFirstByte(r.prefix, path); }
  }

  /** Scanning one part of a list after another, when every match of the first part outranks every
      match of the second, finds what one scan of the whole finds. */
  lemma PickSplit<T>(s: seq<T>, f: T -> int, g: T -> int, first: T -> int, second: T -> int)
    requires forall i :: 0 <= i < |s| ==>
               && (first(s[i]) >= 0 ==> first(s[i]) == g(s[i]) == f(s[i]))
               && (second(s[i]) >= 0 ==> second(s[i]) == g(s[i]) == f(s[i]))
               && (g(s[i]) >= 0 ==> g(s[i]) == f(s[i]) && (first(s[i]) == g(s[i]) || second(s[i]) == g(s[i])))
    requires forall i, j :: 0 <= i < |s| && 0 <= j < |s| && first(s[i]) >= 0 && second(s[j]) >= 0 ==>
               second(s[j]) < first(s[i])
    ensures Better(Pick(s, first), Pick(s, second), f) == Pick(s, g)
  {
    PickIsFirstBest(s, g);
    PickIsFirstBest(s, first);
    PickIsFirstBest(s, second);
    if Pick(s, first).Some? {
      var i :| FirstBest(s, first, i) && s[i] == Pick(s, first).value;
      assert FirstBest(s, g, i);
      PickFrom(s, g, i);
    } else if Pick(s, second).Some? {
      var i :| FirstBest(s, second, i) && s[i] == Pick(s, second).value;
      assert FirstBest(s, g, i);
      PickFrom(s, g, i);
    }
  }

  lemma SplitByFirstByte(text: Text, routes: seq<RouteBinding>, cls: HostClass, path: string, hostScore: int)
    requires ValidRoutes(text, routes) && hostScore >= 0
    ensures var k := PathFirstByte(path);
            var long := if k == '\0' then None else Pick(routes, MaskedScore(text, cls, k, path, hostScore));
            var short := Pick(routes, MaskedScore(text, cls, '\0', path, hostScore));
            Better(long, short, PathScore(path, hostScore)) == Pick(routes, ClassScore(text, cls, path, hostScore))
  {
    var k := PathFirstByte(path);
    var none := (r: RouteBinding) => -1;
    var gl := if k == '\0' then none else MaskedScore(text, cls, k, path, hostScore);
    forall i | 0 <= i < |routes| ensures ValidRoute(text, routes[i]) {}
    forall i {:trigger routes[i]} | 0 <= i < |routes| {
      MaskFacts(text, routes[i], cls, path, hostScore);
    }
    PickIsFirstBest(routes, none);
    PickSplit(routes, PathScore(path, hostScore), ClassScore(text, cls, path, hostScore), gl,
              MaskedScore(text, cls, '\0', path, hostScore));
  }

  // The index and the scan -------------------------------------------------------------------------

  lemma {:induction false} FiledIffNamed(text: Text, hosts: seq<string>, h: string)
    ensures Filed(text, hosts, Exact(h)) > 0 <==> h != "" && h != "*" && Names(text, hosts, h)
  {
    if hosts != [] && h != "" && h != "*" {
      FiledIffNamed(text, hosts[..|hosts| - 1], h);
      NamesOneMore(text, hosts, |hosts| - 1, h);
      assert hosts[..|hosts|] == hosts;
    }
  }

  /** Among the routes that match a path, the exact ones outrank the open ones in the scan when no
      prefix is longer than 1000 bytes: 100000 + 101 against 1000 * 100 + 100. */
  lemma ExactOutranksOpen(text: Text, routes: seq<RouteBinding>, host: string, path: string, i: int, j: int)
    requires ValidRoutes(text, routes) && PrefixesUpTo(routes, 1000)
    requires 0 <= i < |routes| && 0 <= j < |routes| && routes[i].prefix <= path && routes[j].prefix <= path
    requires HostScore(text, routes[i].hosts, host) == 2 && HostScore(text, routes[j].hosts, host) < 2
    ensures ScanScore(text, host, path)(routes[j]) < ScanScore(text, host, path)(routes[i])
  {}

  lemma IndexEqualsScan(text: Text, routes: seq<RouteBinding>, m: ListenerMatcher, host: string, path: string)
    requires Indexes(text, routes, m) && ValidRoutes(text, routes) && PrefixesUpTo(routes, 1000)
    ensures IndexMatch(m, host, path) == ScanMatch(text, routes, host, path)
  {
    MatchInIsClassPick(text, routes, m, Exact(host), path, 2);
    MatchInIsClassPick(text, routes, m, Wildcard, path, 1);
    var f := ScanScore(text, host, path);
    var e, w := ClassScore(text, Exact(host), path, 2), ClassScore(text, Wildcard, path, 1);
    ScoresByClass(text, routes, host, path);
    PickIsFirstBest(routes, f);
    PickIsFirstBest(routes, e);
    PickIsFirstBest(routes, w);
    if Pick(routes, f).Some? {
      var i :| FirstBest(routes, f, i) && routes[i] == Pick(routes, f).value;
      if e(routes[i]) >= 0 {
        assert FirstBest(routes, e, i);
        PickFrom(routes, e, i);
      } else {
        forall j | 0 <= j < |routes| ensures e(routes[j]) < 0 {
          if e(routes[j]) >= 0 {
            ExactOutranksOpen(text, routes, host, path, j, i);
          }
        }
        assert FirstBest(routes, w, i);
        PickFrom(routes, w, i);
      }
    }
  }

  /** How a route's score in the scan relates to the two classes of the index. */
  ghost predicate ScoresRelate(text: Text, r: RouteBinding, host: string, path: string) {
    var f := ScanScore(text, host, path)(r);
    var e, w := ClassScore(text, Exact(host), path, 2)(r), ClassScore(text, Wildcard, path, 1)(r);
    && (f >= 0 <==> HostScore(text, r.hosts, host) != 0 && r.prefix <= path)
    && (f >= 0 <==> e >= 0 || w >= 0)
    && (e >= 0 ==> host != "*" && HostScore(text, r.hosts, host) == 2 && f == e)
    && (w >= 0 ==> Filed(text, r.hosts, Wildcard) > 0)
    && (f >= 0 && e < 0 ==>
          && HostScore(text, r.hosts, host) == (if host == "*" then 2 else 1)
          && w >= 0 && f == w + (if host == "*" then 100000 else 0))
    && (e >= 0 <==> f >= 0 && Filed(text, r.hosts, Exact(host)) > 0)
  }

  lemma ScoresOfRoute(text: Text, r: RouteBinding, host: string, path: string)
    requires ValidRoute(text, r)
    ensures ScoresRelate(text, r, host, path)
  {
    FiledIffNamed(text, r.hosts, host);
    FiledIffNamed(text, r.hosts, "*");
  }

  lemma ScoresByClass(text: Text, routes: seq<RouteBinding>, host: string, path: string)
    requires ValidRoutes(text, routes)
    ensures forall i :: 0 <= i < |routes| ==> ScoresRelate(text, routes[i], host, path)
  {
    forall i | 0 <= i < |routes| ensures ScoresRelate(text, routes[i], host, path) {
      ScoresOfRoute(text, routes[i], host, path);
    }
  }

  ghost predicate AgreeUpTo(text: Text, limit: nat) {
    forall routes, m, host, path ::
      Indexes(text, routes, m) && ValidRoutes(text, routes) && PrefixesUpTo(routes, limit) ==>
        IndexMatch(m, host, path) == ScanMatch(text, routes, host, path)
  }

  /** Exactly up to prefixes of 1000 bytes the index can replace the scan, for every validated table
      in any order, every host and every path. */
  lemma {:induction false} IndexExactUpTo1000(text: Text, limit: nat)
    requires text.Fold("*") == "*" && text.Fold("h") == "h"
    ensures AgreeUpTo(text, limit) <==> limit <= 1000
  {
    if limit <= 1000 {
      forall routes, m, host, path |
        Indexes(text, routes, m) && ValidRoutes(text, routes) && PrefixesUpTo(routes, limit)
        ensures IndexMatch(m, host, path) == ScanMatch(text, routes, host, path)
      {
        IndexEqualsScan(text, routes, m, host, path);
      }
    } else {
      var long := seq(1001, i => if i == 0 then '/' else 'a');
      TooLongPrefix(text, limit, RouteBinding("a", ["h"], "/", "d1", 1), RouteBinding("b", ["*"], long, "d2", 100));
    }
  }

  /** The scan lets a prefix of 1001 bytes on an open host win over an exact host. */
  lemma TooLongPrefix(text: Text, limit: nat, named: RouteBinding, open: RouteBinding)
    requires text.Fold("*") == "*" && text.Fold("h") == "h" && limit >= 1001
    requires named.hosts == ["h"] && named.prefix == "/" && named.weight == 1
    requires open.hosts == ["*"] && |open.prefix| == 1001 && open.prefix[0] == '/' && open.prefix[1] == 'a'
             && open.weight == 100
    ensures !AgreeUpTo(text, limit)
  {
    var routes := [named, open];
    var m := ListenerMatcher(map["h" := PathMatcher([named], map[])], PathMatcher([], map['a' := [open]]));
    WitnessIsIndexed(text, named, open, m);
    ScanPrefersLonger(text, named, open);
    IndexPrefersNamed(named, open, m);
    assert ValidRoutes(text, routes) && PrefixesUpTo(routes, limit) by { assert text.Fold(open.hosts[0]) == "*"; }
    hide Indexes, ValidRoutes, PrefixesUpTo, IndexMatch, ScanMatch;
  }

  lemma ScanPrefersLonger(text: Text, named: RouteBinding, open: RouteBinding)
    requires text.Fold("*") == "*" && text.Fold("h") == "h"
    requires named.hosts == ["h"] && named.prefix == "/" && named.weight == 1
    requires open.hosts == ["*"] && |open.prefix| == 1001 && open.prefix[0] == '/' && open.weight == 100
    ensures ScanMatch(text, [named, open], "h", open.prefix) == Some(open)
  {
    assert HostScore(text, named.hosts, "h") == 2 by { assert text.Fold(named.hosts[0]) == "h"; }
    assert HostScore(text, open.hosts, "h") == 1 by { assert text.Fold(open.hosts[0]) == "*"; }
    assert named.prefix <= open.prefix;
    PickOfTwo(named, open, ScanScore(text, "h", open.prefix));
  }

  lemma IndexPrefersNamed(named: RouteBinding, open: RouteBinding, m: ListenerMatcher)
    requires named.prefix == "/" && |open.prefix| == 1001 && open.prefix[0] == '/' && named.weight == 1
    requires m == ListenerMatcher(map["h" := PathMatcher([named], map[])], PathMatcher([], map['a' := [open]]))
    ensures IndexMatch(m, "h", open.prefix) == Some(named)
  {
    hide Pick;
    assert MatcherOf(m, Exact("h")) == PathMatcher([named], map[]);
    var k := PathFirstByte(open.prefix);
    var front: seq<RouteBinding> := if k != '\0' then At(map[], k) else [];
    assert front + [named] == [named];
    PickOne(named, PathScore(open.prefix, 2));
    assert MatchIn(PathMatcher([named], map[]), open.prefix, 2) == Some(named);
  }

  lemma PickOne(x: RouteBinding, score: RouteBinding -> int)
    requires score(x) >= 0
    ensures Pick([x], score) == Some(x)
  {
    assert [x][..0] == [];
  }

  lemma PickOfTwo(x: RouteBinding, y: RouteBinding, score: RouteBinding -> int)
    requires 0 <= score(x) < score(y)
    ensures Pick([x, y], score) == Some(y)
  {
    assert FirstBest([x, y], score, 1);
    PickFrom([x, y], score, 1);
  }

  lemma WitnessIsIndexed(text: Text, named: RouteBinding, open: RouteBinding, m: ListenerMatcher)
    requires text.Fold("*") == "*" && text.Fold("h") == "h"
    requires named.hosts == ["h"] && named.prefix == "/"
    requires open.hosts == ["*"] && |open.prefix| > 1 && open.prefix[0] == '/' && open.prefix[1] == 'a'
    requires m == ListenerMatcher(map["h" := PathMatcher([named], map[])], PathMatcher([], map['a' := [open]]))
    ensures Indexes(text, [named, open], m)
  {
    assert !Names(text, named.hosts, "*");
    assert Names(text, open.hosts, "*") by { assert text.Fold(open.hosts[0]) == "*"; }
    forall cls: HostClass, k: char
      ensures Content(MatcherOf(m, cls), k) == Bucket(text, [named, open], cls, k)
    {
      assert [named, open][..1] == [named] && [named][..0] == [];
      assert Bucket(text, [named], cls, k) == [] + Repeat(named, FiledAt(text, named, cls, k));
      assert Repeat(named, 1) == Repeat(named, 0) + [named];
      assert Repeat(open, 1) == Repeat(open, 0) + [open];
      match cls
      case Exact(h) =>
        assert named.hosts[..0] == [] && open.hosts[..0] == [];
        assert Filed(text, [], cls) == 0;
        assert Filed(text, named.hosts, cls) == if h == "h" then 1 else 0;
        assert Filed(text, open.hosts, cls) == 0;
      case Wildcard =>
    }
  }

  // The lexicographic optimum ----------------------------------------------------------------------

  /** The order of a compiled table: longer prefixes, then heavier routes, then names. */
  predicate Before(a: RouteBinding, b: RouteBinding) {
    if |a.prefix| != |b.prefix| then |a.prefix| > |b.prefix|
    else if a.weight != b.weight then a.weight > b.weight
    else if a.service != b.service then Less(a.service, b.service)
    else Less(a.dest, b.dest)
  }

  lemma BeforeIsWeakOrder()
    ensures WeakOrder(Before)
  {
    forall x: RouteBinding ensures !Before(x, x) { LessIrreflexive(x.dest); }
    forall x: RouteBinding, y: RouteBinding, z: RouteBinding | Before(x, y) && Before(y, z)
      ensures Before(x, z)
    {
      BeforeTransitive(x, y, z);
    }
    forall x: RouteBinding, y: RouteBinding, z: RouteBinding | !Before(x, y) && !Before(y, z)
      ensures !Before(x, z)
    {
      NotBeforeTransitive(x, y, z);
    }
  }

  lemma BeforeTransitive(x: RouteBinding, y: RouteBinding, z: RouteBinding)
    requires Before(x, y) && Before(y, z)
    ensures Before(x, z)
  {
    if Less(x.service, y.service) && Less(y.service, z.service) {
      LessTransitive(x.service, y.service, z.service);
      LessAsymmetric(x.service, z.service);
    }
    if Less(x.service, y.service) { LessIrreflexive(x.service); }
    if Less(y.service, z.service) { LessIrreflexive(y.service); }
    if x.service == z.service && Less(x.service, y.service) { LessAsymmetric(x.service, y.service); }
    if Less(x.dest, y.dest) && Less(y.dest, z.dest) { LessTransitive(x.dest, y.dest, z.dest); }
  }

  lemma TiesAreEqual(x: RouteBinding, y: RouteBinding)
    ensures !Before(x, y) && !Before(y, x) <==>
            |x.prefix| == |y.prefix| && x.weight == y.weight && x.service == y.service && x.dest == y.dest
  {
    LessTotal(x.service, y.service);
    LessTotal(x.dest, y.dest);
    LessIrreflexive(x.dest);
    LessIrreflexive(x.service);
  }

  lemma NotBeforeTransitive(x: RouteBinding, y: RouteBinding, z: RouteBinding)
    requires !Before(x, y) && !Before(y, z)
    ensures !Before(x, z)
  {
    TiesAreEqual(x, y);
    TiesAreEqual(y, z);
    if Before(x, z) {
      if Before(y, x) {
        BeforeTransitive(y, x, z);
      } else if Before(z, y) {
        BeforeTransitive(x, z, y);
      }
    }
  }

  ghost predicate Matches(text: Text, r: RouteBinding, host: string, path: string) {
    HostScore(text, r.hosts, host) > 0 && r.prefix <= path
  }

  /** No matching route of the table beats `r`: first by host class, then in table order. */
  ghost predicate IsOptimal(text: Text, routes: multiset<RouteBinding>, host: string, path: string, r: RouteBinding) {
    && r in routes && Matches(text, r, host, path)
    && forall x :: x in routes && Matches(text, x, host, path) ==>
         && HostScore(text, x.hosts, host) <= HostScore(text, r.hosts, host)
         && (HostScore(text, x.hosts, host) == HostScore(text, r.hosts, host) ==> !Before(x, r))
  }

  /** Packed scores order (length, weight) pairs lexicographically because weights are in 1..100. */
  lemma ScoreOrdersPairs(hostScore: int, a: RouteBinding, b: RouteBinding)
    requires 1 <= a.weight <= 100 && 1 <= b.weight <= 100
    ensures Score(hostScore, a) < Score(hostScore, b) <==>
            |a.prefix| < |b.prefix| || (|a.prefix| == |b.prefix| && a.weight < b.weight)
  {}

  lemma FirstBestIsFirst(text: Text, routes: seq<RouteBinding>, cls: HostClass, path: string, hostScore: int, i: int)
    requires ValidRoutes(text, routes) && Sorted(Before, routes) && hostScore >= 0
    requires FirstBest(routes, ClassScore(text, cls, path, hostScore), i)
    ensures forall j :: 0 <= j < |routes| && Filed(text, routes[j].hosts, cls) > 0 && routes[j].prefix <= path ==>
              i <= j && !Before(routes[j], routes[i])
  {
    var g := ClassScore(text, cls, path, hostScore);
    forall j | 0 <= j < |routes| && Filed(text, routes[j].hosts, cls) > 0 && routes[j].prefix <= path
      ensures i <= j && !Before(routes[j], routes[i])
    {
      ScoreOrdersPairs(hostScore, routes[i], routes[j]);
      ScoreOrdersPairs(hostScore, routes[j], routes[i]);
      assert g(routes[j]) == Score(hostScore, routes[j]) && g(routes[i]) == Score(hostScore, routes[i]);
      if j < i {
        assert g(routes[j]) < g(routes[i]);
        assert Before(routes[i], routes[j]);
      }
      LessIrreflexive(routes[i].dest);
    }
  }

  /** On a sorted table the index returns the optimum, with no bound on lengths, and it returns
      something exactly when some route matches. */
  lemma IndexIsOptimal(text: Text, routes: seq<RouteBinding>, m: ListenerMatcher, host: string, path: string)
    requires Indexes(text, routes, m) && ValidRoutes(text, routes) && Sorted(Before, routes)
    ensures IndexMatch(m, host, path).Some? <==> exists r :: r in multiset(routes) && Matches(text, r, host, path)
    ensures IndexMatch(m, host, path).Some? ==>
              IsOptimal(text, multiset(routes), host, path, IndexMatch(m, host, path).value)
  {
    MatchInIsClassPick(text, routes, m, Exact(host), path, 2);
    MatchInIsClassPick(text, routes, m, Wildcard, path, 1);
    var e, w := ClassScore(text, Exact(host), path, 2), ClassScore(text, Wildcard, path, 1);
    ScoresByClass(text, routes, host, path);
    PickIsFirstBest(routes, e);
    PickIsFirstBest(routes, w);
    if Pick(routes, e).Some? {
      var i :| FirstBest(routes, e, i) && routes[i] == Pick(routes, e).value;
      assert ScoresRelate(text, routes[i], host, path);
      OptimumInClass(text, routes, Exact(host), host, path, 2, i);
    } else if Pick(routes, w).Some? {
      var i :| FirstBest(routes, w, i) && routes[i] == Pick(routes, w).value;
      assert ScoresRelate(text, routes[i], host, path);
      OptimumInClass(text, routes, Wildcard, host, path, 1, i);
    } else {
      forall r | r in multiset(routes) ensures !Matches(text, r, host, path) {
        var i :| 0 <= i < |routes| && routes[i] == r;
        assert ScoresRelate(text, routes[i], host, path);
      }
    }
  }

  lemma OptimumInClass(text: Text, routes: seq<RouteBinding>, cls: HostClass, host: string, path: string,
                       hostScore: int, i: int)
    requires ValidRoutes(text, routes) && Sorted(Before, routes) && hostScore >= 0
    requires FirstBest(routes, ClassScore(text, cls, path, hostScore), i)
    requires Matches(text, routes[i], host, path)
    requires forall j :: 0 <= j < |routes| && Matches(text, routes[j], host, path) ==>
               && HostScore(text, routes[j].hosts, host) <= HostScore(text, routes[i].hosts, host)
               && (HostScore(text, routes[j].hosts, host) == HostScore(text, routes[i].hosts, host) ==>
                     Filed(text, routes[j].hosts, cls) > 0)
    ensures IsOptimal(text, multiset(routes), host, path, routes[i])
  {
    FirstBestIsFirst(text, routes, cls, path, hostScore, i);
    forall x | x in multiset(routes) && Matches(text, x, host, path)
      ensures HostScore(text, x.hosts, host) <= HostScore(text, routes[i].hosts, host)
      ensures HostScore(text, x.hosts, host) == HostScore(text, routes[i].hosts, host) ==> !Before(x, routes[i])
    {
      var j :| 0 <= j < |routes| && routes[j] == x;
    }
  }

  /** Optima may tie, but then they answer alike: prefixes of one path of equal length are equal. */
  lemma OptimaAnswerAlike(text: Text, routes: multiset<RouteBinding>, host: string, path: string,
                          a: RouteBinding, b: RouteBinding)
    requires IsOptimal(text, routes, host, path, a) && IsOptimal(text, routes, host, path, b)
    ensures a.service == b.service && a.dest == b.dest && a.prefix == b.prefix
  {
    TiesAreEqual(a, b);
    assert a.prefix == path[..|a.prefix|];
  }
}
