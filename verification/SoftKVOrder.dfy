/** When the conflict rule is an order, what merging then yields, and what the sequence map is for. */
module SoftKVOrder {
  import opened Strings
  import opened Wrappers
  import opened SoftKV

  // The conflict rule as an order --------------------------------------------------------------

  /** The strict lexicographic order on (updatedAt, source, seqNo). */
  ghost predicate Older(a: Entry, b: Entry) {
    || a.updatedAt < b.updatedAt
    || (a.updatedAt == b.updatedAt
        && (Less(a.source, b.source) || (a.source == b.source && a.seqNo < b.seqNo)))
  }

  /** One source whose sequence number rose while its clock fell. */
  ghost predicate Inverted(a: Entry, b: Entry) {
    && a.source == b.source
    && ((a.seqNo < b.seqNo && b.updatedAt < a.updatedAt) || (b.seqNo < a.seqNo && a.updatedAt < b.updatedAt))
  }

  /** The rule is that order on exactly the pairs that are not inverted. */
  lemma AcceptIsOlderIffNotInverted(current: Entry, incoming: Entry)
    ensures ShouldAccept(current, incoming) == Older(current, incoming) <==> !Inverted(current, incoming)
  {
    LessIrreflexive(current.source);
  }

  lemma OlderIsTransitive(a: Entry, b: Entry, c: Entry)
    requires Older(a, b) && Older(b, c)
    ensures Older(a, c)
  {
    if Less(a.source, b.source) && Less(b.source, c.source) {
      LessTransitive(a.source, b.source, c.source);
    }
  }

  lemma OlderIsAsymmetric(a: Entry, b: Entry)
    requires Older(a, b)
    ensures !Older(b, a)
  {
    LessIrreflexive(a.source);
    if Less(a.source, b.source) { LessAsymmetric(a.source, b.source); }
  }

  /** Each entry replaces the one before it, and the first replaces the last. */
  ghost predicate Cycle(a: Entry, b: Entry, c: Entry) {
    ShouldAccept(a, b) && ShouldAccept(b, c) && ShouldAccept(c, a)
  }

  /** An accepted step can be part of a three-entry cycle through another source exactly when it is
      inverted: the condition under which replicas can disagree for ever is the clock step back,
      and any such step suffices. */
  lemma {:induction false} CycleIffInverted(a: Entry, b: Entry)
    requires ShouldAccept(a, b)
    ensures (exists c: Entry :: c.source != a.source && c.source != b.source && Cycle(a, b, c)) <==> Inverted(a, b)
  {
    if Inverted(a, b) {
      var c := b.(source := b.source + ['x']);
      LessOfExtension(b.source, 'x');
      assert c.source != a.source && c.source != b.source && Cycle(a, b, c);
    }
    if !Inverted(a, b) {
      forall c: Entry | c.source != a.source && c.source != b.source
        ensures !Cycle(a, b, c)
      {
        AcceptIsOlderIffNotInverted(a, b);
        if ShouldAccept(b, c) && ShouldAccept(c, a) {
          OlderIsTransitive(b, c, a);
          OlderIsAsymmetric(b, a);
        }
      }
    }
  }

  // Merging -------------------------------------------------------------------------------------

  /** An entry up to the arrival stamp each replica rewrites. */
  function Strip(e: Entry): Entry { e.(ingestedAt := 0) }

  datatype Delivery = Delivery(entry: Entry, checkAt: int, ingestAt: int)

  function MergeAll(trim: string -> string, st: State, ds: seq<Delivery>): State {
    if ds == [] then st
    else
      var d := ds[|ds| - 1];
      MergeState(trim, MergeAll(trim, st, ds[..|ds| - 1]), d.entry, d.checkAt, d.ingestAt).0
  }

  /** What a set of (stripped) entries that can occur together looks like: each source's sequence
      number and clock rise together, and a stamp identifies an entry of a key. */
  ghost predicate Coherent(es: set<Entry>) {
    && (forall a, b :: a in es && b in es ==> !Inverted(a, b))
    && (forall a, b :: a in es && b in es && a.key == b.key && !Older(a, b) && !Older(b, a) ==> a == b)
  }

  ghost function Offers(st: State, ds: seq<Delivery>): set<Entry> {
    (set k | k in st.data :: Strip(st.data[k])) + (set d | d in ds :: Strip(d.entry))
  }

  ghost predicate Deliverable(trim: string -> string, d: Delivery) {
    Admits(trim, d.entry, d.checkAt)
  }

  ghost predicate IsNewest(e: Entry, es: set<Entry>) {
    e in es && forall x :: x in es && x.key == e.key ==> !Older(e, x)
  }

  lemma AcceptOnCoherent(es: set<Entry>, a: Entry, b: Entry)
    requires Coherent(es) && Strip(a) in es && Strip(b) in es
    ensures ShouldAccept(a, b) == Older(Strip(a), Strip(b))
  {
    assert !Inverted(Strip(a), Strip(b));
    AcceptIsOlderIffNotInverted(a, b);
  }

  /** A store that holds, for each key ever offered, the newest of the entries offered for it. */
  ghost predicate HoldsNewest(st: State, es: set<Entry>) {
    && Keyed(st)
    && (forall k :: k in st.data ==> IsNewest(Strip(st.data[k]), es))
    && (forall x :: x in es ==> x.key in st.data)
  }

  lemma OneMergeHoldsNewest(trim: string -> string, m: State, d: Delivery, es: set<Entry>)
    requires HoldsNewest(m, es) && Coherent(es + {Strip(d.entry)}) && Deliverable(trim, d)
    ensures HoldsNewest(MergeState(trim, m, d.entry, d.checkAt, d.ingestAt).0, es + {Strip(d.entry)})
  {
    var e := d.entry;
    var r := MergeState(trim, m, e, d.checkAt, d.ingestAt).0;
    var es' := es + {Strip(e)};
    LessIrreflexive(e.source);
    if e.key in m.data {
      var h := Strip(m.data[e.key]);
      AcceptOnCoherent(es', m.data[e.key], e);
      assert IsNewest(h, es);
      forall x | x in es' && x.key == e.key && Older(h, Strip(e))
        ensures !Older(Strip(e), x)
      {
        if Older(Strip(e), x) { OlderIsTransitive(h, Strip(e), x); }
      }
    }
    forall k | k in r.data
      ensures IsNewest(Strip(r.data[k]), es')
    {
      if k != e.key {
        assert IsNewest(Strip(m.data[k]), es);
      }
    }
  }

  /** Whatever the order and the repeats, each key ends up with the newest entry ever offered. */
  lemma {:induction false} MergeAllYieldsNewest(trim: string -> string, st: State, ds: seq<Delivery>)
    requires Keyed(st) && Coherent(Offers(st, ds))
    requires forall d :: d in ds ==> Deliverable(trim, d)
    ensures HoldsNewest(MergeAll(trim, st, ds), Offers(st, ds))
  {
    if ds == [] {
      forall k | k in st.data
        ensures IsNewest(Strip(st.data[k]), Offers(st, ds))
      {
        assert Strip(st.data[k]) in Offers(st, ds);
        LessIrreflexive(st.data[k].source);
      }
    } else {
      var before, d := ds[..|ds| - 1], ds[|ds| - 1];
      assert ds == before + [d];
      assert Offers(st, ds) == Offers(st, before) + {Strip(d.entry)};
      MergeAllYieldsNewest(trim, st, before);
      OneMergeHoldsNewest(trim, MergeAll(trim, st, before), d, Offers(st, before));
    }
  }

  /** Replicas that start alike and receive the same entries, in any order and any number of times,
      end with the same data up to arrival stamps. */
  lemma {:induction false} MergeOrderIsIrrelevant(trim: string -> string, st: State, ds: seq<Delivery>,
                                                  ds': seq<Delivery>)
    requires Keyed(st) && Coherent(Offers(st, ds))
    requires forall d :: d in ds ==> Deliverable(trim, d)
    requires forall d :: d in ds' ==> Deliverable(trim, d)
    requires Offers(st, ds) == Offers(st, ds')
    ensures var r, r' := MergeAll(trim, st, ds), MergeAll(trim, st, ds');
            && r.data.Keys == r'.data.Keys
            && forall k :: k in r.data ==> Strip(r.data[k]) == Strip(r'.data[k])
  {
    MergeAllYieldsNewest(trim, st, ds);
    MergeAllYieldsNewest(trim, st, ds');
    var r, r' := MergeAll(trim, st, ds), MergeAll(trim, st, ds');
    forall k | k in r.data || k in r'.data
      ensures k in r.data && k in r'.data && Strip(r.data[k]) == Strip(r'.data[k])
    {
      if k in r.data { assert IsNewest(Strip(r.data[k]), Offers(st, ds)); }
      if k in r'.data { assert IsNewest(Strip(r'.data[k]), Offers(st, ds')); }
    }
  }

  /** The entries `a`, `b` and `c`, offered at `now` in some order, each at least once. */
  ghost predicate Offering(ds: seq<Delivery>, a: Entry, b: Entry, c: Entry, now: int) {
    && (set d | d in ds :: d.entry) == {a, b, c}
    && forall d :: d in ds ==> d.checkAt == now
  }

  ghost predicate SameData(x: State, y: State) {
    x.data.Keys == y.data.Keys && forall k :: k in x.data ==> Strip(x.data[k]) == Strip(y.data[k])
  }

  /** Some third source has an entry that, with these two, leaves different winners in different orders. */
  ghost predicate OrderMatters(trim: string -> string, a: Entry, b: Entry, now: int) {
    exists c: Entry, ds: seq<Delivery>, ds': seq<Delivery> ::
      && c.source != a.source && c.source != b.source && c.key == a.key && c.expiresAt > Millis(now)
      && Offering(ds, a, b, c, now) && Offering(ds', a, b, c, now)
      && !SameData(MergeAll(trim, EMPTY, ds), MergeAll(trim, EMPTY, ds'))
  }

  /** The order of arrival can decide between an accepted step and a third source exactly when the step
      is inverted. */
  lemma {:induction false} MergeOrderMattersIffInverted(trim: string -> string, a: Entry, b: Entry, now: int)
    requires a.key == b.key && Admits(trim, a, now) && Admits(trim, b, now) && ShouldAccept(a, b)
    ensures OrderMatters(trim, a, b, now) <==> Inverted(a, b)
  {
    if Inverted(a, b) {
      CycleIffInverted(a, b);
      var x: Entry :| x.source != a.source && x.source != b.source && Cycle(a, b, x);
      CycleOrdersDiffer(trim, a, b, x.(key := a.key, expiresAt := a.expiresAt), now);
    } else {
      forall c: Entry, ds: seq<Delivery>, ds': seq<Delivery> |
        && c.source != a.source && c.source != b.source && c.key == a.key && c.expiresAt > Millis(now)
        && Offering(ds, a, b, c, now) && Offering(ds', a, b, c, now)
        ensures SameData(MergeAll(trim, EMPTY, ds), MergeAll(trim, EMPTY, ds'))
      {
        ThirdSourceIsCoherent(a, b, c);
        OffersOf(ds, a, b, c, now);
        OffersOf(ds', a, b, c, now);
        MergeOrderIsIrrelevant(trim, EMPTY, ds, ds');
      }
    }
  }

  lemma OffersOf(ds: seq<Delivery>, a: Entry, b: Entry, c: Entry, now: int)
    requires Offering(ds, a, b, c, now)
    ensures Offers(EMPTY, ds) == {Strip(a), Strip(b), Strip(c)}
    ensures forall d :: d in ds ==> d.entry in {a, b, c}
  {
    var entries := set d | d in ds :: d.entry;
    forall d | d in ds ensures d.entry in {a, b, c} { assert d.entry in entries; }
    forall e | e in {a, b, c} ensures Strip(e) in Offers(EMPTY, ds) {
      assert e in entries;
      var d :| d in ds && d.entry == e;
    }
  }

  lemma ThirdSourceIsCoherent(a: Entry, b: Entry, c: Entry)
    requires a.key == b.key == c.key && c.source != a.source && c.source != b.source
    requires ShouldAccept(a, b) && !Inverted(a, b)
    ensures Coherent({Strip(a), Strip(b), Strip(c)})
  {
    AcceptIsOlderIffNotInverted(a, b);
    LessTotal(a.source, c.source);
    LessTotal(b.source, c.source);
  }

  /** In a cycle the last of [a, b, c] to arrive wins, and so does the last of [c, a, b]. */
  lemma CycleOrdersDiffer(trim: string -> string, a: Entry, b: Entry, c: Entry, now: int)
    requires a.key == b.key == c.key && c.source != a.source && c.source != b.source && Cycle(a, b, c)
    requires Admits(trim, a, now) && Admits(trim, b, now) && Admits(trim, c, now)
    ensures OrderMatters(trim, a, b, now)
  {
    var da, db, dc := Delivery(a, now, now), Delivery(b, now, now), Delivery(c, now, now);
    MergeAllOfThree(trim, da, db, dc);
    MergeAllOfThree(trim, dc, da, db);
    var x, y := MergeAll(trim, EMPTY, [da, db, dc]), MergeAll(trim, EMPTY, [dc, da, db]);
    assert x.data[a.key].source == c.source && y.data[a.key].source == b.source;
    assert Strip(x.data[a.key]) != Strip(y.data[a.key]);
    assert !SameData(x, y);
    OfferingOfThree([da, db, dc], a, b, c, now);
    OfferingOfThree([dc, da, db], a, b, c, now);
  }

  lemma OfferingOfThree(ds: seq<Delivery>, a: Entry, b: Entry, c: Entry, now: int)
    requires var da, db, dc := Delivery(a, now, now), Delivery(b, now, now), Delivery(c, now, now);
      ds == [da, db, dc] || ds == [dc, da, db]
    ensures Offering(ds, a, b, c, now)
  {
    var entries := set d | d in ds :: d.entry;
    assert Delivery(a, now, now) in ds && Delivery(b, now, now) in ds && Delivery(c, now, now) in ds;
    assert a in entries && b in entries && c in entries;
  }

  /** A witness: two arrivals of the same three entries that leave different winners. */
  lemma MergeOrderMattersWhenInverted(trim: string -> string)
    requires trim("k") == "k"
    ensures var a1 := Delivery(Entry("k", "v1", "A", 1, 10, 99, 0), 0, 0);
            var a2 := Delivery(Entry("k", "v2", "A", 2, 1, 99, 0), 0, 0);
            var b := Delivery(Entry("k", "w", "B", 1, 5, 99, 0), 0, 0);
            && Inverted(a1.entry, a2.entry)
            && MergeAll(trim, EMPTY, [a1, a2, b]).data["k"].value == "w"
            && MergeAll(trim, EMPTY, [b, a1, a2]).data["k"].value == "v2"
  {
    var a1 := Delivery(Entry("k", "v1", "A", 1, 10, 99, 0), 0, 0);
    var a2 := Delivery(Entry("k", "v2", "A", 2, 1, 99, 0), 0, 0);
    var b := Delivery(Entry("k", "w", "B", 1, 5, 99, 0), 0, 0);
    MergeAllOfThree(trim, a1, a2, b);
    MergeAllOfThree(trim, b, a1, a2);
  }

  lemma MergeAllOfThree(trim: string -> string, x: Delivery, y: Delivery, z: Delivery)
    ensures MergeAll(trim, EMPTY, [x, y, z]) ==
            var one := MergeState(trim, EMPTY, x.entry, x.checkAt, x.ingestAt).0;
            var two := MergeState(trim, one, y.entry, y.checkAt, y.ingestAt).0;
            MergeState(trim, two, z.entry, z.checkAt, z.ingestAt).0
  {
    assert [x, y, z][..2] == [x, y] && [x, y][..1] == [x] && [x][..0] == [];
    assert MergeAll(trim, EMPTY, [x]) == MergeState(trim, EMPTY, x.entry, x.checkAt, x.ingestAt).0;
  }

  /** Of two puts of one key by different sources in different milliseconds the later wins on every store that
      merges both while they are live, in either order, whatever the stores' sequence numbers. */
  lemma LaterPutWins(trim: string -> string, st: State, key: string, early: Entry, late: Entry,
                     v: string, w: string, now: int, later: int, ttl: int, ttl': int, a: string, b: string,
                     x: Delivery, y: Delivery)
    requires IsPut(trim, early, key, v, now, ttl, a) && IsPut(trim, late, key, w, later, ttl', b)
    requires a != b && now / 1_000_000 < later / 1_000_000 && trim(key) !in st.data
    requires x.entry == early && y.entry == late && Deliverable(trim, x) && Deliverable(trim, y)
    ensures var k := trim(key);
            && k in MergeAll(trim, st, [x, y]).data && MergeAll(trim, st, [x, y]).data[k].value == w
            && MergeAll(trim, st, [x, y]).data[k].source == b
            && k in MergeAll(trim, st, [y, x]).data && MergeAll(trim, st, [y, x]).data[k].value == w
            && MergeAll(trim, st, [y, x]).data[k].source == b
  {
    assert [x, y][..1] == [x] && [x][..0] == [] && [y, x][..1] == [y] && [y][..0] == [];
    assert MergeAll(trim, st, [x]) == MergeState(trim, st, x.entry, x.checkAt, x.ingestAt).0;
    assert MergeAll(trim, st, [y]) == MergeState(trim, st, y.entry, y.checkAt, y.ingestAt).0;
  }

  // Operation sequences -------------------------------------------------------------------------

  /** An operation, at the place of its critical section. Put reads the clock under the lock; Merge,
      List and DeleteExpired also read it before, and Get after: `at` is when the lock was held. */
  datatype Op =
    | Put(key: string, value: string, now: int, ttl: int, source: string)
    | Merge(entry: Entry, checkAt: int, ingestAt: int)
    | Get(key: string, at: int, now: int)
    | List(prefix: string, now: int, at: int)
    | Collect(now: int, at: int)

  datatype Answer =
    | Wrote(result: Result<Entry, PutError>)
    | Verdict(accepted: bool)
    | Found(entry: Option<Entry>)
    | Listed(live: set<Entry>)
    | Done

  function Step(trim: string -> string, st: State, op: Op): (State, Answer) {
    match op
    case Put(key, value, now, ttl, source) =>
      var (st', r) := PutState(trim, st, key, value, now, ttl, source); (st', Wrote(r))
    case Merge(e, checkAt, ingestAt) =>
      var (st', ok) := MergeState(trim, st, e, checkAt, ingestAt); (st', Verdict(ok))
    case Get(key, _, now) => (st, Found(GetState(trim, st, key, now)))
    case List(prefix, now, _) => (st, Listed(LiveEntries(st, trim(prefix), now)))
    case Collect(now, _) => (CollectState(st, now), Done)
  }

  function After(trim: string -> string, st: State, ops: seq<Op>): State {
    if ops == [] then st else Step(trim, After(trim, st, ops[..|ops| - 1]), ops[|ops| - 1]).0
  }

  // The sequence map ----------------------------------------------------------------------------

  /** The sequence map is at least as high as every held entry of a named source. */
  ghost predicate SeqCovers(st: State) {
    forall k :: k in st.data && st.data[k].source != "" ==> st.data[k].seqNo <= SeqAt(st, st.data[k].source)
  }

  lemma {:induction false} ReachableStoresCover(trim: string -> string, ops: seq<Op>)
    ensures Keyed(After(trim, EMPTY, ops)) && SeqCovers(After(trim, EMPTY, ops))
  {
    hide Step;
    if ops != [] {
      ReachableStoresCover(trim, ops[..|ops| - 1]);
      StepCovers(trim, After(trim, EMPTY, ops[..|ops| - 1]), ops[|ops| - 1]);
    }
  }

  lemma StepCovers(trim: string -> string, st: State, op: Op)
    requires Keyed(st) && SeqCovers(st)
    ensures Keyed(Step(trim, st, op).0) && SeqCovers(Step(trim, st, op).0)
  {
    hide ShouldAccept, LiveEntries;
  }

  /** A local Put on a single-writer key is one every peer holding the previous entry accepts,
      whatever the clocks say. */
  lemma {:induction false} PutIsAlwaysAcceptable(trim: string -> string, ops: seq<Op>, key: string, value: string,
                              now: int, ttl: int, source: string)
    requires source != ""
    requires var st := After(trim, EMPTY, ops); trim(key) in st.data ==> st.data[trim(key)].source == source
    ensures var st := After(trim, EMPTY, ops);
            var (st', r) := PutState(trim, st, key, value, now, ttl, source);
            r.Ok? && trim(key) in st.data ==> ShouldAccept(st.data[trim(key)], r.value)
  {
    ReachableStoresCover(trim, ops);
  }

  /** The unnamed source is the exception: Merge never records its sequence numbers. */
  lemma {:induction false} UnnamedSourceCanFallBehind(trim: string -> string)
    requires trim("k") == "k"
    ensures var st := After(trim, EMPTY, [Merge(Entry("k", "v", "", 5, 0, 99, 0), 0, 0)]);
            var (_, r) := PutState(trim, st, "k", "w", 0, 1, "");
            r.Ok? && "k" in st.data && !ShouldAccept(st.data["k"], r.value)
  {
    var op := Merge(Entry("k", "v", "", 5, 0, 99, 0), 0, 0);
    assert [op][..0] == [];
    assert After(trim, EMPTY, [op]) == Step(trim, EMPTY, op).0;
  }

  /** A restarted source that hears any live entry of its own, on a key only it writes, numbers its
      next Put above that entry, whether or not the entry was installed. */
  lemma {:induction false} RestartCatchesUp(trim: string -> string, ops: seq<Op>, e: Entry, checkAt: int, ingestAt: int,
                         key: string, value: string, now: int, ttl: int)
    requires e.source != "" && trim(e.key) != "" && e.expiresAt > Millis(checkAt)
    requires var st := After(trim, EMPTY, ops); e.key in st.data ==> st.data[e.key].source == e.source
    requires trim(key) != "" && ttl > 0
    ensures var st := MergeState(trim, After(trim, EMPTY, ops), e, checkAt, ingestAt).0;
            var (_, r) := PutState(trim, st, key, value, now, ttl, e.source);
            r.Ok? && r.value.seqNo > e.seqNo
  {
    ReachableStoresCover(trim, ops);
    var more := ops + [Merge(e, checkAt, ingestAt)];
    assert more[..|more| - 1] == ops;
    ReachableStoresCover(trim, more);
  }
}
