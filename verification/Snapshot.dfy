/** The fingerprint by which a refresh recognises a listing it has already applied. */
module Snapshot {
  import opened Strings
  import opened Sequences
  import opened Sorting
  import opened ServiceModel

  datatype Entry = Entry(name: string, rev: int)

  predicate EntryLess(a: Entry, b: Entry) {
    if a.name != b.name then Less(a.name, b.name) else a.rev < b.rev
  }

  function EntryOf(text: Text): ServiceConfig -> Entry {
    (c: ServiceConfig) => Entry(text.trim(c.name), c.resourceVersion)
  }

  function Entries(text: Text, items: seq<ServiceConfig>): seq<Entry> { Map(items, EntryOf(text)) }

  function Field(e: Entry): string { e.name + "@" + Itoa(e.rev) }

  function Body(es: seq<Entry>): string {
    if es == [] then "" else "|" + Field(es[0]) + Body(es[1..])
  }

  function SnapshotKey(text: Text, items: seq<ServiceConfig>): string {
    if items == [] then "empty"
    else "n=" + Itoa(|items|) + Body(Sort(EntryLess, Entries(text, items)))
  }

  lemma BodyStep(key: string, es: seq<Entry>, i: nat)
    requires i < |es|
    ensures (key + "|" + es[i].name + "@" + Itoa(es[i].rev)) + Body(es[i + 1..]) == key + Body(es[i..])
  {
    hide Itoa;
    assert es[i..][1..] == es[i + 1..] && es[i..][0] == es[i];
    var bar, f, rest := "|", Field(es[i]), Body(es[i + 1..]);
    assert Body(es[i..]) == bar + f + rest;
    assert key + bar + es[i].name + "@" + Itoa(es[i].rev) == key + (bar + f);
    assert (key + (bar + f)) + rest == key + (bar + f + rest);
  }

  method ServiceSnapshotKey(text: Text, items: seq<ServiceConfig>) returns (key: string)
    ensures key == SnapshotKey(text, items)
  {
    hide Itoa, Sort;
    if items == [] {
      return "empty";
    }
    var entries: seq<Entry> := [];
    for i := 0 to |items|
      invariant entries == Entries(text, items)[..i]
    {
      entries := entries + [Entry(text.trim(items[i].name), items[i].resourceVersion)];
    }
    assert entries == Entries(text, items);
    entries := Sort(EntryLess, entries);
    key := "n=" + Itoa(|items|);
    assert entries[0..] == entries;
    for i := 0 to |entries|
      invariant key + Body(entries[i..]) == SnapshotKey(text, items)
    {
      BodyStep(key, entries, i);
      key := key + "|" + entries[i].name + "@" + Itoa(entries[i].rev);
    }
    assert Body(entries[|entries|..]) == "";
  }

  lemma EntryLessIsTotal()
    ensures WeakOrder(EntryLess)
    ensures forall x, y :: !EntryLess(x, y) && !EntryLess(y, x) ==> x == y
  {
    forall x: Entry ensures !EntryLess(x, x) {}
    forall x: Entry, y: Entry | !EntryLess(x, y) && !EntryLess(y, x) ensures x == y {
      LessTotal(x.name, y.name);
    }
    forall x: Entry, y: Entry, z: Entry | EntryLess(x, y) && EntryLess(y, z) ensures EntryLess(x, z) {
      EntryLessTransitive(x, y, z);
    }
    forall x: Entry, y: Entry, z: Entry | !EntryLess(x, y) && !EntryLess(y, z) ensures !EntryLess(x, z) {
      LessTotal(x.name, y.name);
      LessTotal(y.name, z.name);
      if EntryLess(z, y) && EntryLess(y, x) {
        EntryLessTransitive(z, y, x);
      }
      if EntryLess(z, x) && x.name != z.name { LessAsymmetric(z.name, x.name); }
    }
  }

  lemma EntryLessTransitive(x: Entry, y: Entry, z: Entry)
    requires EntryLess(x, y) && EntryLess(y, z)
    ensures EntryLess(x, z)
  {
    if x.name != y.name && y.name != z.name {
      LessTransitive(x.name, y.name, z.name);
      LessIrreflexive(x.name);
    }
  }

  // Reading a fingerprint back --------------------------------------------------------------------------------

  predicate BarFree(s: string) { '|' !in s }

  lemma FieldInjective(a: Entry, b: Entry)
    requires Field(a) == Field(b)
    ensures a == b
  {
    SplitAtLast(a.name, Itoa(a.rev), b.name, Itoa(b.rev), '@');
    ItoaInjective(a.rev, b.rev);
  }

  /** A field and what follows it, when what follows is nothing or starts with a bar. */
  lemma SplitField(f: string, rest: string, g: string, rest': string)
    requires BarFree(f) && BarFree(g) && f + rest == g + rest'
    requires rest == "" || rest[0] == '|'
    requires rest' == "" || rest'[0] == '|'
    ensures f == g && rest == rest'
  {
    var w := f + rest;
    assert forall k :: 0 <= k < |f| ==> w[k] == f[k];
    assert forall k :: 0 <= k < |g| ==> w[k] == g[k];
    assert |f| < |w| ==> w[|f|] == '|';
    assert |g| < |w| ==> w[|g|] == '|';
    assert |f| == |g|;
    assert f == w[..|f|] == g;
    assert rest == w[|f|..] == rest';
  }

  lemma BodyHead(a: seq<Entry>)
    ensures a == [] ==> Body(a) == ""
    ensures a != [] ==> Body(a) != "" && Body(a)[0] == '|' && Body(a)[1..] == Field(a[0]) + Body(a[1..])
  {
    hide Itoa;
    if a != [] {
      assert Body(a) == "|" + (Field(a[0]) + Body(a[1..]));
    }
  }

  /** The name holds what looks like the end of a field: an "@", a numeral and a bar, after `u`. */
  predicate LooksEnded(name: string, u: string, n: int, v: string) { name == u + "@" + Itoa(n) + "|" + v }

  ghost predicate Clean(name: string) { forall u, n, v :: !LooksEnded(name, u, n, v) }

  lemma BarFreeIsClean(name: string)
    requires BarFree(name)
    ensures Clean(name)
  {
    hide Itoa;
    forall u, n, v ensures LooksEnded(name, u, n, v) ==> !BarFree(name) {
      EndHasBar(u, n, v);
    }
  }

  lemma EndHasBar(u: string, n: int, v: string)
    ensures !BarFree(u + "@" + Itoa(n) + "|" + v)
  {
    hide Itoa;
    var name := u + "@" + Itoa(n) + "|" + v;
    assert name[|u + "@" + Itoa(n)|] == '|';
  }

  /** When one body starts with a field and a bar and another with a longer field, the longer field's name
      looks ended. */
  lemma LongerLooksEnded(e: Entry, rest: string, g: Entry, rest': string)
    requires Field(e) + rest == Field(g) + rest' && |Field(e)| < |Field(g)| && rest != "" && rest[0] == '|'
    ensures |Field(e)| < |g.name| && LooksEnded(g.name, e.name, e.rev, g.name[|Field(e)| + 1..])
  {
    hide Itoa;
    var w, k := Field(e) + rest, |Field(e)|;
    assert w[k] == '|';
    assert Field(g) == w[..|Field(g)|];
    assert forall i :: 0 <= i < |Itoa(g.rev)| ==> Itoa(g.rev)[i] != '|';
    assert forall i :: |g.name| <= i < |Field(g)| ==> Field(g)[i] != '|';
    assert Field(g)[k] == '|' && k < |g.name|;
    assert g.name == w[..|g.name|] && g.name[..k] == w[..k] == Field(e);
    assert g.name == g.name[..k] + "|" + g.name[k + 1..];
  }

  ghost predicate CleanEntries(es: seq<Entry>) { forall e :: e in es ==> Clean(e.name) }

  /** Among all ways to read a body the one with clean names has the most entries, and no other has as many. */
  lemma {:induction false} CleanReadingIsFinest(a: seq<Entry>, b: seq<Entry>)
    requires CleanEntries(a) && Body(a) == Body(b)
    ensures |b| <= |a|
    ensures |b| == |a| ==> a == b
    decreases |a|
  {
    hide Field, Body, Clean, LooksEnded;
    BodyHead(a);
    BodyHead(b);
    if a != [] && b != [] {
      BodyHead(a[1..]);
      BodyHead(b[1..]);
      var e, g, rest, rest' := a[0], b[0], Body(a[1..]), Body(b[1..]);
      assert Field(e) + rest == Field(g) + rest';
      assert Clean(e.name) && CleanEntries(a[1..]);
      SameWhole(Field(e), rest, Field(g), rest');
      if |Field(e)| == |Field(g)| {
        FieldInjective(e, g);
        CleanReadingIsFinest(a[1..], b[1..]);
        assert a == [e] + a[1..] && b == [g] + b[1..];
      } else if |Field(e)| < |Field(g)| {
        LongerLooksEnded(e, rest, g, rest');
        var tail := Entry(g.name[|Field(e)| + 1..], g.rev);
        Resplit(e, rest, g, rest', tail, b[1..]);
        CleanReadingIsFinest(a[1..], [tail] + b[1..]);
      } else {
        LongerLooksEnded(g, rest', e, rest);
        CleanNeverLooksEnded(e.name, g.name, g.rev, e.name[|Field(g)| + 1..]);
      }
    }
  }

  lemma CleanNeverLooksEnded(name: string, u: string, n: int, v: string)
    requires Clean(name)
    ensures !LooksEnded(name, u, n, v)
  {}

  lemma SameWhole(f: string, rest: string, g: string, rest': string)
    requires f + rest == g + rest'
    ensures |f| == |g| ==> f == g && rest == rest'
    ensures |f| < |g| ==> rest != ""
    ensures |g| < |f| ==> rest' != ""
  {
    var w := f + rest;
    assert f == w[..|f|] && rest == w[|f|..];
    assert g == w[..|g|] && rest' == w[|g|..];
  }

  /** A field whose name looks ended reads as two fields. */
  lemma Resplit(e: Entry, rest: string, g: Entry, rest': string, tail: Entry, more: seq<Entry>)
    requires Field(e) + rest == Field(g) + rest' && rest' == Body(more)
    requires |Field(e)| < |g.name| && LooksEnded(g.name, e.name, e.rev, tail.name) && tail.rev == g.rev
    ensures rest == Body([tail] + more)
  {
    hide Itoa;
    assert ([tail] + more)[1..] == more;
    assert g.name == Field(e) + ("|" + tail.name);
    assert Field(g) == Field(e) + ("|" + Field(tail));
    assert (Field(e) + rest)[|Field(e)|..] == rest;
    assert Field(g) + rest' == Field(e) + ("|" + Field(tail) + rest');
    assert (Field(e) + ("|" + Field(tail) + rest'))[|Field(e)|..] == "|" + Field(tail) + rest';
  }

  ghost predicate CleanItems(text: Text, items: seq<ServiceConfig>) {
    forall c :: c in items ==> Clean(text.trim(c.name))
  }

  /** If no name in one of two listings looks ended, the two have the same fingerprint exactly when they
      show the same trimmed names at the same revisions, each as often. Names without a bar never look ended. */
  lemma {:induction false} SnapshotIdentifies(text: Text, items: seq<ServiceConfig>, items': seq<ServiceConfig>)
    requires CleanItems(text, items) || CleanItems(text, items')
    ensures SnapshotKey(text, items) == SnapshotKey(text, items') <==>
            multiset(Entries(text, items)) == multiset(Entries(text, items'))
  {
    hide CleanItems;
    var a, b := Sort(EntryLess, Entries(text, items)), Sort(EntryLess, Entries(text, items'));
    EntryLessIsTotal();
    SortSorted(EntryLess, Entries(text, items));
    SortSorted(EntryLess, Entries(text, items'));
    if multiset(Entries(text, items)) == multiset(Entries(text, items')) {
      SortedUnique(EntryLess, a, b);
      assert |Entries(text, items)| == |multiset(Entries(text, items))|;
      assert |Entries(text, items')| == |multiset(Entries(text, items'))|;
    }
    if SnapshotKey(text, items) == SnapshotKey(text, items') {
      if CleanItems(text, items) {
        SnapshotBody(text, items, items', a, b);
      } else {
        SnapshotBody(text, items', items, b, a);
      }
    }
  }

  lemma SnapshotBody(text: Text, items: seq<ServiceConfig>, items': seq<ServiceConfig>, a: seq<Entry>, b: seq<Entry>)
    requires CleanItems(text, items)
    requires a == Sort(EntryLess, Entries(text, items)) && b == Sort(EntryLess, Entries(text, items'))
    requires SnapshotKey(text, items) == SnapshotKey(text, items')
    ensures multiset(Entries(text, items)) == multiset(Entries(text, items'))
  {
    hide Itoa, Body, Sort, BarFree, Clean;
    if items != [] && items' != [] {
      SortedNamesAreClean(text, items, a);
      HeadIsBarFree(|items|);
      HeadIsBarFree(|items'|);
      BodyHead(a);
      BodyHead(b);
      SplitField("n=" + Itoa(|items|), Body(a), "n=" + Itoa(|items'|), Body(b));
      assert ("n=" + Itoa(|items|))[2..] == Itoa(|items|) && ("n=" + Itoa(|items'|))[2..] == Itoa(|items'|);
      ItoaInjective(|items|, |items'|);
      CleanReadingIsFinest(a, b);
    } else {
      NotEmptyMarker(text, items);
      NotEmptyMarker(text, items');
    }
  }

  lemma HeadIsBarFree(n: nat)
    ensures BarFree("n=" + Itoa(n))
  {
    assert forall i :: 0 <= i < |Itoa(n)| ==> Itoa(n)[i] != '|';
  }

  lemma NotEmptyMarker(text: Text, items: seq<ServiceConfig>)
    ensures SnapshotKey(text, items) == "empty" <==> items == []
  {
    hide Itoa, Body, Sort;
    if items != [] {
      assert SnapshotKey(text, items)[0] == 'n';
      assert "empty"[0] == 'e';
    }
  }

  lemma NeverBlank(text: Text, items: seq<ServiceConfig>)
    ensures SnapshotKey(text, items) != ""
  {
    hide Itoa, Body, Sort;
    if items != [] {
      assert SnapshotKey(text, items)[0] == 'n';
    }
  }

  lemma SortedNamesAreClean(text: Text, items: seq<ServiceConfig>, a: seq<Entry>)
    requires CleanItems(text, items)
    requires multiset(a) == multiset(Entries(text, items))
    ensures CleanEntries(a)
  {
    hide Clean;
    forall e | e in a ensures Clean(e.name) {
      assert e in multiset(a);
      assert e in multiset(Entries(text, items));
      var i :| 0 <= i < |items| && Entries(text, items)[i] == e;
      assert items[i] in items;
    }
  }

  function Named(name: string, rev: int): ServiceConfig {
    ServiceConfig(name, rev, [], [], Policy("", [], "", 0, UdpPolicy(0, 0, 0, 0, 0), "", 0, 0.0, 0, 0))
  }

  /** With a bar in a name two different listings can collide. */
  lemma BarsCollide(text: Text)
    requires text.trim("a@1|b") == "a@1|b" && text.trim("c") == "c" && text.trim("a") == "a"
             && text.trim("b@2|c") == "b@2|c"
    ensures var x, y := [Named("a@1|b", 2), Named("c", 3)], [Named("a", 1), Named("b@2|c", 3)];
            SnapshotKey(text, x) == SnapshotKey(text, y) && multiset(Entries(text, x)) != multiset(Entries(text, y))
  {
    var x, y := [Named("a@1|b", 2), Named("c", 3)], [Named("a", 1), Named("b@2|c", 3)];
    var p, q, r, s := Entry("a@1|b", 2), Entry("c", 3), Entry("a", 1), Entry("b@2|c", 3);
    hide Field, Sort, Body, Itoa, Less;
    assert Entries(text, x) == [p, q] && Entries(text, y) == [r, s];
    CollidingOrder(p, q, r, s);
    SortOfTwo(p, q);
    SortOfTwo(r, s);
    CollidingBodies(p, q, r, s);
    assert p in multiset([p, q]) && p !in multiset([r, s]);
  }

  lemma CollidingOrder(p: Entry, q: Entry, r: Entry, s: Entry)
    requires p.name == "a@1|b" && q.name == "c" && r.name == "a" && s.name == "b@2|c"
    ensures !EntryLess(q, p) && !EntryLess(s, r)
  {
    assert !Less("c", "a@1|b") && !Less("b@2|c", "a");
  }

  lemma CollidingBodies(p: Entry, q: Entry, r: Entry, s: Entry)
    requires p == Entry("a" + "@1|b", 2) && q == Entry("c", 3) && r == Entry("a", 1) && s == Entry("b@2|" + "c", 3)
    ensures Body([p, q]) == Body([r, s])
  {
    assert Itoa(1) == ['1'] && Itoa(2) == ['2'] && Itoa(3) == ['3'];
    hide Itoa;
    BodyOfTwo(p, q);
    BodyOfTwo(r, s);
    assert Field(p) == "a@1|b@2" && Field(q) == "c@3" && Field(r) == "a@1" && Field(s) == "b@2|c@3";
  }

  lemma SortOfTwo(a: Entry, b: Entry)
    requires !EntryLess(b, a)
    ensures Sort(EntryLess, [a, b]) == [a, b]
  {
    assert [a, b][1..] == [b] && [b][1..] == [];
  }

  lemma BodyOfTwo(a: Entry, b: Entry)
    ensures Body([a, b]) == "|" + Field(a) + ("|" + Field(b))
  {
    assert [a, b][1..] == [b] && [b][1..] == [];
    assert Body([b]) == "|" + Field(b) + "";
  }
}
