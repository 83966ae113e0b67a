/** The replicated soft-state store: a last-writer-wins map with per-source sequence numbers and
    expiry. The functions say what each operation computes, the class performs it in place. */
module SoftKV {
  import opened Strings
  import opened Wrappers
  import opened Sorting

  datatype Entry = Entry(
    key: string,
    value: string,
    source: string,
    seqNo: nat,
    updatedAt: int,
    expiresAt: int,
    ingestedAt: int)

  datatype State = State(data: map<string, Entry>, seqOf: map<string, nat>)

  datatype PutError = InvalidKey | InvalidTTL

  const EMPTY := State(map[], map[])

  /** Clocks count nanoseconds; entries carry milliseconds (time.UnixMilli rounds down). */
  function Millis(now: int): int { now / 1_000_000 }

  /** A millisecond lasts a million nanoseconds. */
  lemma MillisecondsLast(now: int)
    ensures Millis(now) * 1_000_000 <= now < (Millis(now) + 1) * 1_000_000
  {}

  /** The conflict rule, clause by clause. */
  predicate ShouldAccept(current: Entry, incoming: Entry) {
    if current.source == incoming.source && incoming.seqNo != current.seqNo then
      incoming.seqNo > current.seqNo
    else if incoming.updatedAt != current.updatedAt then
      incoming.updatedAt > current.updatedAt
    else if incoming.source != current.source then
      Less(current.source, incoming.source)
    else
      incoming.seqNo > current.seqNo
  }

  // What each operation computes ---------------------------------------------------------------

  function SeqAt(st: State, source: string): nat {
    if source in st.seqOf then st.seqOf[source] else 0
  }

  function PutState(trim: string -> string, st: State, key: string, value: string,
                    now: int, ttl: int, source: string): (State, Result<Entry, PutError>)
  {
    var k := trim(key);
    if k == "" then (st, Err(InvalidKey))
    else if ttl <= 0 then (st, Err(InvalidTTL))
    else
      var n := SeqAt(st, source) + 1;
      var e := Entry(k, value, source, n, Millis(now), Millis(now + ttl), Millis(now));
      (State(st.data[k := e], st.seqOf[source := n]), Ok(e))
  }

  /** What a Put at clock `now` makes of its arguments. */
  ghost predicate IsPut(trim: string -> string, e: Entry, key: string, value: string, now: int, ttl: int,
                        source: string)
  {
    && e.key == trim(key) && e.value == value && e.source == source
    && e.updatedAt == Millis(now) && e.ingestedAt == Millis(now) && e.expiresAt == Millis(now + ttl)
  }

  function GetState(trim: string -> string, st: State, key: string, now: int): Option<Entry> {
    var k := trim(key);
    if k == "" || k !in st.data || st.data[k].expiresAt <= Millis(now) then None
    else Some(st.data[k])
  }

  function Install(st: State, e: Entry): State {
    State(st.data[e.key := e],
          if e.source != "" && e.seqNo > SeqAt(st, e.source) then st.seqOf[e.source := e.seqNo]
          else st.seqOf)
  }

  /** What Merge checks before it takes the lock. */
  predicate Admits(trim: string -> string, e: Entry, now: int) { trim(e.key) != "" && e.expiresAt > Millis(now) }

  /** What it does under the lock: the clock is read once more, for the arrival stamp only. */
  function MergeLocked(st: State, e: Entry, now: int): (State, bool) {
    if e.key !in st.data || ShouldAccept(st.data[e.key], e) then (Install(st, e.(ingestedAt := Millis(now))), true)
    else (st, false)
  }

  /** A whole Merge as seen from its critical section: `checkAt` is the clock reading it came with, which
      may be older than anything that happened to the store since. */
  function MergeState(trim: string -> string, st: State, e: Entry, checkAt: int, ingestAt: int): (State, bool) {
    if Admits(trim, e, checkAt) then MergeLocked(st, e, ingestAt) else (st, false)
  }

  function CollectState(st: State, now: int): State {
    State(map k | k in st.data && st.data[k].expiresAt > Millis(now) :: st.data[k], st.seqOf)
  }

  function LiveEntries(st: State, prefix: string, now: int): set<Entry> {
    set k | k in st.data && st.data[k].expiresAt > Millis(now) && prefix <= st.data[k].key :: st.data[k]
  }

  ghost predicate StartsWith(key: string, prefix: string) { |prefix| <= |key| && key[..|prefix|] == prefix }

  lemma LiveEntriesAre(st: State, prefix: string, now: int, items: seq<Entry>)
    requires Keyed(st) && IsListing(items, LiveEntries(st, prefix, now))
    ensures forall e :: e in items <==>
              e.key in st.data && st.data[e.key] == e && e.expiresAt > Millis(now) && StartsWith(e.key, prefix)
  {
    hide Less, Millis;
  }

  /** Every entry is filed under its own key. */
  ghost predicate Keyed(st: State) {
    forall k :: k in st.data ==> st.data[k].key == k
  }

  predicate KeyLess(a: Entry, b: Entry) { Less(a.key, b.key) }

  /** A listing is determined by the set it lists: strictly ascending keys, nothing else. */
  ghost predicate IsListing(items: seq<Entry>, live: set<Entry>) {
    && (forall i, j :: 0 <= i < j < |items| ==> Less(items[i].key, items[j].key))
    && (forall e :: e in items <==> e in live)
  }

  lemma {:induction false} ListingUnique(a: seq<Entry>, b: seq<Entry>, live: set<Entry>)
    requires IsListing(a, live) && IsListing(b, live)
    ensures a == b
  {
    assert |a| > 0 ==> a[0] in b;
    assert |b| > 0 ==> b[0] in a;
    if a != [] && b != [] {
      ListingsStartAlike(a, b, live);
      RestIsListing(a, live);
      RestIsListing(b, live);
      ListingUnique(a[1..], b[1..], live - {a[0]});
      assert a == [a[0]] + a[1..] && b == [b[0]] + b[1..];
    }
  }

  lemma ListingsStartAlike(a: seq<Entry>, b: seq<Entry>, live: set<Entry>)
    requires IsListing(a, live) && IsListing(b, live) && a != [] && b != []
    ensures a[0] == b[0]
  {
    hide Less;
    assert a[0] in live && b[0] in live;
    var i :| 0 <= i < |b| && b[i] == a[0];
    var j :| 0 <= j < |a| && a[j] == b[0];
    if i > 0 && j > 0 {
      LessAsymmetric(a[0].key, a[j].key);
    }
  }

  lemma RestIsListing(a: seq<Entry>, live: set<Entry>)
    requires IsListing(a, live) && a != []
    ensures IsListing(a[1..], live - {a[0]})
  {
    hide Less;
    LessIrreflexive(a[0].key);
    forall e ensures e in a[1..] <==> e in live - {a[0]} {
      if e in live && e != a[0] {
        var i :| 0 <= i < |a| && a[i] == e;
        assert a[1..][i - 1] == e;
      }
      if e in a[1..] {
        var i :| 0 <= i < |a| - 1 && a[1..][i] == e;
        assert a[i + 1] == e && e in a;
      }
    }
  }

  lemma KeyLessIsWeakOrder()
    ensures WeakOrder(KeyLess)
  {
    forall x: Entry ensures !KeyLess(x, x) { LessIrreflexive(x.key); }
    forall x: Entry, y: Entry, z: Entry | KeyLess(x, y) && KeyLess(y, z)
      ensures KeyLess(x, z)
    {
      LessTransitive(x.key, y.key, z.key);
    }
    forall x: Entry, y: Entry, z: Entry | !KeyLess(x, y) && !KeyLess(y, z)
      ensures !KeyLess(x, z)
    {
      LessTotal(x.key, y.key);
      LessTotal(y.key, z.key);
      if Less(z.key, y.key) && Less(y.key, x.key) { LessTransitive(z.key, y.key, x.key); }
      if KeyLess(x, z) { LessAsymmetric(x.key, z.key); }
    }
  }

  lemma SortedByKeyIsListing(items: seq<Entry>, live: set<Entry>)
    requires Sorted(KeyLess, items)
    requires forall e :: e in items <==> e in live
    requires forall i, j :: 0 <= i < j < |items| ==> items[i].key != items[j].key
    ensures IsListing(items, live)
  {
    forall i, j | 0 <= i < j < |items|
      ensures Less(items[i].key, items[j].key)
    {
      LessTotal(items[i].key, items[j].key);
    }
  }

  // The store object ---------------------------------------------------------------------------

  class Store {
    const trim: string -> string
    var data: map<string, Entry>
    var seqOf: map<string, nat>

    function Current(): State
      reads this
    {
      State(data, seqOf)
    }

    constructor (trim: string -> string)
      ensures this.trim == trim && Current() == EMPTY
    {
      this.trim := trim;
      data, seqOf := map[], map[];
    }

    method Put(key: string, value: string, now: int, ttl: int, source: string)
      returns (r: Result<Entry, PutError>)
      modifies this
      ensures (Current(), r) == PutState(trim, old(Current()), key, value, now, ttl, source)
      ensures r.Ok? <==> trim(key) != "" && ttl > 0
      ensures r.Ok? ==> IsPut(trim, r.value, key, value, now, ttl, source)
                        && r.value.seqNo == (if source in old(seqOf) then old(seqOf)[source] else 0) + 1
                        && data == old(data)[trim(key) := r.value] && seqOf == old(seqOf)[source := r.value.seqNo]
      ensures r.Err? ==> r.error == (if trim(key) == "" then InvalidKey else InvalidTTL)
                         && data == old(data) && seqOf == old(seqOf)
    {
      var k := trim(key);
      if k == "" {
        return Err(InvalidKey);
      }
      if ttl <= 0 {
        return Err(InvalidTTL);
      }
      seqOf := seqOf[source := (if source in seqOf then seqOf[source] else 0) + 1];
      var e := Entry(k, value, source, seqOf[source], Millis(now), Millis(now + ttl), Millis(now));
      data := data[k := e];
      r := Ok(e);
    }

    method Get(key: string, now: int) returns (r: Option<Entry>)
      ensures r == GetState(trim, Current(), key, now)
    {
      var k := trim(key);
      if k == "" || k !in data {
        return None;
      }
      var e := data[k];
      r := if e.expiresAt <= Millis(now) then None else Some(e);
    }

    method List(prefix: string, now: int) returns (items: seq<Entry>)
      requires Keyed(Current())
      ensures IsListing(items, LiveEntries(Current(), trim(prefix), now))
      ensures forall e :: e in items <==>
                e.key in data && data[e.key] == e && e.expiresAt > Millis(now) && StartsWith(e.key, trim(prefix))
    {
      hide Less, Millis, IsListing, StartsWith;
      var p := trim(prefix);
      items := [];
      var keys := data.Keys;
      while keys != {}
        invariant keys <= data.Keys
        invariant forall e :: e in items <==>
          exists k :: k in data.Keys - keys && data[k] == e && e.expiresAt > Millis(now) && p <= e.key
        invariant forall i, j :: 0 <= i < j < |items| ==> items[i].key != items[j].key
        decreases keys
      {
        var k :| k in keys;
        if data[k].expiresAt > Millis(now) && p <= data[k].key {
          items := items + [data[k]];
        }
        keys := keys - {k};
      }
      KeyLessIsWeakOrder();
      SortSorted(KeyLess, items);
      ghost var unsorted := items;
      items := Sort(KeyLess, items);
      KeysStayApart(unsorted, items);
      forall e
        ensures e in items <==> e in LiveEntries(Current(), p, now)
      {
        assert e in items <==> e in multiset(items);
        assert e in unsorted <==> e in multiset(unsorted);
      }
      SortedByKeyIsListing(items, LiveEntries(Current(), p, now));
      LiveEntriesAre(Current(), p, now, items);
    }

    /** The critical section of Merge. Other operations may run between the check and this. */
    method MergeUnderLock(incoming: Entry, now: int) returns (accepted: bool)
      modifies this
      ensures (Current(), accepted) == MergeLocked(old(Current()), incoming, now)
    {
      var stamped := incoming.(ingestedAt := Millis(now));
      if stamped.key !in data || ShouldAccept(data[stamped.key], stamped) {
        data := data[stamped.key := stamped];
        if stamped.source != "" && stamped.seqNo > (if stamped.source in seqOf then seqOf[stamped.source] else 0) {
          seqOf := seqOf[stamped.source := stamped.seqNo];
        }
        return true;
      }
      return false;
    }

    method Merge(incoming: Entry, checkAt: int, ingestAt: int) returns (accepted: bool)
      modifies this
      ensures (Current(), accepted) == MergeState(trim, old(Current()), incoming, checkAt, ingestAt)
      ensures accepted <==> trim(incoming.key) != "" && incoming.expiresAt > Millis(checkAt)
                            && (incoming.key in old(data) ==> ShouldAccept(old(data)[incoming.key], incoming))
      ensures accepted ==> data == old(data)[incoming.key := incoming.(ingestedAt := Millis(ingestAt))]
                           && forall s :: SeqAt(Current(), s) ==
                                if s == incoming.source && s != "" && incoming.seqNo > SeqAt(old(Current()), s)
                                then incoming.seqNo else SeqAt(old(Current()), s)
      ensures !accepted ==> data == old(data) && seqOf == old(seqOf)
    {
      if trim(incoming.key) == "" || incoming.expiresAt <= Millis(checkAt) {
        return false;
      }
      accepted := MergeUnderLock(incoming, ingestAt);
    }

    method DeleteExpired(now: int) returns (deleted: nat)
      modifies this
      ensures Current() == CollectState(old(Current()), now)
      ensures deleted == |old(data)| - |data|
    {
      deleted := 0;
      var keys := data.Keys;
      while keys != {}
        invariant keys <= old(data).Keys
        invariant seqOf == old(seqOf)
        invariant data == map k | k in old(data) && (k in keys || old(data)[k].expiresAt > Millis(now)) :: old(data)[k]
        invariant deleted == |old(data)| - |data|
        decreases keys
      {
        var k :| k in keys;
        keys := keys - {k};
        if data[k].expiresAt <= Millis(now) {
          ghost var before := data;
          data := data - {k};
          assert before.Keys == data.Keys + {k};
          deleted := deleted + 1;
        }
      }
    }
  }

  lemma KeysStayApart(items: seq<Entry>, r: seq<Entry>)
    requires forall i, j :: 0 <= i < j < |items| ==> items[i].key != items[j].key
    requires multiset(r) == multiset(items)
    ensures forall i, j :: 0 <= i < j < |r| ==> r[i].key != r[j].key
  {
    forall i, j | 0 <= i < j < |r|
      ensures r[i].key != r[j].key
    {
      if r[i].key == r[j].key {
        assert r[i] in multiset(items) && r[j] in multiset(items);
        TwiceInMultiset(r, i, j);
        OnceInMultiset(items, r[i]);
      }
    }
  }

  lemma TwiceInMultiset(s: seq<Entry>, i: nat, j: nat)
    requires i < j < |s| && s[i] == s[j]
    ensures multiset(s)[s[i]] >= 2
  {
    assert s == s[..j] + [s[j]] + s[j + 1..];
    assert s[i] in s[..j];
  }

  lemma OnceInMultiset(s: seq<Entry>, e: Entry)
    requires forall i, j :: 0 <= i < j < |s| ==> s[i].key != s[j].key
    ensures multiset(s)[e] <= 1
  {
    if s != [] {
      assert s == s[..|s| - 1] + [s[|s| - 1]];
      OnceInMultiset(s[..|s| - 1], e);
      if s[|s| - 1] == e {
        assert e !in s[..|s| - 1];
      }
    }
  }
}
