/** Service configurations in a revisioned key-value store, written by many clients at once. */
module Registry {
  import opened Strings
  import opened Wrappers
  import opened ServiceModel

  datatype Versioned = Versioned(value: ServiceConfig, modRev: nat)

  datatype Event = Write(key: string, value: ServiceConfig) | Remove(key: string)

  /** The store: current pairs and, for the proofs, every event so far. The revision of an event is
      its position plus one, so the number of events is the store's revision. */
  datatype Kv = Kv(data: map<string, Versioned>, log: seq<Event>)

  const NO_DATA := Kv(map[], [])

  const PREFIX := "/mesh/services/"

  function ServiceKey(text: Text, name: string): string { PREFIX + text.trim(name) }

  /** Revision of a key as a transaction compares it: zero when the key is absent. */
  function ModRevision(kv: Kv, key: string): nat { if key in kv.data then kv.data[key].modRev else 0 }

  function KvPut(kv: Kv, key: string, value: ServiceConfig): Kv {
    Kv(kv.data[key := Versioned(value, |kv.log| + 1)], kv.log + [Write(key, value)])
  }

  function KvDelete(kv: Kv, key: string): Kv {
    if key in kv.data then Kv(kv.data - {key}, kv.log + [Remove(key)]) else kv
  }

  /** What gets stored: defaults filled in, no revision inside the payload. */
  function Payload(text: Text, c: ServiceConfig): ServiceConfig { WithDefaults(text, c).(resourceVersion := 0) }

  // Atomic steps. UpdateWithRevision is a Txn step followed, any number of steps later, by a Get. -------------

  datatype Step =
    | Put(config: ServiceConfig)
    | Txn(name: string, config: ServiceConfig, expected: int)
    | Delete(name: string)

  predicate Acceptable(text: Text, c: ServiceConfig) { Valid(text, WithDefaults(text, c)) }

  function Renamed(text: Text, c: ServiceConfig, name: string): ServiceConfig { c.(name := text.trim(name)) }

  predicate TxnSucceeds(text: Text, kv: Kv, name: string, c: ServiceConfig, rev: int) {
    && text.trim(name) != "" && Acceptable(text, Renamed(text, c, name))
    && ModRevision(kv, ServiceKey(text, text.trim(name))) == rev
  }

  function Apply(text: Text, kv: Kv, s: Step): Kv {
    match s
    case Put(c) => if Acceptable(text, c) then KvPut(kv, ServiceKey(text, c.name), Payload(text, c)) else kv
    case Txn(name, c, rev) =>
      if TxnSucceeds(text, kv, name, c, rev) then
        KvPut(kv, ServiceKey(text, text.trim(name)), Payload(text, Renamed(text, c, name)))
      else kv
    case Delete(name) => KvDelete(kv, ServiceKey(text, name))
  }

  function Run(text: Text, kv: Kv, steps: seq<Step>): Kv {
    if steps == [] then kv else Apply(text, Run(text, kv, steps[..|steps| - 1]), steps[|steps| - 1])
  }

  function Read(text: Text, kv: Kv, name: string): Option<ServiceConfig> {
    var key := ServiceKey(text, name);
    if key in kv.data then Some(kv.data[key].value.(resourceVersion := kv.data[key].modRev)) else None
  }

  // What the log says about the data -------------------------------------------------------------------------

  ghost predicate Untouched(log: seq<Event>, key: string, from: nat) {
    forall i :: from <= i < |log| ==> log[i].key != key
  }

  /** A present key holds the value of its last event; an absent key was removed last or never written. */
  ghost predicate KeyMatchesLog(text: Text, kv: Kv, key: string) {
    if key in kv.data then
      var v := kv.data[key];
      && 1 <= v.modRev <= |kv.log|
      && kv.log[v.modRev - 1] == Write(key, v.value)
      && Untouched(kv.log, key, v.modRev)
      && ServiceKey(text, v.value.name) == key
    else
      forall i :: 0 <= i < |kv.log| && kv.log[i].key == key && kv.log[i].Write? ==> !Untouched(kv.log, key, i + 1)
  }

  ghost predicate Inv(text: Text, kv: Kv) { forall key :: KeyMatchesLog(text, kv, key) }

  lemma PutKeepsInv(text: Text, kv: Kv, key: string, value: ServiceConfig)
    requires Inv(text, kv) && ServiceKey(text, value.name) == key
    ensures Inv(text, KvPut(kv, key, value))
  {
    hide ServiceKey;
    var kv' := KvPut(kv, key, value);
    forall k ensures KeyMatchesLog(text, kv', k) {
      assert KeyMatchesLog(text, kv, k);
      if k != key && k !in kv.data {
        forall i | 0 <= i < |kv'.log| && kv'.log[i].key == k && kv'.log[i].Write?
          ensures !Untouched(kv'.log, k, i + 1)
        {
          var j :| i + 1 <= j < |kv.log| && kv.log[j].key == k;
          assert kv'.log[j].key == k;
        }
      }
    }
  }

  lemma DeleteKeepsInv(text: Text, kv: Kv, key: string)
    requires Inv(text, kv)
    ensures Inv(text, KvDelete(kv, key))
  {
    hide ServiceKey;
    var kv' := KvDelete(kv, key);
    if key in kv.data {
      forall k ensures KeyMatchesLog(text, kv', k) {
        assert KeyMatchesLog(text, kv, k);
        if k !in kv'.data {
          forall i | 0 <= i < |kv'.log| && kv'.log[i].key == k && kv'.log[i].Write?
            ensures !Untouched(kv'.log, k, i + 1)
          {
            if k == key {
              assert kv'.log[|kv.log|].key == k;
            } else {
              var j :| i + 1 <= j < |kv.log| && kv.log[j].key == k;
              assert kv'.log[j].key == k;
            }
          }
        }
      }
    }
  }

  lemma {:induction false} RunKeepsInv(text: Text, kv: Kv, steps: seq<Step>)
    requires text.Laws() && Inv(text, kv)
    ensures Inv(text, Run(text, kv, steps))
    ensures kv.log <= Run(text, kv, steps).log
  {
    hide Inv, Acceptable, TxnSucceeds;
    if steps != [] {
      var before, s := Run(text, kv, steps[..|steps| - 1]), steps[|steps| - 1];
      RunKeepsInv(text, kv, steps[..|steps| - 1]);
      match s
      case Put(c) => PutKeepsInv(text, before, ServiceKey(text, c.name), Payload(text, c));
      case Txn(name, c, rev) =>
        PutKeepsInv(text, before, ServiceKey(text, text.trim(name)), Payload(text, Renamed(text, c, name)));
      case Delete(name) => DeleteKeepsInv(text, before, ServiceKey(text, name));
    }
  }

  lemma EmptyKvInv(text: Text)
    ensures Inv(text, NO_DATA)
  {}

  // What each operation leaves to read ------------------------------------------------------------------------

  /** The configuration as the client sent it, with blanks filled in, at a revision. */
  ghost predicate IsSent(text: Text, c: ServiceConfig, name: string, rev: nat, stored: ServiceConfig) {
    && stored.name == name && stored.resourceVersion == rev
    && stored.routes == WithDefaults(text, c).routes && stored.groups == WithDefaults(text, c).groups
    && stored.policy == WithDefaults(text, c).policy
  }

  ghost predicate OthersRead(text: Text, kv: Kv, kv': Kv, name: string) {
    forall other :: text.trim(other) != text.trim(name) ==> Read(text, kv', other) == Read(text, kv, other)
  }

  /** After any steps: a Put of an acceptable configuration is read back as sent under its name, at the next
      revision, and one that is not acceptable changes nothing. No other name reads differently. */
  lemma PutIsReadBack(text: Text, before: seq<Step>, c: ServiceConfig)
    ensures var kv, kv' := Run(text, NO_DATA, before), Run(text, NO_DATA, before + [Put(c)]);
            && (Valid(text, WithDefaults(text, c)) ==>
                  && Read(text, kv', c.name).Some?
                  && IsSent(text, c, c.name, |kv.log| + 1, Read(text, kv', c.name).value)
                  && |kv'.log| == |kv.log| + 1 && kv.log <= kv'.log && kv'.log[|kv.log|].Write?)
            && (!Valid(text, WithDefaults(text, c)) ==> kv' == kv)
            && OthersRead(text, kv, kv', c.name)
  {
    hide Run, Valid, WithDefaults;
    RunMore(text, before, Put(c));
    NameSurvives(text, c);
    KeysMean(text, c.name);
  }

  /** A successful update is read back under its name; any other changes nothing. */
  lemma UpdateIsReadBack(text: Text, before: seq<Step>, name: string, c: ServiceConfig, rev: int)
    requires text.Laws()
    ensures var kv, kv' := Run(text, NO_DATA, before), Run(text, NO_DATA, before + [Txn(name, c, rev)]);
            && (TxnSucceeds(text, kv, name, c, rev) ==>
                  && Read(text, kv', name).Some?
                  && IsSent(text, c, text.trim(name), |kv.log| + 1, Read(text, kv', name).value)
                  && |kv'.log| == |kv.log| + 1 && kv.log <= kv'.log && kv'.log[|kv.log|].Write?)
            && (!TxnSucceeds(text, kv, name, c, rev) ==> kv' == kv)
            && OthersRead(text, kv, kv', name)
  {
    hide Run, WithDefaults, TxnSucceeds;
    RunMore(text, before, Txn(name, c, rev));
    RenamedDefaults(text, c, name);
    assert ServiceKey(text, text.trim(name)) == ServiceKey(text, name);
    KeysMean(text, name);
  }

  lemma RunMore(text: Text, before: seq<Step>, s: Step)
    ensures Run(text, NO_DATA, before + [s]) == Apply(text, Run(text, NO_DATA, before), s)
  {
    hide Apply;
    assert (before + [s])[..|before|] == before;
  }

  lemma RenamedDefaults(text: Text, c: ServiceConfig, name: string)
    ensures var d, e := WithDefaults(text, Renamed(text, c, name)), WithDefaults(text, c);
            d.name == text.trim(name) && d.routes == e.routes && d.groups == e.groups && d.policy == e.policy
  {}

  /** After a Delete the name reads as absent; the log grows by one exactly when there was something. */
  lemma DeleteIsReadBack(text: Text, before: seq<Step>, name: string)
    ensures var kv, kv' := Run(text, NO_DATA, before), Run(text, NO_DATA, before + [Delete(name)]);
            && Read(text, kv', name).None?
            && (Read(text, kv, name).None? ==> kv' == kv)
            && (Read(text, kv, name).Some? ==>
                  |kv'.log| == |kv.log| + 1 && kv.log <= kv'.log && kv'.log[|kv.log|].Remove?)
            && OthersRead(text, kv, kv', name)
  {
    hide Run;
    RunMore(text, before, Delete(name));
    KeysMean(text, name);
  }

  lemma KeysMean(text: Text, name: string)
    ensures forall other :: ServiceKey(text, other) == ServiceKey(text, name) <==> text.trim(other) == text.trim(name)
  {
    forall other ensures ServiceKey(text, other) == ServiceKey(text, name) <==> text.trim(other) == text.trim(name) {
      assert ServiceKey(text, other)[|PREFIX|..] == text.trim(other);
      assert ServiceKey(text, name)[|PREFIX|..] == text.trim(name);
    }
  }

  /** A listing shows exactly what reading each name would. */
  lemma ListingShowsReads(text: Text, steps: seq<Step>, items: seq<ServiceConfig>)
    requires text.Laws() && IsListing(text, Run(text, NO_DATA, steps), items)
    ensures forall c :: c in items <==> Read(text, Run(text, NO_DATA, steps), c.name) == Some(c)
    ensures forall name :: Read(text, Run(text, NO_DATA, steps), name).Some? ==>
              Read(text, Run(text, NO_DATA, steps), name).value in items
  {
    hide ServiceKey, Run;
    var kv := Run(text, NO_DATA, steps);
    EmptyKvInv(text);
    RunKeepsInv(text, NO_DATA, steps);
    forall c ensures c in items <==> Read(text, kv, c.name) == Some(c) {
      if c in Items(kv) {
        var k :| k in kv.data && c == kv.data[k].value.(resourceVersion := kv.data[k].modRev);
        assert KeyMatchesLog(text, kv, k);
      }
    }
  }

  // No lost update ---------------------------------------------------------------------------------------------

  /** A client reads a configuration at revision r; any clients do anything; then an update expecting r
      goes through exactly when nothing touched the key in between. What it overwrites is then the very
      value that was read, and the configuration exists, so nothing deleted is created again. */
  lemma {:induction false} NoLostUpdate(text: Text, before: seq<Step>, between: seq<Step>, name: string,
                                        c: ServiceConfig)
    requires text.Laws()
    requires text.trim(name) != "" && Acceptable(text, Renamed(text, c, name))
    requires Read(text, Run(text, NO_DATA, before), name).Some?
    ensures var s := Run(text, NO_DATA, before);
            var t := Run(text, s, between);
            var read := Read(text, s, name).value;
            && read.resourceVersion > 0
            && s.log <= t.log
            && (TxnSucceeds(text, t, name, c, read.resourceVersion) <==>
                Untouched(t.log, ServiceKey(text, name), |s.log|))
            && (TxnSucceeds(text, t, name, c, read.resourceVersion) ==> Read(text, t, name) == Some(read))
  {
    hide Acceptable, WithDefaults, Renamed;
    var s := Run(text, NO_DATA, before);
    var t := Run(text, s, between);
    EmptyKvInv(text);
    RunKeepsInv(text, NO_DATA, before);
    RunKeepsInv(text, s, between);
    var key := ServiceKey(text, name);
    assert ServiceKey(text, text.trim(name)) == key;
    UpdateIffUntouched(text, s, t, key);
  }

  lemma UpdateIffUntouched(text: Text, s: Kv, t: Kv, key: string)
    requires Inv(text, s) && Inv(text, t) && s.log <= t.log && key in s.data
    ensures s.data[key].modRev > 0
    ensures ModRevision(t, key) == s.data[key].modRev <==> Untouched(t.log, key, |s.log|)
    ensures ModRevision(t, key) == s.data[key].modRev ==> key in t.data && t.data[key] == s.data[key]
  {
    hide ServiceKey;
    assert KeyMatchesLog(text, s, key);
    assert KeyMatchesLog(text, t, key);
    var r := s.data[key].modRev;
    assert t.log[r - 1] == s.log[r - 1];
    if Untouched(t.log, key, |s.log|) {
      forall i | r <= i < |t.log| ensures t.log[i].key != key {
        if i < |s.log| {
          assert t.log[i] == s.log[i];
        }
      }
    }
  }

  /** Expecting revision zero is the one way an update creates a configuration: it goes through exactly
      when there is none, whether it never existed or was deleted. */
  lemma {:induction false} ZeroRevisionCreates(text: Text, steps: seq<Step>, name: string, c: ServiceConfig, rev: int)
    requires text.Laws() && text.trim(name) != "" && Acceptable(text, Renamed(text, c, name))
    requires TxnSucceeds(text, Run(text, NO_DATA, steps), name, c, rev)
    ensures Read(text, Run(text, NO_DATA, steps), name).None? <==> rev <= 0
  {
    hide Acceptable, WithDefaults;
    EmptyKvInv(text);
    RunKeepsInv(text, NO_DATA, steps);
    var kv := Run(text, NO_DATA, steps);
    assert KeyMatchesLog(text, kv, ServiceKey(text, name));
  }

  /** What a successful update gives back, whatever other clients do before its closing read: the written
      configuration at its own revision exactly when nothing touched the key in between. Otherwise it is
      a later write of someone else, or not found, although the update went through. */
  lemma UpdateReturnsOwnIffUntouched(text: Text, before: seq<Step>, between: seq<Step>, name: string,
                                     c: ServiceConfig, rev: int)
    requires text.Laws() && TxnSucceeds(text, Run(text, NO_DATA, before), name, c, rev)
    ensures var s := Apply(text, Run(text, NO_DATA, before), Txn(name, c, rev));
            var t := Run(text, s, between);
            var own := Payload(text, Renamed(text, c, name)).(resourceVersion := |s.log|);
            && (Read(text, t, name) == Some(own) <==> Untouched(t.log, ServiceKey(text, name), |s.log|))
            && (Read(text, t, name) != Some(own) ==>
                  Read(text, t, name).None? || Read(text, t, name).value.resourceVersion > |s.log|)
  {
    hide Acceptable, WithDefaults, Inv, Run;
    var r := Run(text, NO_DATA, before);
    var s := Apply(text, r, Txn(name, c, rev));
    var t := Run(text, s, between);
    var key := ServiceKey(text, name);
    assert ServiceKey(text, text.trim(name)) == key;
    EmptyKvInv(text);
    RunKeepsInv(text, NO_DATA, before);
    NameSurvives(text, Renamed(text, c, name));
    PutKeepsInv(text, r, key, Payload(text, Renamed(text, c, name)));
    RunKeepsInv(text, s, between);
    UpdateIffUntouched(text, s, t, key);
    LaterIffDifferent(text, s, t, key);
  }

  lemma LaterIffDifferent(text: Text, s: Kv, t: Kv, key: string)
    requires Inv(text, s) && Inv(text, t) && s.log <= t.log && key in s.data && s.data[key].modRev == |s.log|
    ensures key in t.data ==> t.data[key].modRev >= |s.log|
    ensures key in t.data && t.data[key].modRev == |s.log| ==> t.data[key] == s.data[key]
  {
    hide ServiceKey;
    assert KeyMatchesLog(text, s, key);
    assert KeyMatchesLog(text, t, key);
    assert t.log[|s.log| - 1] == s.log[|s.log| - 1];
  }

  // Listings ---------------------------------------------------------------------------------------------------

  ghost function Items(kv: Kv): set<ServiceConfig> {
    set k | k in kv.data :: kv.data[k].value.(resourceVersion := kv.data[k].modRev)
  }

  /** All stored configurations, in ascending key order, each carrying its revision. */
  ghost predicate IsListing(text: Text, kv: Kv, items: seq<ServiceConfig>) {
    && (forall i, j :: 0 <= i < j < |items| ==> Less(ServiceKey(text, items[i].name), ServiceKey(text, items[j].name)))
    && (forall c :: c in items <==> c in Items(kv))
  }

  lemma {:induction false} ListingUnique(text: Text, a: seq<ServiceConfig>, b: seq<ServiceConfig>)
    requires forall i, j :: 0 <= i < j < |a| ==> Less(ServiceKey(text, a[i].name), ServiceKey(text, a[j].name))
    requires forall i, j :: 0 <= i < j < |b| ==> Less(ServiceKey(text, b[i].name), ServiceKey(text, b[j].name))
    requires forall c :: c in a <==> c in b
    ensures a == b
  {
    hide ServiceKey;
    assert |a| > 0 ==> a[0] in b;
    assert |b| > 0 ==> b[0] in a;
    if a != [] && b != [] {
      SameFirst(text, a, b);
      assert a == [a[0]] + a[1..] && b == [b[0]] + b[1..];
      TailMembers(text, a);
      TailMembers(text, b);
      ListingUnique(text, a[1..], b[1..]);
    }
  }

  lemma TailMembers(text: Text, a: seq<ServiceConfig>)
    requires a != []
    requires forall i, j :: 0 <= i < j < |a| ==> Less(ServiceKey(text, a[i].name), ServiceKey(text, a[j].name))
    ensures forall c :: c in a[1..] <==> c in a && c != a[0]
  {
    hide ServiceKey;
    LessIrreflexive(ServiceKey(text, a[0].name));
    forall c ensures c in a[1..] <==> c in a && c != a[0] {
      if c in a && c != a[0] {
        var i :| 0 <= i < |a| && a[i] == c;
        assert a[1..][i - 1] == c;
      }
      if c in a[1..] {
        var i :| 0 <= i < |a| - 1 && a[1..][i] == c;
        assert a[i + 1] == c;
      }
    }
  }

  lemma SameFirst(text: Text, a: seq<ServiceConfig>, b: seq<ServiceConfig>)
    requires a != [] && b != [] && a[0] in b && b[0] in a
    requires forall i, j :: 0 <= i < j < |a| ==> Less(ServiceKey(text, a[i].name), ServiceKey(text, a[j].name))
    requires forall i, j :: 0 <= i < j < |b| ==> Less(ServiceKey(text, b[i].name), ServiceKey(text, b[j].name))
    ensures a[0] == b[0]
  {
    hide ServiceKey;
    var i :| 0 <= i < |b| && b[i] == a[0];
    var j :| 0 <= j < |a| && a[j] == b[0];
    if i > 0 && j > 0 {
      LessAsymmetric(ServiceKey(text, b[0].name), ServiceKey(text, b[i].name));
    }
  }

  /** A revision names one write for ever: what a later listing shows at a revision an earlier one also
      showed is the same configuration. */
  lemma RevisionIdentifies(text: Text, s: Kv, t: Kv, x: ServiceConfig, y: ServiceConfig)
    requires Inv(text, s) && Inv(text, t) && s.log <= t.log
    requires x in Items(s) && y in Items(t) && x.resourceVersion == y.resourceVersion
    ensures x == y
  {
    hide ServiceKey;
    var k :| k in s.data && x == s.data[k].value.(resourceVersion := s.data[k].modRev);
    var l :| l in t.data && y == t.data[l].value.(resourceVersion := t.data[l].modRev);
    assert KeyMatchesLog(text, s, k);
    assert KeyMatchesLog(text, t, l);
    assert t.log[x.resourceVersion - 1] == s.log[x.resourceVersion - 1];
  }

  // The registry object ------------------------------------------------------------------------------------------

  datatype RegistryError = Rejected | NotFound | Conflict

  class Services {
    const text: Text
    var data: map<string, Versioned>
    var revision: nat
    ghost var log: seq<Event>

    ghost function State(): Kv
      reads this
    {
      Kv(data, log)
    }

    ghost predicate Consistent()
      reads this
    {
      revision == |log| && Inv(text, State())
    }

    constructor (text: Text)
      ensures this.text == text && State() == NO_DATA && Consistent()
    {
      this.text := text;
      data, revision, log := map[], 0, [];
    }

    method Put(c: ServiceConfig) returns (r: Result<(), RegistryError>)
      requires Consistent() && text.Laws()
      modifies this
      ensures Consistent() && State() == Apply(text, old(State()), Step.Put(c))
      ensures r.Ok? <==> Acceptable(text, c)
      ensures r.Ok? ==> revision == old(revision) + 1 && ServiceKey(text, c.name) in data
                        && data[ServiceKey(text, c.name)].modRev == revision
                        && IsSent(text, c, c.name, 0, data[ServiceKey(text, c.name)].value)
      ensures r.Err? ==> r.error == Rejected && data == old(data) && revision == old(revision)
      ensures forall k :: k != ServiceKey(text, c.name) ==>
                (k in data <==> k in old(data)) && (k in data ==> data[k] == old(data)[k])
    {
      hide Inv, Valid, ServiceKey;
      var d := ApplyDefaults(text, c);
      var ok := Validate(text, d);
      if !ok {
        return Err(Rejected);
      }
      var key := ServiceKey(text, d.name);
      PutKeepsInv(text, State(), key, Payload(text, c));
      revision := revision + 1;
      data := data[key := Versioned(d.(resourceVersion := 0), revision)];
      log := log + [Write(key, d.(resourceVersion := 0))];
      return Ok(());
    }

    method Get(name: string) returns (r: Result<ServiceConfig, RegistryError>)
      ensures r == match Read(text, State(), name) case Some(c) => Ok(c) case None => Err(NotFound)
    {
      var key := ServiceKey(text, name);
      if key !in data {
        return Err(NotFound);
      }
      return Ok(data[key].value.(resourceVersion := data[key].modRev));
    }

    /** With no other client in between, a successful update returns what it wrote, at its revision. */
    method UpdateWithRevision(name: string, c: ServiceConfig, expectedRev: int)
      returns (r: Result<ServiceConfig, RegistryError>)
      requires Consistent() && text.Laws()
      modifies this
      ensures Consistent() && State() == Apply(text, old(State()), Txn(name, c, expectedRev))
      ensures r.Ok? <==> TxnSucceeds(text, old(State()), name, c, expectedRev)
      ensures r.Ok? ==> revision == old(revision) + 1 && IsSent(text, c, text.trim(name), revision, r.value)
      ensures r.Err? ==> data == old(data) && revision == old(revision)
      ensures r == Err(NotFound) <==> text.trim(name) == ""
      ensures r == Err(Rejected) <==> text.trim(name) != "" && !Acceptable(text, Renamed(text, c, name))
    {
      hide Inv, Valid, WithDefaults;
      var trimmed := text.trim(name);
      if trimmed == "" {
        return Err(NotFound);
      }
      var d := ApplyDefaults(text, c.(name := trimmed));
      var ok := Validate(text, d);
      if !ok {
        return Err(Rejected);
      }
      var key := ServiceKey(text, trimmed);
      if (if key in data then data[key].modRev else 0) != expectedRev {
        return Err(Conflict);
      }
      NameSurvives(text, c.(name := trimmed));
      RenamedDefaults(text, c, name);
      PutKeepsInv(text, State(), key, Payload(text, Renamed(text, c, name)));
      revision := revision + 1;
      data := data[key := Versioned(d.(resourceVersion := 0), revision)];
      log := log + [Write(key, d.(resourceVersion := 0))];
      r := Get(trimmed);
    }

    /** `order` is the order in which the store returns a range: ascending by key. */
    method List(order: seq<string>) returns (items: seq<ServiceConfig>)
      requires Consistent()
      requires forall i, j :: 0 <= i < j < |order| ==> Less(order[i], order[j])
      requires forall k :: k in order <==> k in data
      ensures IsListing(text, State(), items)
    {
      hide ServiceKey, Less;
      items := [];
      for i := 0 to |order|
        invariant |items| == i
        invariant forall k :: 0 <= k < i ==>
                    items[k] == data[order[k]].value.(resourceVersion := data[order[k]].modRev)
      {
        var kv := data[order[i]];
        items := items + [kv.value.(resourceVersion := kv.modRev)];
      }
      forall i | 0 <= i < |items| ensures ServiceKey(text, items[i].name) == order[i] {
        assert KeyMatchesLog(text, State(), order[i]);
      }
      forall c ensures c in items <==> c in Items(State()) {
        if c in Items(State()) {
          var k :| k in data && c == data[k].value.(resourceVersion := data[k].modRev);
          var i :| 0 <= i < |order| && order[i] == k;
          assert items[i] == c;
        }
      }
    }

    method Delete(name: string) returns (r: Result<(), RegistryError>)
      requires Consistent()
      modifies this
      ensures Consistent() && State() == Apply(text, old(State()), Step.Delete(name))
      ensures r.Ok? <==> ServiceKey(text, name) in old(data)
      ensures r.Err? ==> r.error == NotFound
      ensures ServiceKey(text, name) !in data
      ensures forall k :: k != ServiceKey(text, name) ==>
                (k in data <==> k in old(data)) && (k in data ==> data[k] == old(data)[k])
    {
      hide Inv, ServiceKey;
      var key := ServiceKey(text, name);
      DeleteKeepsInv(text, State(), key);
      if key !in data {
        return Err(NotFound);
      }
      revision := revision + 1;
      data, log := data - {key}, log + [Remove(key)];
      return Ok(());
    }
  }

  lemma NameSurvives(text: Text, c: ServiceConfig)
    ensures Payload(text, c).name == c.name
  {}
}
