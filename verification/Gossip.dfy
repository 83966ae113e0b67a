/** Replication of the soft-state store between nodes, as a step system. The network may lose,
    duplicate, delay and reorder: it is a set of messages that is never emptied, from which any node
    may be handed any message at any time, or never. A merge is two steps, the check of the expiry
    and the installation under the lock; anything may happen in between. */
module Gossip {
  import opened Strings
  import opened Wrappers
  import opened SoftKV
  import opened SoftKVOrder

  /** `owner` names the only node that writes a key; `ttl` (nanoseconds) is the one TTL in use. */
  datatype Config = Config(trim: string -> string, owner: string -> string, ttl: int)

  /** `pending` holds the entries whose merges have passed the check and wait for the lock; `installed`
      records, per key, every version this replica ever installed, oldest first. */
  datatype Node = Node(store: State, clock: int, pending: multiset<Entry>, installed: map<string, seq<Entry>>)
  {
    function Log(k: string): seq<Entry> { if k in installed then installed[k] else [] }

    function Held(k: string): Option<Entry> { if k in store.data then Some(store.data[k]) else None }
  }

  datatype Message =
    | Broadcast(sender: string, entry: Entry)
    | StateItem(entry: Entry)

  /** `puts` records what each node ever Put, oldest first. */
  datatype System = System(nodes: map<string, Node>, net: set<Message>, puts: map<string, seq<Entry>>)

  /** Share and Sweep take a clock reading that may be older than their lock. */
  datatype Action =
    | Tick(node: string, now: int)
    | Publish(node: string, key: string, value: string)
    | Admit(node: string, msg: Message)
    | Settle(node: string, entry: Entry)
    | Share(node: string, at: int)
    | Sweep(node: string, at: int)

  function Later(a: int, b: int): int { if a < b then b else a }

  function Record(node: Node, e: Entry): map<string, seq<Entry>> {
    node.installed[e.key := node.Log(e.key) + [e]]
  }

  /** The merge of a pending entry gets the lock. */
  function Settled(node: Node, e: Entry): Node {
    var (store, accepted) := MergeLocked(node.store, e, node.clock);
    Node(store, node.clock, node.pending - multiset{e},
         if accepted then Record(node, e.(ingestedAt := Millis(node.clock))) else node.installed)
  }

  /** One step of one node. A step that is not enabled changes nothing. */
  function Apply(cfg: Config, s: System, a: Action): System {
    if a.node !in s.nodes || a.node !in s.puts then s else
    var n, node := a.node, s.nodes[a.node];
    match a
    case Tick(_, now) =>
      s.(nodes := s.nodes[n := node.(clock := Later(node.clock, now))])
    case Publish(_, key, value) =>
      if cfg.owner(cfg.trim(key)) != n then s else
      var (store, r) := PutState(cfg.trim, node.store, key, value, node.clock, cfg.ttl, n);
      if r.Err? then s else
      System(s.nodes[n := Node(store, node.clock, node.pending, Record(node, r.value))],
             s.net + {Broadcast(n, r.value)},
             s.puts[n := s.puts[n] + [r.value]])
    case Admit(_, msg) =>
      if msg !in s.net || (msg.Broadcast? && msg.sender == n) || !Admits(cfg.trim, msg.entry, node.clock) then s else
      s.(nodes := s.nodes[n := node.(pending := node.pending + multiset{msg.entry})])
    case Settle(_, e) =>
      if e !in node.pending then s else s.(nodes := s.nodes[n := Settled(node, e)])
    case Share(_, at) =>
      if at > node.clock then s else
      s.(net := s.net + set e | e in LiveEntries(node.store, "", at) :: StateItem(e))
    case Sweep(_, at) =>
      if at > node.clock then s else
      s.(nodes := s.nodes[n := node.(store := CollectState(node.store, at))])
  }

  function RunAll(cfg: Config, s: System, actions: seq<Action>): System {
    if actions == [] then s
    else Apply(cfg, RunAll(cfg, s, actions[..|actions| - 1]), actions[|actions| - 1])
  }

  ghost predicate Initial(s: System) {
    && s.net == {}
    && s.puts.Keys == s.nodes.Keys
    && "" !in s.nodes
    && forall n :: n in s.nodes ==>
         s.puts[n] == [] && s.nodes[n].store == EMPTY && s.nodes[n].pending == multiset{}
           && s.nodes[n].installed == map[]
  }

  // What holds in every reachable state ----------------------------------------------------------

  /** The entry is, up to its arrival stamp, one that the owner of its key once Put. */
  ghost predicate Authentic(cfg: Config, puts: map<string, seq<Entry>>, e: Entry) {
    && e.source == cfg.owner(e.key) && e.source in puts
    && 1 <= e.seqNo <= |puts[e.source]|
    && Strip(puts[e.source][e.seqNo - 1]) == Strip(e)
  }

  /** A source numbers its puts 1, 2, ..., and later puts expire no earlier. */
  ghost predicate InOrder(cfg: Config, n: string, puts: seq<Entry>) {
    && (forall i :: 0 <= i < |puts| ==> puts[i].seqNo == i + 1 && puts[i].source == n == cfg.owner(puts[i].key))
    && (forall i, j :: 0 <= i < j < |puts| ==> puts[i].expiresAt <= puts[j].expiresAt)
  }

  ghost predicate PutsInOrder(cfg: Config, puts: map<string, seq<Entry>>) {
    forall n :: n in puts ==> InOrder(cfg, n, puts[n])
  }

  /** A version that is not above all installed before it had expired when it was installed. */
  ghost predicate RisesUnlessLate(log: seq<Entry>) {
    forall i, j :: 0 <= i < j < |log| ==> log[i].seqNo < log[j].seqNo || log[j].expiresAt <= log[j].ingestedAt
  }

  /** A live version, once installed, is held or something newer is. */
  ghost predicate LiveCovered(clock: int, held: Option<Entry>, log: seq<Entry>) {
    forall i :: 0 <= i < |log| && log[i].expiresAt > Millis(clock) ==> held.Some? && log[i].seqNo <= held.value.seqNo
  }

  ghost predicate KeyOk(cfg: Config, puts: map<string, seq<Entry>>, clock: int,
                        k: string, held: Option<Entry>, log: seq<Entry>)
  {
    && RisesUnlessLate(log)
    && (forall i :: 0 <= i < |log| ==> log[i].key == k && Authentic(cfg, puts, log[i]))
    && (held.Some? ==> log != [] && held.value == log[|log| - 1])
    && LiveCovered(clock, held, log)
  }

  ghost predicate NodeOk(cfg: Config, puts: map<string, seq<Entry>>, n: string, node: Node) {
    && n in puts && n != ""
    && SeqAt(node.store, n) == |puts[n]|
    && (forall i :: 0 <= i < |puts[n]| ==> puts[n][i].expiresAt <= Millis(node.clock + cfg.ttl))
    && (forall e :: e in node.pending ==> Authentic(cfg, puts, e))
    && (forall k :: KeyOk(cfg, puts, node.clock, k, node.Held(k), node.Log(k)))
  }

  ghost predicate Inv(cfg: Config, s: System) {
    && s.puts.Keys == s.nodes.Keys
    && PutsInOrder(cfg, s.puts)
    && (forall m :: m in s.net ==> Authentic(cfg, s.puts, m.entry))
    && (forall n :: n in s.nodes ==> NodeOk(cfg, s.puts, n, s.nodes[n]))
  }

  /** Two versions of one key: the sequence number decides identity and expiry. */
  lemma VersionsCompare(cfg: Config, puts: map<string, seq<Entry>>, a: Entry, b: Entry)
    requires Authentic(cfg, puts, a) && Authentic(cfg, puts, b) && a.key == b.key && PutsInOrder(cfg, puts)
    ensures a.source == b.source
    ensures a.seqNo == b.seqNo ==> Strip(a) == Strip(b)
    ensures a.seqNo <= b.seqNo ==> a.expiresAt <= b.expiresAt
    ensures b.seqNo <= a.seqNo ==> b.expiresAt <= a.expiresAt
  {
    assert InOrder(cfg, a.source, puts[a.source]);
    assert Strip(puts[a.source][a.seqNo - 1]).expiresAt == a.expiresAt;
    assert Strip(puts[a.source][b.seqNo - 1]).expiresAt == b.expiresAt;
  }

  /** Between versions of one key the conflict rule compares sequence numbers. */
  lemma AcceptIsHigher(cfg: Config, puts: map<string, seq<Entry>>, a: Entry, b: Entry)
    requires Authentic(cfg, puts, a) && Authentic(cfg, puts, b) && a.key == b.key && PutsInOrder(cfg, puts)
    ensures ShouldAccept(a, b) <==> a.seqNo < b.seqNo
  {
    VersionsCompare(cfg, puts, a, b);
    if a.seqNo == b.seqNo {
      assert Strip(a).updatedAt == a.updatedAt && Strip(b).updatedAt == b.updatedAt;
    }
  }

  lemma KeyLater(cfg: Config, puts: map<string, seq<Entry>>, puts': map<string, seq<Entry>>,
                 clock: int, clock': int, k: string, held: Option<Entry>, log: seq<Entry>)
    requires KeyOk(cfg, puts, clock, k, held, log) && clock <= clock'
    requires forall n :: n in puts ==> n in puts' && puts[n] <= puts'[n]
    ensures KeyOk(cfg, puts', clock', k, held, log)
  {}

  /** Installing a version that is above the one held, if one is held, whatever was collected before. */
  lemma KeyInstalls(cfg: Config, puts: map<string, seq<Entry>>, clock: int, k: string, held: Option<Entry>,
                    log: seq<Entry>, e: Entry)
    requires KeyOk(cfg, puts, clock, k, held, log) && PutsInOrder(cfg, puts)
    requires e.key == k && Authentic(cfg, puts, e) && e.ingestedAt == Millis(clock)
    requires held.Some? ==> held.value.seqNo < e.seqNo
    ensures KeyOk(cfg, puts, clock, k, Some(e), log + [e])
  {
    hide Authentic, PutsInOrder;
    forall i | 0 <= i < |log| ensures log[i].seqNo < e.seqNo || e.expiresAt <= Millis(clock) {
      VersionsCompare(cfg, puts, log[i], e);
    }
  }

  // Steps keep it --------------------------------------------------------------------------------

  /** What a Put by the owner looks like. */
  ghost predicate IsNextPut(cfg: Config, puts: map<string, seq<Entry>>, n: string, clock: int, e: Entry) {
    && n in puts && e.source == n == cfg.owner(e.key) && e.ingestedAt == Millis(clock)
    && e.seqNo == |puts[n]| + 1 && e.expiresAt == Millis(clock + cfg.ttl)
  }

  lemma PutIsAuthentic(cfg: Config, puts: map<string, seq<Entry>>, n: string, clock: int, e: Entry)
    requires IsNextPut(cfg, puts, n, clock, e)
    ensures Authentic(cfg, puts[n := puts[n] + [e]], e)
    ensures forall x :: Authentic(cfg, puts, x) ==> Authentic(cfg, puts[n := puts[n] + [e]], x)
    ensures forall x :: Authentic(cfg, puts, x) && x.key == e.key ==> x.seqNo < e.seqNo
  {}

  lemma PutsStayInOrder(cfg: Config, puts: map<string, seq<Entry>>, n: string, node: Node, e: Entry)
    requires IsNextPut(cfg, puts, n, node.clock, e) && PutsInOrder(cfg, puts) && NodeOk(cfg, puts, n, node)
    ensures PutsInOrder(cfg, puts[n := puts[n] + [e]])
  {
    hide KeyOk;
    assert InOrder(cfg, n, puts[n]);
    assert InOrder(cfg, n, puts[n] + [e]);
  }

  function Published(node: Node, n: string, e: Entry): Node {
    Node(State(node.store.data[e.key := e], node.store.seqOf[n := e.seqNo]), node.clock, node.pending, Record(node, e))
  }

  lemma PublishKeepsNode(cfg: Config, puts: map<string, seq<Entry>>, n: string, node: Node, e: Entry)
    requires NodeOk(cfg, puts, n, node) && IsNextPut(cfg, puts, n, node.clock, e) && PutsInOrder(cfg, puts)
    ensures NodeOk(cfg, puts[n := puts[n] + [e]], n, Published(node, n, e))
  {
    hide KeyOk, PutsInOrder, Authentic;
    PutIsAuthentic(cfg, puts, n, node.clock, e);
    PutsStayInOrder(cfg, puts, n, node, e);
    forall k
      ensures KeyOk(cfg, puts[n := puts[n] + [e]], node.clock, k, Published(node, n, e).Held(k),
                    Published(node, n, e).Log(k))
    {
      PublishKeepsKey(cfg, puts, n, node, e, k);
    }
  }

  lemma PublishKeepsKey(cfg: Config, puts: map<string, seq<Entry>>, n: string, node: Node, e: Entry, k: string)
    requires KeyOk(cfg, puts, node.clock, k, node.Held(k), node.Log(k)) && IsNextPut(cfg, puts, n, node.clock, e)
    requires PutsInOrder(cfg, puts[n := puts[n] + [e]])
    ensures KeyOk(cfg, puts[n := puts[n] + [e]], node.clock, k, Published(node, n, e).Held(k),
                  Published(node, n, e).Log(k))
  {
    var puts' := puts[n := puts[n] + [e]];
    KeyLater(cfg, puts, puts', node.clock, node.clock, k, node.Held(k), node.Log(k));
    if k == e.key {
      PutIsAuthentic(cfg, puts, n, node.clock, e);
      KeyInstalls(cfg, puts', node.clock, k, node.Held(k), node.Log(k), e);
    }
  }

  lemma PublishKeepsInv(cfg: Config, s: System, n: string, e: Entry)
    requires Inv(cfg, s) && n in s.nodes && IsNextPut(cfg, s.puts, n, s.nodes[n].clock, e)
    ensures Inv(cfg, System(s.nodes[n := Published(s.nodes[n], n, e)], s.net + {Broadcast(n, e)},
                            s.puts[n := s.puts[n] + [e]]))
  {
    hide NodeOk, Authentic, IsNextPut, PutsInOrder;
    var puts' := s.puts[n := s.puts[n] + [e]];
    PublishKeepsNode(cfg, s.puts, n, s.nodes[n], e);
    PutsStayInOrder(cfg, s.puts, n, s.nodes[n], e);
    PutIsAuthentic(cfg, s.puts, n, s.nodes[n].clock, e);
    forall m | m in s.nodes && m != n ensures NodeOk(cfg, puts', m, s.nodes[m]) {
      OthersKeep(cfg, s.puts, puts', m, s.nodes[m]);
    }
  }

  lemma OthersKeep(cfg: Config, puts: map<string, seq<Entry>>, puts': map<string, seq<Entry>>, m: string, node: Node)
    requires NodeOk(cfg, puts, m, node)
    requires forall n :: n in puts ==> n in puts' && puts[n] <= puts'[n]
    requires puts'[m] == puts[m]
    ensures NodeOk(cfg, puts', m, node)
  {
    hide KeyOk;
    forall k ensures KeyOk(cfg, puts', node.clock, k, node.Held(k), node.Log(k)) {
      KeyLater(cfg, puts, puts', node.clock, node.clock, k, node.Held(k), node.Log(k));
    }
  }

  /** Time passes, expired entries go, and merges pass the check. */
  lemma QuietKeepsNode(cfg: Config, puts: map<string, seq<Entry>>, n: string, node: Node, node': Node, at: int)
    requires NodeOk(cfg, puts, n, node) && PutsInOrder(cfg, puts)
    requires node.clock <= node'.clock && at <= node'.clock && node'.installed == node.installed
    requires forall e :: e in node'.pending ==> Authentic(cfg, puts, e)
    requires node'.store == node.store || node'.store == CollectState(node.store, at)
    ensures NodeOk(cfg, puts, n, node')
  {
    hide KeyOk, PutsInOrder, Authentic;
    forall k ensures KeyOk(cfg, puts, node'.clock, k, node'.Held(k), node'.Log(k)) {
      QuietKeepsKey(cfg, puts, node, node', at, k);
    }
  }

  lemma QuietKeepsKey(cfg: Config, puts: map<string, seq<Entry>>, node: Node, node': Node, at: int, k: string)
    requires KeyOk(cfg, puts, node.clock, k, node.Held(k), node.Log(k)) && PutsInOrder(cfg, puts)
    requires node.clock <= node'.clock && at <= node'.clock && node'.installed == node.installed
    requires node'.store == node.store || node'.store == CollectState(node.store, at)
    ensures KeyOk(cfg, puts, node'.clock, k, node'.Held(k), node'.Log(k))
  {
    hide Authentic, PutsInOrder;
    var log := node.Log(k);
    if node.Held(k).Some? {
      forall i | 0 <= i < |log| && log[i].seqNo <= node.Held(k).value.seqNo
        ensures log[i].expiresAt <= node.Held(k).value.expiresAt
      {
        VersionsCompare(cfg, puts, log[i], node.Held(k).value);
      }
    }
  }

  lemma SettleKeepsKey(cfg: Config, puts: map<string, seq<Entry>>, node: Node, e: Entry, k: string)
    requires KeyOk(cfg, puts, node.clock, k, node.Held(k), node.Log(k))
    requires Authentic(cfg, puts, e) && PutsInOrder(cfg, puts)
    ensures KeyOk(cfg, puts, node.clock, k, Settled(node, e).Held(k), Settled(node, e).Log(k))
  {
    hide PutsInOrder;
    if k == e.key && MergeLocked(node.store, e, node.clock).1 {
      var stamped := e.(ingestedAt := Millis(node.clock));
      assert Strip(stamped) == Strip(e);
      if node.Held(k).Some? {
        AcceptIsHigher(cfg, puts, node.Held(k).value, e);
      }
      KeyInstalls(cfg, puts, node.clock, k, node.Held(k), node.Log(k), stamped);
    }
  }

  lemma SettleKeepsNode(cfg: Config, puts: map<string, seq<Entry>>, n: string, node: Node, e: Entry)
    requires NodeOk(cfg, puts, n, node) && e in node.pending && PutsInOrder(cfg, puts)
    ensures NodeOk(cfg, puts, n, Settled(node, e))
  {
    hide KeyOk, PutsInOrder;
    forall k ensures KeyOk(cfg, puts, node.clock, k, Settled(node, e).Held(k), Settled(node, e).Log(k)) {
      SettleKeepsKey(cfg, puts, node, e, k);
    }
  }

  lemma OneNodeKeepsInv(cfg: Config, s: System, n: string, node': Node)
    requires Inv(cfg, s) && n in s.nodes && NodeOk(cfg, s.puts, n, node')
    ensures Inv(cfg, s.(nodes := s.nodes[n := node']))
  {
    hide NodeOk, Authentic, PutsInOrder;
  }

  lemma PendingIsAuthentic(cfg: Config, s: System, n: string)
    requires Inv(cfg, s) && n in s.nodes
    ensures NodeOk(cfg, s.puts, n, s.nodes[n]) && PutsInOrder(cfg, s.puts)
    ensures forall e :: e in s.nodes[n].pending ==> Authentic(cfg, s.puts, e)
    ensures forall m :: m in s.net ==> Authentic(cfg, s.puts, m.entry)
  {
    hide KeyOk, Authentic, PutsInOrder;
    assert NodeOk(cfg, s.puts, n, s.nodes[n]);
  }

  lemma SharedAreAuthentic(cfg: Config, puts: map<string, seq<Entry>>, n: string, node: Node, at: int)
    requires NodeOk(cfg, puts, n, node)
    ensures forall e :: e in LiveEntries(node.store, "", at) ==> Authentic(cfg, puts, e)
  {
    hide Authentic;
    forall e | e in LiveEntries(node.store, "", at) ensures Authentic(cfg, puts, e) {
      var k :| k in node.store.data && node.store.data[k] == e;
      assert KeyOk(cfg, puts, node.clock, k, node.Held(k), node.Log(k));
    }
  }

  lemma ShareKeepsInv(cfg: Config, s: System, n: string, at: int)
    requires Inv(cfg, s) && n in s.nodes
    ensures Inv(cfg, Apply(cfg, s, Share(n, at)))
  {
    hide PutsInOrder, NodeOk, Authentic, LiveEntries;
    SharedAreAuthentic(cfg, s.puts, n, s.nodes[n], at);
  }

  lemma StepKeepsInv(cfg: Config, s: System, a: Action)
    requires Inv(cfg, s)
    ensures Inv(cfg, Apply(cfg, s, a))
  {
    hide Inv, NodeOk, PutsInOrder, Authentic, CollectState, Settled, LiveEntries;
    SamePlaces(cfg, s);
    if a.node in s.nodes {
      var n, node := a.node, s.nodes[a.node];
      PendingIsAuthentic(cfg, s, n);
      match a
      case Publish(_, key, value) =>
        if cfg.owner(cfg.trim(key)) == n && PutState(cfg.trim, node.store, key, value, node.clock, cfg.ttl, n).1.Ok? {
          PutIsNext(cfg, s, n, key, value);
          PublishKeepsInv(cfg, s, n, PutState(cfg.trim, node.store, key, value, node.clock, cfg.ttl, n).1.value);
        }
      case Admit(_, msg) =>
        if msg in s.net {
          var node' := node.(pending := node.pending + multiset{msg.entry});
          QuietKeepsNode(cfg, s.puts, n, node, node', node.clock);
          OneNodeKeepsInv(cfg, s, n, node');
        }
      case Settle(_, e) =>
        if e in node.pending {
          SettleKeepsNode(cfg, s.puts, n, node, e);
          OneNodeKeepsInv(cfg, s, n, Settled(node, e));
        }
      case Tick(_, now) =>
        var node' := node.(clock := Later(node.clock, now));
        QuietKeepsNode(cfg, s.puts, n, node, node', node.clock);
        OneNodeKeepsInv(cfg, s, n, node');
      case Share(_, at) => ShareKeepsInv(cfg, s, n, at);
      case Sweep(_, at) =>
        if at <= node.clock {
          var node' := node.(store := CollectState(node.store, at));
          QuietKeepsNode(cfg, s.puts, n, node, node', at);
          OneNodeKeepsInv(cfg, s, n, node');
        }
    }
  }

  lemma SamePlaces(cfg: Config, s: System)
    requires Inv(cfg, s)
    ensures s.puts.Keys == s.nodes.Keys
  {}

  lemma PutIsNext(cfg: Config, s: System, n: string, key: string, value: string)
    requires Inv(cfg, s) && n in s.nodes && cfg.owner(cfg.trim(key)) == n
    requires PutState(cfg.trim, s.nodes[n].store, key, value, s.nodes[n].clock, cfg.ttl, n).1.Ok?
    ensures var e := PutState(cfg.trim, s.nodes[n].store, key, value, s.nodes[n].clock, cfg.ttl, n).1.value;
            IsNextPut(cfg, s.puts, n, s.nodes[n].clock, e)
  {
    hide KeyOk, Authentic, PutsInOrder;
    assert NodeOk(cfg, s.puts, n, s.nodes[n]);
  }

  lemma KeyIsOk(cfg: Config, s: System, n: string, k: string)
    requires Inv(cfg, s) && n in s.nodes
    ensures KeyOk(cfg, s.puts, s.nodes[n].clock, k, s.nodes[n].Held(k), s.nodes[n].Log(k)) && PutsInOrder(cfg, s.puts)
  {
    hide KeyOk, Authentic, PutsInOrder;
    assert NodeOk(cfg, s.puts, n, s.nodes[n]);
  }

  lemma InitialInv(cfg: Config, s: System)
    requires Initial(s)
    ensures Inv(cfg, s)
  {
    forall n | n in s.nodes ensures NodeOk(cfg, s.puts, n, s.nodes[n]) {
      forall k ensures KeyOk(cfg, s.puts, s.nodes[n].clock, k, s.nodes[n].Held(k), s.nodes[n].Log(k)) {}
    }
  }

  lemma {:induction false} InvLasts(cfg: Config, s: System, actions: seq<Action>)
    requires Inv(cfg, s)
    ensures Inv(cfg, RunAll(cfg, s, actions))
  {
    hide Inv, Apply;
    if actions != [] {
      InvLasts(cfg, s, actions[..|actions| - 1]);
      StepKeepsInv(cfg, RunAll(cfg, s, actions[..|actions| - 1]), actions[|actions| - 1]);
    }
  }

  /** On every run, under any loss, duplication, delay, reordering, state exchange and collection, also
      between the check of a merge and its lock. */
  lemma EveryRunKeepsInv(cfg: Config, s: System, actions: seq<Action>)
    requires Initial(s)
    ensures Inv(cfg, RunAll(cfg, s, actions))
  {
    hide Initial, Inv;
    InitialInv(cfg, s);
    InvLasts(cfg, s, actions);
  }

  // What users of the store rely on --------------------------------------------------------------

  /** A replica only ever installs versions the key's owner Put. They come in strictly increasing order,
      except for versions that expired between the check of their merge and its lock. */
  lemma InstalledVersionsOnlyRise(cfg: Config, s: System, actions: seq<Action>, n: string, k: string)
    requires Initial(s) && n in s.nodes
    ensures var t := RunAll(cfg, s, actions);
            && n in t.nodes
            && RisesUnlessLate(t.nodes[n].Log(k))
            && (forall i :: 0 <= i < |t.nodes[n].Log(k)| ==>
                  t.nodes[n].Log(k)[i].key == k && Authentic(cfg, t.puts, t.nodes[n].Log(k)[i]))
            && (k in t.nodes[n].store.data ==>
                  t.nodes[n].Log(k) != [] && t.nodes[n].store.data[k] == t.nodes[n].Log(k)[|t.nodes[n].Log(k)| - 1])
  {
    hide Initial, Inv, RunAll, RisesUnlessLate, Authentic, PutsInOrder;
    EveryRunKeepsInv(cfg, s, actions);
    RunExtends(cfg, s, actions, n, k);
    KeyIsOk(cfg, RunAll(cfg, s, actions), n, k);
  }

  /** Answers never go back, without exception: of two Gets on one replica, the later never answers an
      older version, whatever was merged, collected or exchanged in between. `now` and `now'` are the
      clock readings the Gets take after their locks. */
  lemma AnswersOnlyRise(cfg: Config, s: System, before: seq<Action>, between: seq<Action>, n: string, key: string,
                        now: int, now': int)
    requires Initial(s) && n in s.nodes
    requires var t := RunAll(cfg, s, before);
      && n in t.nodes && t.nodes[n].clock <= now
      && GetState(cfg.trim, t.nodes[n].store, key, now).Some?
    requires var u := RunAll(cfg, RunAll(cfg, s, before), between);
      && n in u.nodes && u.nodes[n].clock <= now'
      && GetState(cfg.trim, u.nodes[n].store, key, now').Some?
    ensures var t := RunAll(cfg, s, before);
            var u := RunAll(cfg, t, between);
            GetState(cfg.trim, t.nodes[n].store, key, now).value.seqNo
              <= GetState(cfg.trim, u.nodes[n].store, key, now').value.seqNo
  {
    hide Initial, Inv, RunAll;
    var t := RunAll(cfg, s, before);
    EveryRunKeepsInv(cfg, s, before);
    InvLasts(cfg, t, between);
    RunExtends(cfg, t, between, n, cfg.trim(key));
    LiveHeldOnlyRises(cfg, t, RunAll(cfg, t, between), n, cfg.trim(key));
  }

  /** The held version only rises while it is live; the later state need not hold it any more. */
  lemma LiveHeldOnlyRises(cfg: Config, t: System, u: System, n: string, k: string)
    requires Inv(cfg, t) && Inv(cfg, u) && n in t.nodes && n in u.nodes
    requires t.nodes[n].Log(k) <= u.nodes[n].Log(k)
    requires k in t.nodes[n].store.data && k in u.nodes[n].store.data
    requires u.nodes[n].store.data[k].expiresAt > Millis(u.nodes[n].clock)
    ensures t.nodes[n].store.data[k].seqNo <= u.nodes[n].store.data[k].seqNo
  {
    hide Inv, PutsInOrder, Authentic;
    var a, b := t.nodes[n], u.nodes[n];
    KeyIsOk(cfg, t, n, k);
    KeyIsOk(cfg, u, n, k);
    var i := |a.Log(k)| - 1;
    assert b.Log(k)[i] == a.store.data[k];
    VersionsCompare(cfg, u.puts, b.Log(k)[i], b.store.data[k]);
  }

  /** The newest version of its key that the owner has Put so far. */
  ghost predicate IsLatest(cfg: Config, s: System, e: Entry) {
    && Authentic(cfg, s.puts, e)
    && forall j :: e.seqNo <= j < |s.puts[e.source]| ==> s.puts[e.source][j].key != e.key
  }

  ghost predicate Received(node: Node, e: Entry) {
    exists i :: 0 <= i < |node.Log(e.key)| && Strip(node.Log(e.key)[i]) == Strip(e)
  }

  lemma NoneAboveLatest(cfg: Config, s: System, e: Entry, x: Entry)
    requires IsLatest(cfg, s, e) && Authentic(cfg, s.puts, x) && x.key == e.key
    ensures x.seqNo <= e.seqNo
  {
    assert Strip(s.puts[e.source][x.seqNo - 1]).key == Strip(x).key;
  }

  /** A replica that has installed the owner's latest version answers exactly that version until it
      expires on the replica's own clock, and nothing afterwards. `now` is the reading a Get takes. */
  lemma {:induction false} ReceiverAnswersLatest(cfg: Config, s: System, n: string, e: Entry, key: string, now: int)
    requires Inv(cfg, s) && n in s.nodes && IsLatest(cfg, s, e) && Received(s.nodes[n], e)
    requires cfg.trim(key) == e.key && e.key != "" && s.nodes[n].clock <= now
    ensures var r := GetState(cfg.trim, s.nodes[n].store, key, now);
            && (r.Some? <==> Millis(now) < e.expiresAt)
            && (r.Some? ==> Strip(r.value) == Strip(e))
  {
    hide Inv, IsLatest, Authentic, PutsInOrder;
    var node := s.nodes[n];
    var log := node.Log(e.key);
    KeyIsOk(cfg, s, n, e.key);
    var i :| 0 <= i < |log| && Strip(log[i]) == Strip(e);
    assert Strip(log[i]).seqNo == log[i].seqNo && Strip(log[i]).expiresAt == log[i].expiresAt;
    assert Strip(e).seqNo == e.seqNo && Strip(e).expiresAt == e.expiresAt;
    if node.Held(e.key).Some? {
      NoneAboveLatest(cfg, s, e, node.Held(e.key).value);
      VersionsCompare(cfg, s.puts, node.Held(e.key).value, log[i]);
    }
  }

  /** Two such replicas agree while both clocks are before the expiry, however far apart they are. */
  lemma ReceiversAgree(cfg: Config, s: System, actions: seq<Action>, n: string, m: string, e: Entry, key: string,
                       nowN: int, nowM: int)
    requires Initial(s)
    requires var t := RunAll(cfg, s, actions);
      n in t.nodes && m in t.nodes && IsLatest(cfg, t, e)
      && Received(t.nodes[n], e) && Received(t.nodes[m], e)
      && t.nodes[n].clock <= nowN && t.nodes[m].clock <= nowM
      && Millis(nowN) < e.expiresAt && Millis(nowM) < e.expiresAt
    requires cfg.trim(key) == e.key && e.key != ""
    ensures var t := RunAll(cfg, s, actions);
            var a := GetState(cfg.trim, t.nodes[n].store, key, nowN);
            var b := GetState(cfg.trim, t.nodes[m].store, key, nowM);
            a.Some? && b.Some? && Strip(a.value) == Strip(b.value) == Strip(e)
  {
    hide Initial, Inv, IsLatest, Received, GetState, RunAll;
    EveryRunKeepsInv(cfg, s, actions);
    ReceiverAnswersLatest(cfg, RunAll(cfg, s, actions), n, e, key, nowN);
    ReceiverAnswersLatest(cfg, RunAll(cfg, s, actions), m, e, key, nowM);
  }

  /** A merge of the latest version that has passed the check delivers it, whatever happens before it gets
      the lock: even if the entry expires meanwhile, and even if it has been installed already. */
  lemma OneDeliverySuffices(cfg: Config, s: System, n: string, e: Entry)
    requires Inv(cfg, s) && n in s.nodes && e in s.nodes[n].pending && IsLatest(cfg, s, e)
    ensures Received(Apply(cfg, s, Settle(n, e)).nodes[n], e)
  {
    hide Inv, IsLatest, Authentic, PutsInOrder;
    var node, node' := s.nodes[n], Settled(s.nodes[n], e);
    SamePlaces(cfg, s);
    PendingIsAuthentic(cfg, s, n);
    KeyIsOk(cfg, s, n, e.key);
    var log' := node'.Log(e.key);
    if !MergeLocked(node.store, e, node.clock).1 {
      AcceptIsHigher(cfg, s.puts, node.Held(e.key).value, e);
      NoneAboveLatest(cfg, s, e, node.Held(e.key).value);
      VersionsCompare(cfg, s.puts, node.Held(e.key).value, e);
    }
    assert Strip(log'[|log'| - 1]) == Strip(e);
  }

  /** A message gets that far if it meets a live clock and is not the node's own broadcast. */
  lemma LiveMessageIsAdmitted(cfg: Config, s: System, n: string, msg: Message)
    requires n in s.nodes && n in s.puts && msg in s.net
    ensures msg.entry in Apply(cfg, s, Admit(n, msg)).nodes[n].pending <==>
              msg.entry in s.nodes[n].pending
              || (!(msg.Broadcast? && msg.sender == n) && Admits(cfg.trim, msg.entry, s.nodes[n].clock))
  {}

  /** A state exchange puts every live entry of the node on the net, and a put its entry. */
  lemma SharesReachTheNet(cfg: Config, s: System, n: string, at: int, k: string)
    requires n in s.nodes && n in s.puts && at <= s.nodes[n].clock
    requires k in s.nodes[n].store.data && s.nodes[n].store.data[k].expiresAt > Millis(at)
    ensures StateItem(s.nodes[n].store.data[k]) in Apply(cfg, s, Share(n, at)).net
    ensures s.net <= Apply(cfg, s, Share(n, at)).net && Apply(cfg, s, Share(n, at)).nodes == s.nodes
  {
    assert s.nodes[n].store.data[k] in LiveEntries(s.nodes[n].store, "", at);
  }

  lemma PutsReachTheNet(cfg: Config, s: System, n: string, key: string, value: string)
    requires n in s.nodes && n in s.puts && cfg.owner(cfg.trim(key)) == n && cfg.trim(key) != "" && cfg.ttl > 0
    ensures var t := Apply(cfg, s, Publish(n, key, value));
            && n in t.nodes && cfg.trim(key) in t.nodes[n].store.data
            && var e := t.nodes[n].store.data[cfg.trim(key)];
               IsPut(cfg.trim, e, key, value, s.nodes[n].clock, cfg.ttl, n) && Broadcast(n, e) in t.net
  {}

  /** What was installed stays on record: logs and put histories only ever grow at the end. */
  lemma {:induction false} RunExtends(cfg: Config, s: System, actions: seq<Action>, n: string, k: string)
    requires n in s.nodes
    ensures var t := RunAll(cfg, s, actions);
            && t.nodes.Keys == s.nodes.Keys && t.puts.Keys == s.puts.Keys
            && s.nodes[n].Log(k) <= t.nodes[n].Log(k)
            && (n in s.puts ==> s.puts[n] <= t.puts[n])
            && s.nodes[n].clock <= t.nodes[n].clock
  {
    hide Apply;
    if actions != [] {
      RunExtends(cfg, s, actions[..|actions| - 1], n, k);
      StepExtends(cfg, RunAll(cfg, s, actions[..|actions| - 1]), actions[|actions| - 1], n, k);
    }
  }

  lemma StepExtends(cfg: Config, s: System, a: Action, n: string, k: string)
    requires n in s.nodes
    ensures var t := Apply(cfg, s, a);
            && t.nodes.Keys == s.nodes.Keys && t.puts.Keys == s.puts.Keys
            && s.nodes[n].Log(k) <= t.nodes[n].Log(k)
            && (n in s.puts ==> s.puts[n] <= t.puts[n])
            && s.nodes[n].clock <= t.nodes[n].clock
  {
    hide PutState, MergeLocked, CollectState, LiveEntries, Admits;
    if a.node in s.nodes && a.node in s.puts && a.Settle? && a.entry in s.nodes[a.node].pending {
      assert s.nodes[a.node].Log(k) <= Settled(s.nodes[a.node], a.entry).Log(k);
    }
  }

  /** Agreement lasts: whatever happens after a replica received `e`, as long as `e` is still the
      owner's latest version the replica answers it until it expires there. */
  lemma AnswerLasts(cfg: Config, s: System, before: seq<Action>, after: seq<Action>, n: string, e: Entry,
                    key: string, now: int)
    requires Initial(s) && n in s.nodes
    requires var t := RunAll(cfg, s, before); n in t.nodes && Received(t.nodes[n], e)
    requires var u := RunAll(cfg, RunAll(cfg, s, before), after);
      IsLatest(cfg, u, e) && n in u.nodes && u.nodes[n].clock <= now
    requires cfg.trim(key) == e.key && e.key != ""
    ensures var u := RunAll(cfg, RunAll(cfg, s, before), after);
            var r := GetState(cfg.trim, u.nodes[n].store, key, now);
            && (r.Some? <==> Millis(now) < e.expiresAt)
            && (r.Some? ==> Strip(r.value) == Strip(e))
  {
    hide Initial, Inv, IsLatest, GetState, RunAll;
    var t := RunAll(cfg, s, before);
    var u := RunAll(cfg, t, after);
    EveryRunKeepsInv(cfg, s, before);
    InvLasts(cfg, t, after);
    RunExtends(cfg, t, after, n, e.key);
    var i :| 0 <= i < |t.nodes[n].Log(e.key)| && Strip(t.nodes[n].Log(e.key)[i]) == Strip(e);
    assert u.nodes[n].Log(e.key)[i] == t.nodes[n].Log(e.key)[i];
    ReceiverAnswersLatest(cfg, u, n, e, key, now);
  }

  // The exception is real --------------------------------------------------------------------------

  lemma {:induction false} RunConcat(cfg: Config, s: System, a: seq<Action>, b: seq<Action>)
    ensures RunAll(cfg, s, a + b) == RunAll(cfg, RunAll(cfg, s, a), b)
  {
    hide Apply;
    if b == [] {
      assert a + b == a;
    } else {
      RunConcat(cfg, s, a, b[..|b| - 1]);
      assert (a + b)[..|a + b| - 1] == a + b[..|b| - 1];
    }
  }

  lemma RunCons(cfg: Config, s: System, b: seq<Action>)
    requires b != []
    ensures RunAll(cfg, s, b) == RunAll(cfg, Apply(cfg, s, b[0]), b[1..])
  {
    hide Apply;
    RunConcat(cfg, s, [b[0]], b[1..]);
    assert [b[0]] + b[1..] == b && [b[0]][..0] == [];
  }

  lemma RunOfSeven(cfg: Config, s: System, b: seq<Action>)
    requires |b| == 7
    ensures RunAll(cfg, s, b) == Apply(cfg, Apply(cfg, Apply(cfg, Apply(cfg, Apply(cfg, Apply(cfg, Apply(cfg, s,
              b[0]), b[1]), b[2]), b[3]), b[4]), b[5]), b[6])
  {
    hide Apply;
    RunOfThree(cfg, s, b[..3]);
    RunConcat(cfg, s, b[..3], b[3..]);
    assert b[..3] + b[3..] == b;
    var t := RunAll(cfg, s, b[..3]);
    RunCons(cfg, t, b[3..]);
    RunOfThree(cfg, Apply(cfg, t, b[3]), b[4..]);
    assert b[3..][1..] == b[4..];
  }

  lemma RunOfThree(cfg: Config, s: System, b: seq<Action>)
    requires |b| == 3
    ensures RunAll(cfg, s, b) == Apply(cfg, Apply(cfg, Apply(cfg, s, b[0]), b[1]), b[2])
  {
    hide Apply;
    RunCons(cfg, s, b);
    RunCons(cfg, Apply(cfg, s, b[0]), b[1..]);
    RunCons(cfg, Apply(cfg, Apply(cfg, s, b[0]), b[1]), b[2..]);
    assert b[1..][1..] == b[2..] && b[2..][1..] == [];
  }

  /** Any version a replica is about to install it can install twice: two merges of it pass the check, the first
      gets the lock, the version expires and is swept, the second gets the lock. */
  function TwiceRun(node: string, msg: Message, late: int): seq<Action> {
    [Admit(node, msg), Admit(node, msg), Settle(node, msg.entry)]
      + [Tick(node, late), Sweep(node, late), Settle(node, msg.entry)]
  }

  lemma AnyVersionCanComeBack(cfg: Config, s: System, n: string, msg: Message, late: int)
    requires n in s.nodes && n in s.puts && msg in s.net && !(msg.Broadcast? && msg.sender == n)
    requires Admits(cfg.trim, msg.entry, s.nodes[n].clock)
             && MergeLocked(s.nodes[n].store, msg.entry, s.nodes[n].clock).1
    requires s.nodes[n].clock <= late && msg.entry.expiresAt <= Millis(late)
    ensures var t := RunAll(cfg, s, TwiceRun(n, msg, late));
            var e := msg.entry;
            && n in t.nodes
            && t.nodes[n].Log(e.key) == s.nodes[n].Log(e.key)
                 + [e.(ingestedAt := Millis(s.nodes[n].clock)), e.(ingestedAt := Millis(late))]
  {
    hide Apply, Admits, MergeLocked;
    var b, c := TwiceRun(n, msg, late)[..3], TwiceRun(n, msg, late)[3..];
    assert b + c == TwiceRun(n, msg, late);
    RunConcat(cfg, s, b, c);
    RunOfThree(cfg, s, b);
    FirstTime(cfg, s, n, msg);
    var t := RunAll(cfg, s, b);
    RunOfThree(cfg, t, c);
    SecondTime(cfg, t, n, msg.entry, late);
  }

  lemma FirstTime(cfg: Config, s: System, n: string, msg: Message)
    requires n in s.nodes && n in s.puts && msg in s.net && !(msg.Broadcast? && msg.sender == n)
    requires Admits(cfg.trim, msg.entry, s.nodes[n].clock)
             && MergeLocked(s.nodes[n].store, msg.entry, s.nodes[n].clock).1
    ensures var t := Apply(cfg, Apply(cfg, Apply(cfg, s, Admit(n, msg)), Admit(n, msg)), Settle(n, msg.entry));
            var stamped := msg.entry.(ingestedAt := Millis(s.nodes[n].clock));
            && n in t.nodes && n in t.puts && msg.entry in t.nodes[n].pending && t.nodes[n].clock == s.nodes[n].clock
            && t.nodes[n].Log(msg.entry.key) == s.nodes[n].Log(msg.entry.key) + [stamped]
            && t.nodes[n].Held(msg.entry.key) == Some(stamped)
  {
    hide Admits, ShouldAccept;
  }

  lemma SecondTime(cfg: Config, s: System, n: string, e: Entry, late: int)
    requires n in s.nodes && n in s.puts && e in s.nodes[n].pending && s.nodes[n].clock <= late
    requires s.nodes[n].Held(e.key).Some? && s.nodes[n].Held(e.key).value.expiresAt <= Millis(late)
    ensures var t := Apply(cfg, Apply(cfg, Apply(cfg, s, Tick(n, late)), Sweep(n, late)), Settle(n, e));
            n in t.nodes && t.nodes[n].Log(e.key) == s.nodes[n].Log(e.key) + [e.(ingestedAt := Millis(late))]
  {
    hide ShouldAccept;
    var swept := Apply(cfg, Apply(cfg, s, Tick(n, late)), Sweep(n, late));
    assert e.key !in swept.nodes[n].store.data && swept.nodes[n].clock == late;
  }

  const FRESH := Node(EMPTY, 0, multiset{}, map[])

  const PAIR := System(map["A" := FRESH, "B" := FRESH], {}, map["A" := [], "B" := []])

  const FIRST := Entry("k", "v1", "A", 1, 0, 100, 0)

  const SECOND := Entry("k", "v2", "A", 2, 0, 100, 0)

  /** A puts two versions in the same millisecond. */
  const TWO_PUTS := [Publish("A", "k", "v1"), Publish("A", "k", "v2")]

  /** B installs the second and has checked the first when both expire; the second is collected, then the
      merge of the first gets the lock. */
  const LATE_MERGE := [
    Tick("B", 99_000_000), Admit("B", Broadcast("A", SECOND)), Settle("B", SECOND), Admit("B", Broadcast("A", FIRST)),
    Tick("B", 100_000_000), Sweep("B", 100_000_000), Settle("B", FIRST)]

  /** A run on which an older version is installed after a newer one was collected. */
  lemma LateVersionComesBack(cfg: Config)
    requires cfg.trim("k") == "k" && cfg.owner("k") == "A" && cfg.ttl == 100_000_000
    ensures Initial(PAIR)
    ensures var t := RunAll(cfg, PAIR, TWO_PUTS + LATE_MERGE);
            && "B" in t.nodes
            && var log := t.nodes["B"].Log("k");
               |log| == 2 && log[0].seqNo == 2 && log[1].seqNo == 1
  {
    hide Apply;
    RunConcat(cfg, PAIR, TWO_PUTS, LATE_MERGE);
    AfterPuts(cfg);
    var s := RunAll(cfg, PAIR, TWO_PUTS);
    RunOfSeven(cfg, s, LATE_MERGE);
    LateMergeAtB(cfg, s, FIRST, SECOND);
  }

  lemma AfterPuts(cfg: Config)
    requires cfg.trim("k") == "k" && cfg.owner("k") == "A" && cfg.ttl == 100_000_000
    ensures var s := RunAll(cfg, PAIR, TWO_PUTS);
            && "B" in s.nodes && "B" in s.puts && s.nodes["B"] == FRESH
            && Broadcast("A", FIRST) in s.net && Broadcast("A", SECOND) in s.net
  {
    var p, q := TWO_PUTS[0], TWO_PUTS[1];
    assert TWO_PUTS[..1] == [p] && [p][..0] == [];
    assert RunAll(cfg, PAIR, [p]) == Apply(cfg, PAIR, p);
    var one := Apply(cfg, PAIR, p);
    assert one.nodes["A"].store.seqOf == map["A" := 1] && Broadcast("A", FIRST) in one.net;
    assert RunAll(cfg, PAIR, TWO_PUTS) == Apply(cfg, one, q);
  }

  /** The seven steps at B. */
  lemma LateMergeAtB(cfg: Config, s: System, e1: Entry, e2: Entry)
    requires cfg.trim("k") == "k"
    requires "B" in s.nodes && "B" in s.puts && s.nodes["B"] == FRESH
    requires e1 == Entry("k", "v1", "A", 1, 0, 100, 0) && e2 == Entry("k", "v2", "A", 2, 0, 100, 0)
    requires Broadcast("A", e1) in s.net && Broadcast("A", e2) in s.net
    ensures var s3 := Apply(cfg, s, Tick("B", 99_000_000));
            var s4 := Apply(cfg, s3, Admit("B", Broadcast("A", e2)));
            var s5 := Apply(cfg, s4, Settle("B", e2));
            var s6 := Apply(cfg, s5, Admit("B", Broadcast("A", e1)));
            var s7 := Apply(cfg, s6, Tick("B", 100_000_000));
            var s8 := Apply(cfg, s7, Sweep("B", 100_000_000));
            var s9 := Apply(cfg, s8, Settle("B", e1));
            && "B" in s9.nodes
            && var log := s9.nodes["B"].Log("k");
               |log| == 2 && log[0].seqNo == 2 && log[1].seqNo == 1
  {
    var s3 := Apply(cfg, s, Tick("B", 99_000_000));
    var s4 := Apply(cfg, s3, Admit("B", Broadcast("A", e2)));
    assert s4.nodes["B"].pending == multiset{e2} && s4.nodes["B"].store == EMPTY;
    var s5 := Apply(cfg, s4, Settle("B", e2));
    var held := e2.(ingestedAt := 99);
    assert s5.nodes["B"].Log("k") == [held] && s5.nodes["B"].store == State(map["k" := held], map["A" := 2]);
    var s6 := Apply(cfg, s5, Admit("B", Broadcast("A", e1)));
    assert e1 in s6.nodes["B"].pending;
    var s7 := Apply(cfg, s6, Tick("B", 100_000_000));
    assert s7.nodes["B"].clock == 100_000_000;
    var s8 := Apply(cfg, s7, Sweep("B", 100_000_000));
    assert s8.nodes["B"].store.data == map[] && e1 in s8.nodes["B"].pending;
  }

  // The delegate's own loops ----------------------------------------------------------------------

  /** A user message: messages a node sent itself and events other than puts are ignored. */
  method NotifyMsg(store: Store, nodeID: string, sender: string, isPut: bool, d: Delivery)
    modifies store
    ensures store.Current() ==
            if store.trim(sender) == "" || sender == nodeID || !isPut then old(store.Current())
            else MergeAll(store.trim, old(store.Current()), [d])
  {
    if store.trim(sender) == "" || sender == nodeID || !isPut {
      return;
    }
    var _ := store.Merge(d.entry, d.checkAt, d.ingestAt);
    assert [d][..0] == [];
  }

  /** A pushed or pulled state: its entries are merged one after the other. */
  method MergeRemoteState(store: Store, ds: seq<Delivery>)
    modifies store
    ensures store.Current() == MergeAll(store.trim, old(store.Current()), ds)
  {
    for i := 0 to |ds|
      invariant store.Current() == MergeAll(store.trim, old(store.Current()), ds[..i])
    {
      var _ := store.Merge(ds[i].entry, ds[i].checkAt, ds[i].ingestAt);
      assert ds[..i + 1][..i] == ds[..i];
    }
    assert ds[..|ds|] == ds;
  }
}
