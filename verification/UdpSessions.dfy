/** UDP sessions: one upstream connection per listener, client and upstream address. A session is looked
    up under the lock, dialled without it and entered under it again, while other packets and the
    reaper do the same. */
module UdpSessions {
  import opened Strings
  import opened Wrappers
  import opened ServiceModel
  import opened RouteIndex
  import opened PlanCompiler
  import opened PlanTheorems

  /** Times and durations are nanoseconds. A session and its connection are one to one, so the
      connection's number stands for both. */
  datatype Session = Session(conn: nat, lastUsed: int)

  /** What the lock protects, with the connections ever dialled (numbered in order) and how often each
      has been closed. */
  datatype Table = Table(sessions: map<string, Session>, dialled: nat, closes: multiset<nat>)

  const NO_SESSIONS := Table(map[], 0, multiset{})

  predicate IsOpen(t: Table, conn: nat) { conn < t.dialled && conn !in t.closes }

  predicate Expired(t: Table, key: string, now: int, ttl: int)
    requires key in t.sessions
  {
    now - t.sessions[key].lastUsed > ttl
  }

  predicate Hit(t: Table, key: string, now: int, ttl: int) { key in t.sessions && !Expired(t, key, now, ttl) }

  function Touched(t: Table, key: string, now: int): Table
    requires key in t.sessions
  {
    t.(sessions := t.sessions[key := t.sessions[key].(lastUsed := now)])
  }

  function Dropped(t: Table, key: string): Table
    requires key in t.sessions
  {
    t.(sessions := t.sessions - {key}, closes := t.closes + multiset{t.sessions[key].conn})
  }

  /** The first critical section. */
  function Checked(t: Table, key: string, now: int, ttl: int): Table {
    if key !in t.sessions then t
    else if Expired(t, key, now, ttl) then Dropped(t, key)
    else Touched(t, key, now)
  }

  /** The second critical section: a session that is there already stays. */
  function Inserted(t: Table, key: string, conn: nat, now: int): Table {
    if key in t.sessions then t else t.(sessions := t.sessions[key := Session(conn, now)])
  }

  function Closed(t: Table, conn: nat): Table { t.(closes := t.closes + multiset{conn}) }

  /** The reaper's critical section, visiting the keys in some order. */
  function Reaped(t: Table, now: int, ttl: string -> int, order: seq<string>): Table {
    if order == [] then t
    else
      var k := order[|order| - 1];
      var u := Reaped(t, now, ttl, order[..|order| - 1]);
      if k in u.sessions && Expired(u, k, now, ttl(k)) then Dropped(u, k) else u
  }

  /** The end of a round trip: the session is marked as used, wherever it is kept. */
  function Used(t: Table, conn: nat, now: int): Table {
    t.(sessions := map k | k in t.sessions ::
         if t.sessions[k].conn == conn then t.sessions[k].(lastUsed := now) else t.sessions[k])
  }

  // The session table object ---------------------------------------------------------------------------------

  class SessionTable {
    var sessions: map<string, Session>
    var dialled: nat
    var closes: multiset<nat>

    function State(): Table
      reads this
    {
      Table(sessions, dialled, closes)
    }

    constructor ()
      ensures State() == NO_SESSIONS
    {
      sessions, dialled, closes := map[], 0, multiset{};
    }

    /** What getOrCreateUDPSession does before dialling. */
    method Check(key: string, now: int, ttl: int) returns (found: Option<nat>)
      modifies this
      ensures State() == Checked(old(State()), key, now, ttl)
      ensures found.Some? <==> Hit(old(State()), key, now, ttl)
      ensures found.Some? ==> key in sessions && sessions[key] == Session(found.value, now)
      ensures found.None? ==> key !in sessions
    {
      if key in sessions {
        var existing := sessions[key];
        if now - existing.lastUsed <= ttl {
          sessions := sessions[key := existing.(lastUsed := now)];
          return Some(existing.conn);
        }
        sessions := sessions - {key};
        closes := closes + multiset{existing.conn};
      }
      return None;
    }

    /** What it does after dialling: the session found or entered is the one to use. */
    method Insert(key: string, conn: nat, now: int) returns (use: nat)
      modifies this
      ensures State() == if key in old(sessions) then Closed(old(State()), conn)
              else Inserted(old(State()), key, conn, now)
      ensures key in sessions && sessions[key].conn == use
      ensures key !in old(sessions) ==> use == conn
    {
      if key in sessions {
        closes := closes + multiset{conn};
        return sessions[key].conn;
      }
      sessions := sessions[key := Session(conn, now)];
      return conn;
    }

    /** Exactly the expired sessions go, each closed once, whatever the order of the visit. */
    method Reap(text: Text, plan: Plan, now: int) returns (ghost order: seq<string>)
      modifies this
      ensures State() == Reaped(old(State()), now, k => Ttl(text, plan, k), order)
      ensures forall k :: k in order <==> k in old(sessions)
      ensures sessions == map k | k in old(sessions)
              && !Expired(old(State()), k, now, Ttl(text, plan, k)) :: old(sessions)[k]
    {
      hide Ttl;
      order := [];
      ghost var ttl := (k: string) => Ttl(text, plan, k);
      var keys := sessions.Keys;
      while keys != {}
        invariant keys <= old(sessions).Keys
        invariant forall k :: k in order <==> k in old(sessions).Keys - keys
        invariant State() == Reaped(old(State()), now, ttl, order)
        decreases keys
      {
        var key :| key in keys;
        keys := keys - {key};
        ReapedExactly(old(State()), now, ttl, order);
        ghost var before := order;
        order := order + [key];
        assert order[..|order| - 1] == before;
        if now - sessions[key].lastUsed > Ttl(text, plan, key) {
          closes := closes + multiset{sessions[key].conn};
          sessions := sessions - {key};
        }
      }
      ReapedExactly(old(State()), now, ttl, order);
    }
  }

  lemma {:induction false} ReapedExactly(t: Table, now: int, ttl: string -> int, order: seq<string>)
    ensures Reaped(t, now, ttl, order).sessions ==
              map k | k in t.sessions && (k !in order || !Expired(t, k, now, ttl(k))) :: t.sessions[k]
  {
    if order != [] {
      var last := order[|order| - 1];
      ReapedExactly(t, now, ttl, order[..|order| - 1]);
      assert forall k :: k in order <==> k in order[..|order| - 1] || k == last;
    }
  }

  // Keys and time to live --------------------------------------------------------------------------------------

  function SessionKey(text: Text, listener: ListenerKey, client: string, upstream: string): string {
    ListenerMapKey(text, listener.addr, listener.port) + "|" + client + "|" + text.trim(upstream)
  }

  /** What precedes the first bar. */
  function Head(s: string): Option<string> {
    if s == "" then None
    else if s[0] == '|' then Some("")
    else match Head(s[1..]) case None => None case Some(h) => Some([s[0]] + h)
  }

  const MILLISECOND := 1_000_000

  const DEFAULT_TTL := 30_000 * MILLISECOND

  function Ttl(text: Text, plan: Plan, key: string): int {
    match Head(key)
    case None => DEFAULT_TTL
    case Some(head) =>
      if head !in plan.udp then DEFAULT_TTL
      else match ServicePolicy(text, plan, plan.udp[head].service)
        case None => DEFAULT_TTL
        case Some(policy) => policy.udp.sessionTtlMs * MILLISECOND
  }

  lemma {:induction false} HeadOfJoined(a: string, b: string)
    requires '|' !in a
    ensures Head(a + "|" + b) == Some(a)
  {
    var s := a + "|" + b;
    if a == "" {
      assert s[0] == '|';
    } else {
      assert s[0] == a[0] && s[1..] == a[1..] + "|" + b;
      HeadOfJoined(a[1..], b);
      assert [a[0]] + a[1..] == a;
    }
  }

  /** The reaper reads the listener back out of the key, so it applies the time to live that the plan
      in force gives the UDP service of the session's own listener. */
  lemma ReaperUsesOwnListener(text: Text, plan: Plan, listener: ListenerKey, client: string, upstream: string)
    requires text.Laws() && '|' !in text.trim(listener.addr)
    ensures Ttl(text, plan, SessionKey(text, listener, client, upstream)) ==
              match BindingAt(text, plan.udp, listener.addr, listener.port)
              case None => 30_000_000_000
              case Some(b) =>
                match ServicePolicy(text, plan, b.service)
                case None => 30_000_000_000
                case Some(policy) => policy.udp.sessionTtlMs * 1_000_000
  {
    hide ServicePolicy, Itoa;
    var key := ListenerMapKey(text, listener.addr, listener.port);
    assert forall i :: 0 <= i < |Itoa(listener.port)| ==> Itoa(listener.port)[i] != '|';
    assert '|' !in key;
    HeadOfJoined(key, client + "|" + text.trim(upstream));
    assert SessionKey(text, listener, client, upstream) == key + "|" + (client + "|" + text.trim(upstream));
  }

  /** A session key tells listener, client and upstream apart. */
  lemma KeysTellApart(text: Text, l: ListenerKey, client: string, upstream: string,
                      l': ListenerKey, client': string, upstream': string)
    requires '|' !in text.trim(l.addr) && '|' !in text.trim(l'.addr) && '|' !in client && '|' !in client'
    requires SessionKey(text, l, client, upstream) == SessionKey(text, l', client', upstream')
    ensures ListenerMapKey(text, l.addr, l.port) == ListenerMapKey(text, l'.addr, l'.port)
    ensures client == client' && text.trim(upstream) == text.trim(upstream')
  {
    hide Itoa;
    var k, k' := ListenerMapKey(text, l.addr, l.port), ListenerMapKey(text, l'.addr, l'.port);
    assert '|' !in k && '|' !in k' by {
      assert forall i :: 0 <= i < |Itoa(l.port)| ==> Itoa(l.port)[i] != '|';
      assert forall i :: 0 <= i < |Itoa(l'.port)| ==> Itoa(l'.port)[i] != '|';
    }
    var rest, rest' := client + "|" + text.trim(upstream), client' + "|" + text.trim(upstream');
    assert SessionKey(text, l, client, upstream) == k + "|" + rest;
    assert SessionKey(text, l', client', upstream') == k' + "|" + rest';
    BarSplits(k, rest, k', rest');
    BarSplits(client, text.trim(upstream), client', text.trim(upstream'));
  }

  lemma BarSplits(a: string, b: string, a': string, b': string)
    requires '|' !in a && '|' !in a' && a + "|" + b == a' + "|" + b'
    ensures a == a' && b == b'
  {
    HeadOfJoined(a, b);
    HeadOfJoined(a', b');
    assert (a + "|" + b)[|a| + 1..] == b && (a' + "|" + b')[|a'| + 1..] == b';
  }

  // Interleavings -----------------------------------------------------------------------------------------------

  /** Where a packet handler is between its two critical sections: dialling, holding the connection it
      dialled, or about to close one that it found to be superfluous. */
  datatype Handler = Dialling(key: string, now: int) | Holding(key: string, conn: nat, now: int) | Losing(conn: nat)

  datatype System = System(table: Table, handlers: map<nat, Handler>)

  const IDLE := System(NO_SESSIONS, map[])

  datatype Action =
    | Check(id: nat, key: string, now: int, ttl: int)
    | DialFails(id: nat)
    | DialsOther(id: nat)
    | Dials(id: nat)
    | Insert(id: nat)
    | CloseLoser(id: nat)
    | Use(conn: nat, now: int)
    | Reap(now: int, ttlOf: string -> int, order: seq<string>)

  /** One step; a step that is not possible changes nothing. Handlers are numbered afresh per packet. */
  function Apply(s: System, a: Action): System {
    match a
    case Check(id, key, now, ttl) =>
      if id in s.handlers then s
      else System(Checked(s.table, key, now, ttl),
                  if Hit(s.table, key, now, ttl) then s.handlers else s.handlers[id := Dialling(key, now)])
    case DialFails(id) =>
      if id in s.handlers && s.handlers[id].Dialling? then s.(handlers := s.handlers - {id}) else s
    case DialsOther(id) =>
      if id in s.handlers && s.handlers[id].Dialling? then
        System(Closed(s.table.(dialled := s.table.dialled + 1), s.table.dialled), s.handlers - {id})
      else s
    case Dials(id) =>
      if id in s.handlers && s.handlers[id].Dialling? then
        var h := s.handlers[id];
        System(s.table.(dialled := s.table.dialled + 1), s.handlers[id := Holding(h.key, s.table.dialled, h.now)])
      else s
    case Insert(id) =>
      if id in s.handlers && s.handlers[id].Holding? then
        var h := s.handlers[id];
        System(Inserted(s.table, h.key, h.conn, h.now),
               if h.key in s.table.sessions then s.handlers[id := Losing(h.conn)] else s.handlers - {id})
      else s
    case CloseLoser(id) =>
      if id in s.handlers && s.handlers[id].Losing? then
        System(Closed(s.table, s.handlers[id].conn), s.handlers - {id})
      else s
    case Use(conn, now) => s.(table := Used(s.table, conn, now))
    case Reap(now, ttl, order) => s.(table := Reaped(s.table, now, ttl, order))
  }

  function Run(s: System, actions: seq<Action>): System {
    if actions == [] then s else Apply(Run(s, actions[..|actions| - 1]), actions[|actions| - 1])
  }

  datatype Owner = InTable(key: string) | HeldBy(id: nat)

  predicate Owns(s: System, o: Owner, conn: nat) {
    match o
    case InTable(key) => key in s.table.sessions && s.table.sessions[key].conn == conn
    case HeldBy(id) => id in s.handlers && !s.handlers[id].Dialling? && s.handlers[id].conn == conn
  }

  /** Every open connection has an owner and only one, only open connections have one, and nothing is
      closed twice. */
  ghost predicate Inv(s: System) {
    && (forall o, conn :: Owns(s, o, conn) ==> IsOpen(s.table, conn))
    && (forall o, p, conn :: Owns(s, o, conn) && Owns(s, p, conn) ==> o == p)
    && (forall conn :: IsOpen(s.table, conn) ==> exists o :: Owns(s, o, conn))
    && (forall conn :: s.table.closes[conn] <= 1 && (conn in s.table.closes ==> conn < s.table.dialled))
  }

  /** An owner loses its connection to the close. */
  lemma CloseKeepsInv(s: System, t: System, o: Owner, conn: nat)
    requires Inv(s) && Owns(s, o, conn)
    requires t.table.closes == s.table.closes + multiset{conn} && t.table.dialled == s.table.dialled
    requires forall p, c :: Owns(t, p, c) <==> Owns(s, p, c) && p != o
    ensures Inv(t)
  {
    hide Owns;
    forall c: nat | IsOpen(t.table, c) ensures exists p :: Owns(t, p, c) {
      assert IsOpen(s.table, c);
      var p :| Owns(s, p, c);
      if p == o { OwnsOne(s, o, c, conn); }
      assert Owns(t, p, c);
    }
  }

  lemma OwnsOne(s: System, o: Owner, c: nat, d: nat)
    requires Owns(s, o, c) && Owns(s, o, d)
    ensures c == d
  {}

  /** Owners stay as they are, or one hands its connection to another that had none. */
  lemma MoveKeepsInv(s: System, t: System, o: Owner, p: Owner)
    requires Inv(s) && t.table.closes == s.table.closes && t.table.dialled == s.table.dialled
    requires forall c :: !Owns(s, p, c) || o == p
    requires forall q, c :: Owns(t, q, c) <==> if q == p then Owns(s, o, c) else Owns(s, q, c) && q != o
    ensures Inv(t)
  {
    hide Owns;
    forall c: nat | IsOpen(t.table, c) ensures exists q :: Owns(t, q, c) {
      assert IsOpen(s.table, c);
      var q :| Owns(s, q, c);
      assert Owns(t, if q == o then p else q, c);
    }
  }

  lemma DropKeepsInv(s: System, key: string)
    requires Inv(s) && key in s.table.sessions
    ensures Inv(s.(table := Dropped(s.table, key)))
  {
    CloseKeepsInv(s, s.(table := Dropped(s.table, key)), InTable(key), s.table.sessions[key].conn);
  }

  lemma {:induction false} ReapKeepsInv(s: System, now: int, ttl: string -> int, order: seq<string>)
    requires Inv(s)
    ensures Inv(s.(table := Reaped(s.table, now, ttl, order)))
  {
    hide Inv;
    if order != [] {
      var k := order[|order| - 1];
      var t := s.(table := Reaped(s.table, now, ttl, order[..|order| - 1]));
      ReapKeepsInv(s, now, ttl, order[..|order| - 1]);
      if k in t.table.sessions && Expired(t.table, k, now, ttl(k)) {
        DropKeepsInv(t, k);
      }
    }
  }

  lemma DialKeepsInv(s: System, id: nat)
    requires Inv(s) && id in s.handlers && s.handlers[id].Dialling?
    ensures Inv(Apply(s, Dials(id)))
  {
    var t := Apply(s, Dials(id));
    assert Owns(t, HeldBy(id), s.table.dialled);
    forall p, c: nat | p != HeldBy(id) ensures Owns(t, p, c) <==> Owns(s, p, c) {}
    forall c: nat | IsOpen(t.table, c) ensures exists q :: Owns(t, q, c) {
      if c < s.table.dialled {
        assert IsOpen(s.table, c);
        var q :| Owns(s, q, c);
        assert Owns(t, q, c);
      }
    }
  }

  lemma DialOtherKeepsInv(s: System, id: nat)
    requires Inv(s) && id in s.handlers && s.handlers[id].Dialling?
    ensures Inv(Apply(s, DialsOther(id)))
  {
    DialKeepsInv(s, id);
    CloseKeepsInv(Apply(s, Dials(id)), Apply(s, DialsOther(id)), HeldBy(id), s.table.dialled);
  }

  lemma StepKeepsInv(s: System, a: Action)
    requires Inv(s)
    ensures Inv(Apply(s, a))
  {
    hide Inv, Reaped;
    var t := Apply(s, a);
    match a
    case Check(id, key, now, ttl) =>
      if id !in s.handlers {
        if key in s.table.sessions && Expired(s.table, key, now, ttl) {
          DropKeepsInv(s, key);
          var u := s.(table := Dropped(s.table, key));
          MoveKeepsInv(u, t, HeldBy(id), HeldBy(id));
        } else {
          MoveKeepsInv(s, t, HeldBy(id), HeldBy(id));
        }
      }
    case DialFails(id) => MoveKeepsInv(s, t, HeldBy(id), HeldBy(id));
    case DialsOther(id) =>
      if id in s.handlers && s.handlers[id].Dialling? { DialOtherKeepsInv(s, id); }
    case Dials(id) =>
      if id in s.handlers && s.handlers[id].Dialling? { DialKeepsInv(s, id); }
    case Insert(id) =>
      if id in s.handlers && s.handlers[id].Holding? && s.handlers[id].key !in s.table.sessions {
        MoveKeepsInv(s, t, HeldBy(id), InTable(s.handlers[id].key));
      } else {
        MoveKeepsInv(s, t, HeldBy(id), HeldBy(id));
      }
    case CloseLoser(id) =>
      if id in s.handlers && s.handlers[id].Losing? {
        CloseKeepsInv(s, t, HeldBy(id), s.handlers[id].conn);
      }
    case Use(conn, now) => MoveKeepsInv(s, t, HeldBy(0), HeldBy(0));
    case Reap(now, ttl, order) => ReapKeepsInv(s, now, ttl, order);
  }

  /** Under any interleaving of packets, dials and reaping, whatever the clock readings and times to live:
      each open connection is in the table under exactly one key or held by exactly one handler, the
      table holds open connections only, and no connection is closed twice. */
  lemma {:induction false} EveryRunKeepsInv(actions: seq<Action>)
    ensures Inv(Run(IDLE, actions))
  {
    hide Apply;
    if actions == [] {
      assert forall o, conn :: !Owns(IDLE, o, conn);
    } else {
      hide Inv;
      EveryRunKeepsInv(actions[..|actions| - 1]);
      StepKeepsInv(Run(IDLE, actions[..|actions| - 1]), actions[|actions| - 1]);
    }
  }

  // Sharing ------------------------------------------------------------------------------------------------------

  /** The connection a handler is told to use by this step, if the step tells it. */
  function HandsOut(s: System, a: Action): Option<(string, nat)> {
    match a
    case Check(id, key, now, ttl) =>
      if id !in s.handlers && Hit(s.table, key, now, ttl) then Some((key, s.table.sessions[key].conn)) else None
    case Insert(id) =>
      if id in s.handlers && s.handlers[id].Holding? then
        var h := s.handlers[id];
        Some((h.key, if h.key in s.table.sessions then s.table.sessions[h.key].conn else h.conn))
      else None
    case _ => None
  }

  lemma HandedOutIsInTable(s: System, a: Action)
    requires HandsOut(s, a).Some?
    ensures var (key, conn) := HandsOut(s, a).value; Owns(Apply(s, a), InTable(key), conn)
  {}

  lemma {:induction false} ReapOnlyCloses(t: Table, now: int, ttl: string -> int, order: seq<string>, key: string)
    requires key in t.sessions
    ensures var u := Reaped(t, now, ttl, order);
            && t.closes <= u.closes
            && (key in u.sessions ==> u.sessions[key] == t.sessions[key])
            && (key !in u.sessions ==> t.sessions[key].conn in u.closes)
  {
    if order != [] {
      ReapOnlyCloses(t, now, ttl, order[..|order| - 1], key);
    }
  }

  lemma StepKeepsOrCloses(s: System, a: Action, key: string, conn: nat)
    requires Owns(s, InTable(key), conn) || conn in s.table.closes
    ensures Owns(Apply(s, a), InTable(key), conn) || conn in Apply(s, a).table.closes
    ensures s.table.closes <= Apply(s, a).table.closes
  {
    hide Reaped;
    if a.Reap? {
      ClosesGrow(s.table, a.now, a.ttlOf, a.order);
      if key in s.table.sessions {
        ReapOnlyCloses(s.table, a.now, a.ttlOf, a.order, key);
      }
    }
  }

  lemma {:induction false} ClosesGrow(t: Table, now: int, ttl: string -> int, order: seq<string>)
    ensures t.closes <= Reaped(t, now, ttl, order).closes
  {
    if order != [] {
      ClosesGrow(t, now, ttl, order[..|order| - 1]);
    }
  }

  lemma {:induction false} StaysUntilClosed(s: System, actions: seq<Action>, key: string, conn: nat)
    requires Owns(s, InTable(key), conn)
    ensures Owns(Run(s, actions), InTable(key), conn) || conn in Run(s, actions).table.closes
  {
    hide Apply, Owns;
    if actions != [] {
      StaysUntilClosed(s, actions[..|actions| - 1], key, conn);
      StepKeepsOrCloses(Run(s, actions[..|actions| - 1]), actions[|actions| - 1], key, conn);
    }
  }

  /** Packets of one client for one upstream share a connection: from the moment a handler is told to use
      one until that one is closed, every handler with the same key is told to use the same. */
  lemma HandlersShare(before: seq<Action>, a: Action, between: seq<Action>, b: Action)
    requires HandsOut(Run(IDLE, before), a).Some?
    requires HandsOut(Run(Run(IDLE, before + [a]), between), b).Some?
    requires HandsOut(Run(IDLE, before), a).value.0 == HandsOut(Run(Run(IDLE, before + [a]), between), b).value.0
    ensures var conn := HandsOut(Run(IDLE, before), a).value.1;
            var t := Run(Run(IDLE, before + [a]), between);
            conn !in Apply(t, b).table.closes ==> HandsOut(t, b).value.1 == conn
  {
    hide Apply;
    var (key, conn) := HandsOut(Run(IDLE, before), a).value;
    var s := Run(IDLE, before + [a]);
    assert (before + [a])[..|before|] == before;
    assert s == Apply(Run(IDLE, before), a);
    HandedOutIsInTable(Run(IDLE, before), a);
    StaysUntilClosed(s, between, key, conn);
    var t := Run(s, between);
    StepKeepsOrCloses(t, b, key, conn);
    HandedOutIsInTable(t, b);
  }

  /** And packets of different keys never share one: a connection is handed out under one key only, on every
      run. With KeysTellApart, no two clients are ever told to use the same connection. */
  lemma KeysNeverShare(before: seq<Action>, a: Action, between: seq<Action>, b: Action)
    requires HandsOut(Run(IDLE, before), a).Some?
    requires HandsOut(Run(Run(IDLE, before + [a]), between), b).Some?
    requires HandsOut(Run(IDLE, before), a).value.1 == HandsOut(Run(Run(IDLE, before + [a]), between), b).value.1
    ensures HandsOut(Run(IDLE, before), a).value.0 == HandsOut(Run(Run(IDLE, before + [a]), between), b).value.0
  {
    hide Apply, Inv;
    var (key, conn) := HandsOut(Run(IDLE, before), a).value;
    var s := Run(IDLE, before + [a]);
    assert (before + [a])[..|before|] == before;
    HandedOutIsInTable(Run(IDLE, before), a);
    StaysUntilClosed(s, between, key, conn);
    var t := Run(s, between);
    StepKeepsOrCloses(t, b, key, conn);
    HandedOutIsInTable(t, b);
    RunConcat(IDLE, before + [a], between);
    EveryRunKeepsInv(before + [a] + between);
    StepKeepsInv(t, b);
    OneOwnerIfOpen(Apply(t, b), key, HandsOut(t, b).value.0, conn);
  }

  lemma OneOwnerIfOpen(s: System, key: string, key': string, conn: nat)
    requires Inv(s) && Owns(s, InTable(key'), conn) && (Owns(s, InTable(key), conn) || conn in s.table.closes)
    ensures key == key'
  {
    assert conn !in s.table.closes;
    assert InTable(key) == InTable(key');
  }

  lemma {:induction false} RunConcat(s: System, a: seq<Action>, b: seq<Action>)
    ensures Run(s, a + b) == Run(Run(s, a), b)
  {
    hide Apply;
    if b == [] {
      assert a + b == a;
    } else {
      RunConcat(s, a, b[..|b| - 1]);
      assert (a + b)[..|a + b| - 1] == a + b[..|b| - 1];
    }
  }

  /** The end of a round trip marks its session, and no other, as used at that time. */
  lemma UseMarks(s: System, conn: nat, now: int, key: string)
    requires key in s.table.sessions
    ensures var t := Apply(s, Use(conn, now));
            && t.table.sessions.Keys == s.table.sessions.Keys
            && t.table.sessions[key].conn == s.table.sessions[key].conn
            && t.table.sessions[key].lastUsed ==
                 if s.table.sessions[key].conn == conn then now else s.table.sessions[key].lastUsed
  {}

  // Sessions in use ------------------------------------------------------------------------------------------------

  /** The step neither finds the session of `key` expired when it was last used at `since` or later, nor marks
      it as used earlier than that. */
  ghost predicate Spares(a: Action, key: string, conn: nat, since: int) {
    match a
    case Check(_, k, now, ttl) => k == key ==> since <= now <= since + ttl
    case Use(c, now) => c == conn ==> since <= now
    case Reap(now, ttlOf, order) => key in order ==> now <= since + ttlOf(key)
    case _ => true
  }

  lemma {:induction false} ReapSpares(t: Table, now: int, ttl: string -> int, order: seq<string>, key: string)
    requires key in t.sessions
    ensures var u := Reaped(t, now, ttl, order);
            key in u.sessions <==> !(key in order && Expired(t, key, now, ttl(key)))
  {
    ReapedExactly(t, now, ttl, order);
  }

  lemma SparedStays(s: System, a: Action, key: string, conn: nat, since: int)
    requires Owns(s, InTable(key), conn) && s.table.sessions[key].lastUsed >= since && Spares(a, key, conn, since)
    ensures var t := Apply(s, a); Owns(t, InTable(key), conn) && t.table.sessions[key].lastUsed >= since
  {
    hide Reaped;
    if a.Reap? {
      ReapSpares(s.table, a.now, a.ttlOf, a.order, key);
      ReapOnlyCloses(s.table, a.now, a.ttlOf, a.order, key);
    }
  }

  /** A connection stays open while its handler uses it as long as every reaping and every look-up falls
      within the time to live of the moment it was handed out; the end of the round trip is too late to
      help, since only then is it marked as used again. */
  lemma {:induction false} InUseStaysOpen(s: System, actions: seq<Action>, key: string, conn: nat, since: int)
    requires Owns(s, InTable(key), conn) && s.table.sessions[key].lastUsed >= since
    requires forall i :: 0 <= i < |actions| ==> Spares(actions[i], key, conn, since)
    ensures var t := Run(s, actions); Owns(t, InTable(key), conn) && t.table.sessions[key].lastUsed >= since
  {
    hide Apply, Spares;
    if actions != [] {
      InUseStaysOpen(s, actions[..|actions| - 1], key, conn, since);
      SparedStays(Run(s, actions[..|actions| - 1]), actions[|actions| - 1], key, conn, since);
    }
  }

  /** The reaper closes a connection of the table exactly when it finds it expired, used or not. */
  lemma ReapClosesIffExpired(s: System, now: int, ttlOf: string -> int, order: seq<string>, key: string, conn: nat)
    requires Inv(s) && Owns(s, InTable(key), conn)
    ensures conn in Apply(s, Reap(now, ttlOf, order)).table.closes <==>
              key in order && now - s.table.sessions[key].lastUsed > ttlOf(key)
  {
    hide Inv, Reaped;
    var t := Apply(s, Reap(now, ttlOf, order));
    StepKeepsInv(s, Reap(now, ttlOf, order));
    ReapSpares(s.table, now, ttlOf, order, key);
    ReapOnlyCloses(s.table, now, ttlOf, order, key);
    if key in t.table.sessions {
      OwnedIsOpen(t, InTable(key), conn);
    }
  }

  lemma OwnedIsOpen(s: System, o: Owner, conn: nat)
    requires Inv(s) && Owns(s, o, conn)
    ensures conn !in s.table.closes
  {}

  /** So a time to live shorter than a round trip lets it: the first packet of a client dials at `start` and
      is told to use the connection, and a reaping later than the time to live closes it under the handler. */
  lemma ReaperCanCloseInUse(key: string, start: int, later: int, ttlOf: string -> int)
    requires later - start > ttlOf(key)
    ensures var s := Run(IDLE, [Check(0, key, start, ttlOf(key)), Dials(0)]);
            && HandsOut(s, Insert(0)) == Some((key, 0))
            && 0 in Apply(Apply(s, Insert(0)), Reap(later, ttlOf, [key])).table.closes
  {
    var c, d := Check(0, key, start, ttlOf(key)), Dials(0);
    assert [c, d][..1] == [c] && [c][..0] == [];
    var s := Run(IDLE, [c, d]);
    assert Run(IDLE, []) == IDLE;
    assert Run(IDLE, [c]) == Apply(IDLE, c);
    assert s == Apply(Apply(IDLE, c), d);
    var t := Apply(s, Insert(0));
    assert t.table.sessions == map[key := Session(0, start)];
    assert [key][..0] == [];
    assert Reaped(t.table, later, ttlOf, []) == t.table;
  }
}
