/** Whether garbage collection can be observed: a store that deletes expired entries whenever it likes
    against one that never does. Operations stand in the order of their critical sections; the clock
    readings they took outside may be older or later. */
module SoftKVGarbage {
  import opened Strings
  import opened Wrappers
  import opened SoftKV
  import opened SoftKVOrder

  /** A run of operations; when `collecting` is off, Collect does nothing. */
  function Run(trim: string -> string, st: State, ops: seq<Op>, collecting: bool): (r: (State, seq<Answer>))
    ensures |r.1| == |ops|
  {
    if ops == [] then (st, [])
    else
      var op := ops[|ops| - 1];
      var (before, answers) := Run(trim, st, ops[..|ops| - 1], collecting);
      if op.Collect? && !collecting then (before, answers + [Done])
      else
        var (after, answer) := Step(trim, before, op);
        (after, answers + [answer])
  }

  /** When an operation held the lock. */
  function LockedAt(op: Op): int {
    match op
    case Put(_, _, now, _, _) => now
    case Merge(_, _, ingestAt) => ingestAt
    case Get(_, at, _) => at
    case List(_, _, at) => at
    case Collect(_, at) => at
  }

  /** Readings before the lock are no later than the lock, readings after it no earlier. */
  predicate ReadsInOrder(op: Op) {
    match op
    case Put(_, _, _, _, _) => true
    case Merge(_, checkAt, ingestAt) => checkAt <= ingestAt
    case Get(_, at, now) => at <= now
    case List(_, now, at) => now <= at
    case Collect(now, at) => now <= at
  }

  /** The store's own clock never goes back. */
  ghost predicate Monotone(ops: seq<Op>) {
    && (forall i :: 0 <= i < |ops| ==> ReadsInOrder(ops[i]))
    && (forall i, j :: 0 <= i < j < |ops| ==> LockedAt(ops[i]) <= LockedAt(ops[j]))
  }

  /** The entry an operation brings in, if any, belongs to the history `es`. */
  ghost predicate Brings(trim: string -> string, st: State, op: Op, es: set<Entry>) {
    match op
    case Put(key, value, now, ttl, source) =>
      var (_, r) := PutState(trim, st, key, value, now, ttl, source);
      r.Ok? ==> Strip(r.value) in es
    case Merge(e, checkAt, ingestAt) => Admits(trim, e, checkAt) ==> Strip(e) in es
    case _ => true
  }

  /** Every entry written or offered while it was live, in the run that never collects. */
  ghost predicate History(trim: string -> string, st: State, ops: seq<Op>, es: set<Entry>) {
    if ops == [] then forall k :: k in st.data ==> Strip(st.data[k]) in es
    else
      && History(trim, st, ops[..|ops| - 1], es)
      && Brings(trim, Run(trim, st, ops[..|ops| - 1], false).0, ops[|ops| - 1], es)
  }

  /** Of two entries of one key the newer does not expire earlier. */
  ghost predicate ExpiryFollowsAge(es: set<Entry>) {
    forall a, b :: a in es && b in es && a.key == b.key && Older(a, b) ==> a.expiresAt <= b.expiresAt
  }

  ghost predicate OneSourcePerKey(es: set<Entry>) {
    forall a, b :: a in es && b in es && a.key == b.key ==> a.source == b.source
  }

  /** The entry a Merge brings has not expired when the lock is held; no entry of the history expires
      between the clock reading of a List and its lock. */
  ghost predicate Prompt(trim: string -> string, es: set<Entry>, op: Op) {
    match op
    case Merge(e, checkAt, ingestAt) => Admits(trim, e, checkAt) ==> e.expiresAt > Millis(ingestAt)
    case List(_, now, at) => forall e :: e in es && e.expiresAt > Millis(now) ==> e.expiresAt > Millis(at)
    case _ => true
  }

  ghost predicate AllPrompt(trim: string -> string, es: set<Entry>, ops: seq<Op>) {
    forall i :: 0 <= i < |ops| ==> Prompt(trim, es, ops[i])
  }

  // The two stores side by side ------------------------------------------------------------------------

  ghost predicate Held(st: State, es: set<Entry>) {
    Keyed(st) && SeqCovers(st) && forall k :: k in st.data ==> Strip(st.data[k]) in es
  }

  /** Where `lean` differs from `full`, the entry in `full` has expired, and `lean` holds nothing or
      something that is no newer. */
  ghost predicate Hides(full: State, lean: State, now: int) {
    && full.seqOf == lean.seqOf
    && (forall k :: k in lean.data ==> k in full.data)
    && forall k :: k in full.data && !(k in lean.data && lean.data[k] == full.data[k]) ==>
         && full.data[k].expiresAt <= Millis(now)
         && (k in lean.data ==> !Older(full.data[k], lean.data[k]))
  }

  lemma HidesLater(full: State, lean: State, now: int, later: int)
    requires Hides(full, lean, now) && now <= later
    ensures Hides(full, lean, later)
  {}

  /** What no newer than an expired entry has expired too. */
  lemma NoNewerExpired(es: set<Entry>, a: Entry, b: Entry)
    requires Coherent(es) && ExpiryFollowsAge(es) && Strip(a) in es && Strip(b) in es && a.key == b.key && !Older(a, b)
    ensures b.expiresAt <= a.expiresAt
  {
    if !Older(b, a) {
      assert !Older(Strip(a), Strip(b)) && !Older(Strip(b), Strip(a));
      assert Strip(a) == Strip(b);
      assert Strip(a).expiresAt == a.expiresAt && Strip(b).expiresAt == b.expiresAt;
    } else {
      assert Older(Strip(b), Strip(a));
      assert Strip(b).expiresAt <= Strip(a).expiresAt;
    }
  }

  lemma AcceptIsOlder(es: set<Entry>, a: Entry, b: Entry)
    requires Coherent(es) && Strip(a) in es && Strip(b) in es
    ensures ShouldAccept(a, b) <==> Older(a, b)
  {
    AcceptOnCoherent(es, a, b);
  }

  /** `b` is no newer than `a`, `c` is newer than `a`: then `c` is newer than `b`. */
  lemma NewerThanBoth(es: set<Entry>, a: Entry, b: Entry, c: Entry)
    requires Coherent(es) && Strip(a) in es && Strip(b) in es && a.key == b.key && !Older(a, b) && Older(a, c)
    ensures Older(b, c)
  {
    if Older(b, a) {
      OlderIsTransitive(b, a, c);
    } else {
      assert !Older(Strip(a), Strip(b)) && !Older(Strip(b), Strip(a));
      assert Strip(a) == Strip(b);
      assert Strip(a).updatedAt == a.updatedAt && Strip(b).updatedAt == b.updatedAt;
      assert Strip(a).source == a.source && Strip(b).source == b.source;
      assert Strip(a).seqNo == a.seqNo && Strip(b).seqNo == b.seqNo;
    }
  }

  /** An entry no newer than one held, from the same source, does not raise the sequence map. */
  lemma StaleKeepsSeq(st: State, es: set<Entry>, e: Entry)
    requires Coherent(es) && OneSourcePerKey(es) && Held(st, es) && Strip(e) in es
    requires e.key in st.data && !Older(st.data[e.key], e)
    ensures Install(st, e).seqOf == st.seqOf
  {
    var x := st.data[e.key];
    assert Strip(x).source == Strip(e).source;
    assert !Inverted(Strip(x), Strip(e));
    assert Strip(x).seqNo == x.seqNo && Strip(e).seqNo == e.seqNo;
    LessIrreflexive(e.source);
  }

  /** What two answers to the same operation have in common: everything, except that a Merge whose entry
      expired before the lock may be judged differently, and that a List may differ in entries that
      expired before the lock. */
  ghost predicate Agree(trim: string -> string, op: Op, a: Answer, b: Answer) {
    match op
    case Merge(e, checkAt, ingestAt) => (Admits(trim, e, checkAt) ==> e.expiresAt > Millis(ingestAt)) ==> a == b
    case List(_, now, at) =>
      && a.Listed? && b.Listed?
      && (forall e :: e in a.live || e in b.live ==> e.expiresAt > Millis(now))
      && (forall e: Entry :: e.expiresAt > Millis(at) ==> (e in a.live <==> e in b.live))
    case _ => a == b
  }

  lemma MergeHides(trim: string -> string, full: State, lean: State, e: Entry, checkAt: int, ingestAt: int,
                   es: set<Entry>)
    requires Coherent(es) && ExpiryFollowsAge(es) && Held(full, es) && Held(lean, es) && Hides(full, lean, ingestAt)
    requires Admits(trim, e, checkAt) ==> Strip(e) in es
    requires OneSourcePerKey(es) || Prompt(trim, es, Merge(e, checkAt, ingestAt))
    ensures var (x, a) := MergeState(trim, full, e, checkAt, ingestAt);
            var (y, b) := MergeState(trim, lean, e, checkAt, ingestAt);
            && (a != b ==> Admits(trim, e, checkAt) && e.expiresAt <= Millis(ingestAt))
            && Hides(x, y, ingestAt)
  {
    hide Older, ShouldAccept, Coherent, ExpiryFollowsAge, OneSourcePerKey;
    if Admits(trim, e, checkAt) && e.key in full.data {
      var stamped := e.(ingestedAt := Millis(ingestAt));
      var held := full.data[e.key];
      StampIsInvisible(held, e, stamped);
      AcceptIsOlder(es, held, e);
      if e.key in lean.data {
        AcceptIsOlder(es, lean.data[e.key], e);
        StampIsInvisible(lean.data[e.key], e, stamped);
      }
      if !(e.key in lean.data && lean.data[e.key] == held) {
        if Older(held, e) {
          if e.key in lean.data {
            NewerThanBoth(es, held, lean.data[e.key], e);
          }
        } else {
          NoNewerExpired(es, held, e);
          StaleMerge(trim, full, lean, e, checkAt, ingestAt, es);
        }
      }
    }
  }

  lemma StampIsInvisible(a: Entry, b: Entry, c: Entry)
    requires Strip(b) == Strip(c)
    ensures Older(a, b) == Older(a, c) && ShouldAccept(a, b) == ShouldAccept(a, c)
  {
    assert Strip(b).updatedAt == b.updatedAt && Strip(b).source == b.source && Strip(b).seqNo == b.seqNo;
    assert Strip(c).updatedAt == c.updatedAt && Strip(c).source == c.source && Strip(c).seqNo == c.seqNo;
  }

  lemma StaleMerge(trim: string -> string, full: State, lean: State, e: Entry, checkAt: int, ingestAt: int,
                   es: set<Entry>)
    requires Coherent(es) && OneSourcePerKey(es) && Held(full, es) && Hides(full, lean, ingestAt)
    requires Strip(e) in es && e.key in full.data && !Older(full.data[e.key], e) && !ShouldAccept(full.data[e.key], e)
    requires full.data[e.key].expiresAt <= Millis(ingestAt)
    ensures Hides(MergeState(trim, full, e, checkAt, ingestAt).0, MergeState(trim, lean, e, checkAt, ingestAt).0,
                  ingestAt)
  {
    hide Older, ShouldAccept, Coherent, OneSourcePerKey;
    var stamped := e.(ingestedAt := Millis(ingestAt));
    assert Strip(stamped) == Strip(e);
    StampIsInvisible(full.data[e.key], e, stamped);
    StaleKeepsSeq(full, es, stamped);
  }

  lemma StaleHaveExpired(full: State, lean: State, now: int, es: set<Entry>)
    requires Held(full, es) && Held(lean, es) && Hides(full, lean, now) && Coherent(es) && ExpiryFollowsAge(es)
    ensures forall k :: k in lean.data && lean.data[k] != full.data[k] ==> lean.data[k].expiresAt <= Millis(now)
  {
    hide Coherent, ExpiryFollowsAge, SeqCovers, Older;
    forall k | k in lean.data && lean.data[k] != full.data[k] ensures lean.data[k].expiresAt <= Millis(now) {
      NoNewerExpired(es, full.data[k], lean.data[k]);
    }
  }

  lemma PutHides(trim: string -> string, full: State, lean: State, op: Op)
    requires Hides(full, lean, LockedAt(op)) && op.Put?
    ensures var (x, a) := Step(trim, full, op);
            var (y, b) := Step(trim, lean, op);
            a == b && Hides(x, y, LockedAt(op))
  {
    hide Older, LiveEntries, MergeState;
  }

  lemma ReadsHide(trim: string -> string, full: State, lean: State, op: Op)
    requires Hides(full, lean, LockedAt(op)) && ReadsInOrder(op) && (op.Get? || op.List?)
    requires forall k :: k in lean.data && lean.data[k] != full.data[k] ==>
               lean.data[k].expiresAt <= Millis(LockedAt(op))
    ensures Agree(trim, op, Step(trim, full, op).1, Step(trim, lean, op).1)
  {
    hide Older, MergeState, PutState;
  }

  lemma StepHeld(trim: string -> string, st: State, op: Op, es: set<Entry>)
    requires Held(st, es)
    requires match op
      case Put(key, value, now, ttl, source) =>
        var r := PutState(trim, st, key, value, now, ttl, source).1; r.Ok? ==> Strip(r.value) in es
      case Merge(e, checkAt, ingestAt) => Admits(trim, e, checkAt) ==> Strip(e) in es
      case _ => true
    ensures Held(Step(trim, st, op).0, es)
  {
    hide SeqCovers, ShouldAccept, LiveEntries;
    StepCovers(trim, st, op);
    if op.Merge? {
      assert Strip(op.entry.(ingestedAt := Millis(op.ingestAt))) == Strip(op.entry);
    }
  }

  lemma StepHides(trim: string -> string, full: State, lean: State, op: Op, es: set<Entry>)
    requires Coherent(es) && ExpiryFollowsAge(es) && Held(full, es) && Held(lean, es) && Hides(full, lean, LockedAt(op))
    requires ReadsInOrder(op) && Brings(trim, full, op, es) && !op.Collect?
    requires OneSourcePerKey(es) || Prompt(trim, es, op)
    ensures var (x, a) := Step(trim, full, op);
            var (y, b) := Step(trim, lean, op);
            Agree(trim, op, a, b) && Hides(x, y, LockedAt(op)) && Held(x, es) && Held(y, es)
  {
    hide Coherent, ExpiryFollowsAge, OneSourcePerKey, Held, MergeState, LiveEntries;
    StepHeld(trim, full, op, es);
    StepHeld(trim, lean, op, es);
    if op.Merge? {
      MergeHides(trim, full, lean, op.entry, op.checkAt, op.ingestAt, es);
    } else if op.Put? {
      PutHides(trim, full, lean, op);
    } else {
      StaleHaveExpired(full, lean, LockedAt(op), es);
      ReadsHide(trim, full, lean, op);
    }
  }

  lemma CollectHides(full: State, lean: State, now: int, at: int, es: set<Entry>)
    requires Hides(full, lean, at) && now <= at && Held(lean, es)
    ensures Hides(full, CollectState(lean, now), at) && Held(CollectState(lean, now), es)
  {}

  ghost predicate AllAgree(trim: string -> string, ops: seq<Op>, a: seq<Answer>, b: seq<Answer>) {
    |a| == |b| == |ops| && forall i :: 0 <= i < |ops| ==> Agree(trim, ops[i], a[i], b[i])
  }

  lemma {:induction false} CollectionHides(trim: string -> string, ops: seq<Op>, es: set<Entry>, now: int)
    requires Monotone(ops) && History(trim, EMPTY, ops, es) && Coherent(es) && ExpiryFollowsAge(es)
    requires OneSourcePerKey(es) || AllPrompt(trim, es, ops)
    requires forall i :: 0 <= i < |ops| ==> LockedAt(ops[i]) <= now
    ensures var (full, a) := Run(trim, EMPTY, ops, false);
            var (lean, b) := Run(trim, EMPTY, ops, true);
            AllAgree(trim, ops, a, b) && Hides(full, lean, now) && Held(full, es) && Held(lean, es)
  {
    hide Coherent, ExpiryFollowsAge, OneSourcePerKey, Held, Hides, Agree, Step, Prompt, Brings, ReadsInOrder, LockedAt;
    if ops == [] {
      EmptyHides(es, now);
    } else {
      var before, op := ops[..|ops| - 1], ops[|ops| - 1];
      CollectionHides(trim, before, es, LockedAt(op));
      var (full, a) := Run(trim, EMPTY, before, false);
      var (lean, b) := Run(trim, EMPTY, before, true);
      if op.Collect? {
        CollectStep(trim, full, lean, op, es);
        HidesLater(full, Step(trim, lean, op).0, LockedAt(op), now);
        assert Agree(trim, op, Done, Step(trim, lean, op).1);
      } else {
        StepHides(trim, full, lean, op, es);
        HidesLater(Step(trim, full, op).0, Step(trim, lean, op).0, LockedAt(op), now);
      }
    }
  }

  lemma EmptyHides(es: set<Entry>, now: int)
    ensures Hides(EMPTY, EMPTY, now) && Held(EMPTY, es)
  {}

  lemma CollectStep(trim: string -> string, full: State, lean: State, op: Op, es: set<Entry>)
    requires op.Collect? && ReadsInOrder(op) && Hides(full, lean, LockedAt(op)) && Held(lean, es)
    ensures Hides(full, Step(trim, lean, op).0, LockedAt(op)) && Held(Step(trim, lean, op).0, es)
    ensures Agree(trim, op, Done, Step(trim, lean, op).1)
  {
    CollectHides(full, lean, op.now, op.at, es);
  }

  // What can be observed ---------------------------------------------------------------------------------

  /** For every sequence of operations on a store whose clock never goes back, with a coherent history in
      which newer entries do not expire earlier: collecting at arbitrary points changes no Put and no Get,
      no Merge whose entry is still live under the lock, and no listed entry still live under the lock;
      and not the sequence map. If keys have several writers, Merges must find their entries live. */
  lemma CollectionIsInvisible(trim: string -> string, ops: seq<Op>, es: set<Entry>)
    requires Monotone(ops) && History(trim, EMPTY, ops, es) && Coherent(es) && ExpiryFollowsAge(es)
    requires OneSourcePerKey(es) || AllPrompt(trim, es, ops)
    ensures AllAgree(trim, ops, Run(trim, EMPTY, ops, false).1, Run(trim, EMPTY, ops, true).1)
    ensures AllPrompt(trim, es, ops) ==> Run(trim, EMPTY, ops, true).1 == Run(trim, EMPTY, ops, false).1
    ensures Run(trim, EMPTY, ops, true).0.seqOf == Run(trim, EMPTY, ops, false).0.seqOf
  {
    CollectionHides(trim, ops, es, if ops == [] then 0 else LockedAt(ops[|ops| - 1]));
    if AllPrompt(trim, es, ops) {
      PromptAgreesFully(trim, ops, es);
    }
  }

  lemma {:induction false} ListedAreOfHistory(trim: string -> string, ops: seq<Op>, es: set<Entry>, collecting: bool,
                                              i: nat)
    requires Monotone(ops) && History(trim, EMPTY, ops, es) && Coherent(es) && ExpiryFollowsAge(es)
    requires AllPrompt(trim, es, ops)
    requires i < |ops| && ops[i].List?
    ensures Run(trim, EMPTY, ops, collecting).1[i].Listed?
    ensures forall e :: e in Run(trim, EMPTY, ops, collecting).1[i].live ==> Strip(e) in es
  {
    hide Coherent, ExpiryFollowsAge, Prompt, Hides, AllAgree, Brings, ReadsInOrder, LockedAt, SeqCovers;
    var before, op := ops[..|ops| - 1], ops[|ops| - 1];
    assert Run(trim, EMPTY, ops, collecting).1[..|before|] == Run(trim, EMPTY, before, collecting).1;
    if i < |before| {
      ListedAreOfHistory(trim, before, es, collecting, i);
    } else {
      CollectionHides(trim, before, es, LockedAt(op));
      assert Held(Run(trim, EMPTY, before, collecting).0, es);
    }
  }

  lemma PromptAgreesFully(trim: string -> string, ops: seq<Op>, es: set<Entry>)
    requires Monotone(ops) && History(trim, EMPTY, ops, es) && Coherent(es) && ExpiryFollowsAge(es)
    requires AllPrompt(trim, es, ops)
    requires AllAgree(trim, ops, Run(trim, EMPTY, ops, false).1, Run(trim, EMPTY, ops, true).1)
    ensures Run(trim, EMPTY, ops, true).1 == Run(trim, EMPTY, ops, false).1
  {
    hide Run, Monotone, History, Coherent, ExpiryFollowsAge;
    var a, b := Run(trim, EMPTY, ops, false).1, Run(trim, EMPTY, ops, true).1;
    forall i | 0 <= i < |ops| ensures a[i] == b[i] {
      assert Prompt(trim, es, ops[i]) && Agree(trim, ops[i], a[i], b[i]);
      if ops[i].List? {
        ListedAreOfHistory(trim, ops, es, false, i);
        ListedAreOfHistory(trim, ops, es, true, i);
        PromptListsAgree(trim, es, ops[i], a[i], b[i]);
      }
    }
  }

  lemma PromptListsAgree(trim: string -> string, es: set<Entry>, op: Op, a: Answer, b: Answer)
    requires op.List? && Prompt(trim, es, op) && Agree(trim, op, a, b)
    requires forall e :: e in a.live || e in b.live ==> Strip(e) in es
    ensures a == b
  {
    forall e | e in a.live || e in b.live ensures e.expiresAt > Millis(op.at) {
      assert Strip(e).expiresAt == e.expiresAt;
    }
    assert a.live == b.live;
  }

  // The exact conditions --------------------------------------------------------------------------------

  /** No run over these entries, whose Merges and Lists are prompt, shows collection. */
  ghost predicate NeverShows(trim: string -> string, es: set<Entry>) {
    forall ops: seq<Op> :: Monotone(ops) && History(trim, EMPTY, ops, es) && AllPrompt(trim, es, ops) ==>
      Run(trim, EMPTY, ops, true).1 == Run(trim, EMPTY, ops, false).1
  }

  /** Entries that can be offered: no arrival stamp yet, and a key that is not blank. */
  ghost predicate Offerable(trim: string -> string, es: set<Entry>) {
    forall e :: e in es ==> Strip(e) == e && trim(e.key) != ""
  }

  /** On a coherent history collection is invisible if and only if newer entries do not expire earlier. */
  lemma InvisibleIffExpiryFollowsAge(trim: string -> string, es: set<Entry>)
    requires Coherent(es) && Offerable(trim, es)
    ensures NeverShows(trim, es) <==> ExpiryFollowsAge(es)
  {
    if ExpiryFollowsAge(es) {
      forall ops: seq<Op> | Monotone(ops) && History(trim, EMPTY, ops, es) && AllPrompt(trim, es, ops)
        ensures Run(trim, EMPTY, ops, true).1 == Run(trim, EMPTY, ops, false).1
      {
        CollectionIsInvisible(trim, ops, es);
      }
    } else {
      var a, b :| a in es && b in es && a.key == b.key && Older(a, b) && a.expiresAt > b.expiresAt;
      CollectionLetsOlderBack(trim, es, a, b);
    }
  }

  /** The run that shows it: a newer entry comes, expires and is collected; then an older one that lives
      longer is offered. */
  function Comeback(older: Entry, newer: Entry): seq<Op> {
    var early, late := (newer.expiresAt - 1) * 1_000_000, newer.expiresAt * 1_000_000;
    [Merge(newer, early, early), Collect(late, late), Merge(older, late, late)]
  }

  lemma CollectionLetsOlderBack(trim: string -> string, es: set<Entry>, older: Entry, newer: Entry)
    requires Coherent(es) && Offerable(trim, es) && older in es && newer in es
    requires older.key == newer.key && Older(older, newer) && older.expiresAt > newer.expiresAt
    ensures var ops := Comeback(older, newer);
            && Monotone(ops) && History(trim, EMPTY, ops, es) && AllPrompt(trim, es, ops)
            && Run(trim, EMPTY, ops, true).1[2] == Verdict(true) && Run(trim, EMPTY, ops, false).1[2] == Verdict(false)
  {
    hide Coherent;
    var ops := Comeback(older, newer);
    AcceptIsOlder(es, newer, older);
    OlderIsAsymmetric(older, newer);
    StampIsInvisible(newer, older, older);
    ShowsAtThird(trim, es, newer, older, ops[0].checkAt, ops[1].now, ops[2].checkAt, ops[2].ingestAt);
  }

  /** Three steps: `first` is installed, has expired at `sweep` and is collected, `second` is offered. */
  lemma ShowsAtThird(trim: string -> string, es: set<Entry>, first: Entry, second: Entry,
                     early: int, sweep: int, check: int, lock: int)
    requires first in es && second in es && Strip(first) == first && Strip(second) == second
    requires first.key == second.key && Admits(trim, first, early) && Admits(trim, second, check)
    requires first.expiresAt <= Millis(sweep) && !ShouldAccept(first, second)
    requires early <= sweep <= lock && check <= lock
    ensures var ops := [Merge(first, early, early), Collect(sweep, sweep), Merge(second, check, lock)];
            && Monotone(ops) && History(trim, EMPTY, ops, es)
            && Run(trim, EMPTY, ops, true).1[2] == Verdict(true) && Run(trim, EMPTY, ops, false).1[2] == Verdict(false)
  {
    hide MergeState, CollectState, ShouldAccept;
    var m, c, n := Merge(first, early, early), Collect(sweep, sweep), Merge(second, check, lock);
    FirstThenSecond(trim, first, second, early, sweep, check, lock);
    var one := MergeState(trim, EMPTY, first, early, early).0;
    RunMore(trim, EMPTY, [], m, true);
    RunMore(trim, EMPTY, [], m, false);
    assert [] + [m] == [m] && [m] + [c] == [m, c] && [m, c] + [n] == [m, c, n];
    RunMore(trim, EMPTY, [m], c, true);
    RunMore(trim, EMPTY, [m], c, false);
    RunMore(trim, EMPTY, [m, c], n, true);
    RunMore(trim, EMPTY, [m, c], n, false);
    HistoryMore(trim, EMPTY, [], m, es);
    HistoryMore(trim, EMPTY, [m], c, es);
    HistoryMore(trim, EMPTY, [m, c], n, es);
  }

  lemma RunMore(trim: string -> string, st: State, ops: seq<Op>, op: Op, collecting: bool)
    ensures var before := Run(trim, st, ops, collecting);
            Run(trim, st, ops + [op], collecting) ==
              if op.Collect? && !collecting then (before.0, before.1 + [Done])
              else (Step(trim, before.0, op).0, before.1 + [Step(trim, before.0, op).1])
  {
    hide Step;
    assert (ops + [op])[..|ops|] == ops;
  }

  lemma HistoryMore(trim: string -> string, st: State, ops: seq<Op>, op: Op, es: set<Entry>)
    ensures History(trim, st, ops + [op], es) <==>
              History(trim, st, ops, es) && Brings(trim, Run(trim, st, ops, false).0, op, es)
  {
    hide Brings;
    assert (ops + [op])[..|ops|] == ops;
  }

  lemma FirstThenSecond(trim: string -> string, first: Entry, second: Entry, early: int, sweep: int, check: int,
                        lock: int)
    requires first.key == second.key && Admits(trim, first, early) && Admits(trim, second, check)
    requires first.expiresAt <= Millis(sweep) && !ShouldAccept(first, second)
    ensures var one := MergeState(trim, EMPTY, first, early, early).0;
            && !MergeState(trim, one, second, check, lock).1
            && MergeState(trim, CollectState(one, sweep), second, check, lock).1
  {
    hide ShouldAccept;
    var held := first.(ingestedAt := Millis(early));
    assert Strip(held) == Strip(first);
    StampsAside(held, first, second);
    var one := MergeState(trim, EMPTY, first, early, early).0;
    assert one.data == map[first.key := held];
    assert second.key !in CollectState(one, sweep).data;
  }

  lemma StampsAside(a: Entry, b: Entry, c: Entry)
    requires Strip(a) == Strip(b)
    ensures ShouldAccept(a, c) == ShouldAccept(b, c)
  {
    assert Strip(a).updatedAt == a.updatedAt && Strip(a).source == a.source && Strip(a).seqNo == a.seqNo;
    assert Strip(b).updatedAt == b.updatedAt && Strip(b).source == b.source && Strip(b).seqNo == b.seqNo;
  }

  /** No single-writer history in which newer entries do not expire earlier makes this Merge, its last
      operation, tell a collecting store from one that never collects. */
  ghost predicate BlindToCollection(trim: string -> string, m: Op) {
    forall ops: seq<Op>, es: set<Entry> ::
      && History(trim, EMPTY, ops, es) && ops != [] && ops[|ops| - 1] == m && Monotone(ops)
      && Coherent(es) && ExpiryFollowsAge(es) && OneSourcePerKey(es) ==>
        Run(trim, EMPTY, ops, true).1[|ops| - 1] == Run(trim, EMPTY, ops, false).1[|ops| - 1]
  }

  /** A Merge that found its entry live at the check is blind to collections in between if and only if the
      entry is still live when the lock is held. */
  lemma SpanningMergeBlindIffLive(trim: string -> string, e: Entry, checkAt: int, ingestAt: int)
    requires Admits(trim, e, checkAt) && checkAt <= ingestAt && Strip(e) == e
    ensures BlindToCollection(trim, Merge(e, checkAt, ingestAt)) <==> e.expiresAt > Millis(ingestAt)
  {
    var m := Merge(e, checkAt, ingestAt);
    if e.expiresAt > Millis(ingestAt) {
      forall ops: seq<Op>, es: set<Entry> |
        && History(trim, EMPTY, ops, es) && ops != [] && ops[|ops| - 1] == m && Monotone(ops)
        && Coherent(es) && ExpiryFollowsAge(es) && OneSourcePerKey(es)
        ensures Run(trim, EMPTY, ops, true).1[|ops| - 1] == Run(trim, EMPTY, ops, false).1[|ops| - 1]
      {
        CollectionIsInvisible(trim, ops, es);
        assert Agree(trim, m, Run(trim, EMPTY, ops, false).1[|ops| - 1], Run(trim, EMPTY, ops, true).1[|ops| - 1]);
      }
    } else {
      SameEntryTwice(e);
      ShowsAtThird(trim, {e}, e, e, checkAt, ingestAt, checkAt, ingestAt);
      var ops := [Merge(e, checkAt, checkAt), Collect(ingestAt, ingestAt), m];
      assert History(trim, EMPTY, ops, {e}) && ops[|ops| - 1] == m;
    }
  }

  lemma SameEntryTwice(e: Entry)
    ensures !ShouldAccept(e, e) && Coherent({e}) && ExpiryFollowsAge({e}) && OneSourcePerKey({e})
  {
    LessIrreflexive(e.source);
  }

  /** One TTL of whole milliseconds is a special case: the entries Put with it differ by as many in expiry and
      update time. A fraction of a millisecond is rounded away unevenly. */
  ghost predicate Uniform(es: set<Entry>, ttl: int) {
    forall e :: e in es ==> e.expiresAt == e.updatedAt + ttl
  }

  lemma OneTtlFollowsAge(es: set<Entry>, ttl: int)
    requires Uniform(es, ttl)
    ensures ExpiryFollowsAge(es)
  {}

  lemma WholeMillisecondsAreUniform(now: int, ms: int)
    ensures Millis(now + ms * 1_000_000) == Millis(now) + ms
  {}

  /** Two puts with a TTL of half a millisecond, stamped alike: the one that counts as older expires later. */
  lemma HalfMillisecondIsNot(trim: string -> string)
    requires trim("k") == "k"
    ensures var a := PutState(trim, EMPTY, "k", "v", 900_000, 500_000, "A").1;
            var b := PutState(trim, EMPTY, "k", "w", 0, 500_000, "B").1;
            a.Ok? && b.Ok? && Older(a.value, b.value) && a.value.expiresAt > b.value.expiresAt
  {}

  /** With one TTL a live entry is preferred over every expired one of its key. */
  lemma LiveBeatsExpired(es: set<Entry>, ttl: int, expired: Entry, live: Entry, now: int)
    requires Coherent(es) && Uniform(es, ttl) && Strip(expired) in es && Strip(live) in es
    requires expired.expiresAt <= now < live.expiresAt
    ensures ShouldAccept(expired, live)
  {
    AcceptOnCoherent(es, expired, live);
    assert Strip(expired).expiresAt == Strip(expired).updatedAt + ttl;
    assert Strip(live).expiresAt == Strip(live).updatedAt + ttl;
  }

  /** A witness with two TTLs: a collected short-lived entry lets an older, longer-lived one back in. */
  lemma CollectionShowsWithTwoTtls(trim: string -> string)
    requires trim("k") == "k"
    ensures var newer := Entry("k", "new", "A", 2, 10, 20, 0);
            var older := Entry("k", "old", "A", 1, 5, 100, 0);
            var ops := Comeback(older, newer);
            && Monotone(ops)
            && History(trim, EMPTY, ops, {newer, older}) && Coherent({newer, older})
            && Run(trim, EMPTY, ops, true).1 != Run(trim, EMPTY, ops, false).1
  {
    var newer := Entry("k", "new", "A", 2, 10, 20, 0);
    var older := Entry("k", "old", "A", 1, 5, 100, 0);
    CollectionLetsOlderBack(trim, {newer, older}, older, newer);
  }
}
