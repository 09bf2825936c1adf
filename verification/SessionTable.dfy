/** The fixed table of peer sessions of src/koe_session.c.  The clock is passed in. */
module SessionTable {
  import opened Bytes
  import opened Packet
  import opened Crypto

  const MAX_SESSIONS := 256

  datatype Entry = Entry(peer: Key, sess: Session, createdAt: int, lastUsed: int, active: bool)

  /** A zeroed slot. */
  const BLANK := Entry(ZERO_KEY, NO_SESSION, 0, 0, false)

  datatype Table = Table(entries: seq<Entry>, count: int)

  const EMPTY := Table(seq(MAX_SESSIONS, _ => BLANK), 0)

  function Active(es: seq<Entry>): (n: nat)
    ensures n <= |es|
  {
    if es == [] then 0 else Active(es[..|es| - 1]) + if es[|es| - 1].active then 1 else 0
  }

  predicate IsFor(e: Entry, p: Key)
  {
    e.active && e.peer == p
  }

  /** The first free slot, or the length. */
  function FirstFree(es: seq<Entry>): (i: nat)
    ensures i <= |es| && (i < |es| ==> !es[i].active)
    ensures forall k :: 0 <= k < i ==> es[k].active
  {
    if es == [] then 0 else if !es[0].active then 0 else 1 + FirstFree(es[1..])
  }

  /** The first slot of a peer, or the length. */
  function SlotOf(es: seq<Entry>, p: Key): (i: nat)
    ensures i <= |es| && (i < |es| ==> IsFor(es[i], p))
    ensures forall k :: 0 <= k < i ==> !IsFor(es[k], p)
  {
    if es == [] then 0 else if IsFor(es[0], p) then 0 else 1 + SlotOf(es[1..], p)
  }

  predicate Holds(es: seq<Entry>, p: Key)
  {
    SlotOf(es, p) < |es|
  }

  predicate Stale(e: Entry, maxAge: int, now: int)
  {
    e.active && now - e.lastUsed > maxAge
  }

  function Swept(es: seq<Entry>, maxAge: int, now: int): (r: seq<Entry>)
    ensures |r| == |es|
  {
    seq(|es|, i requires 0 <= i < |es| => if Stale(es[i], maxAge, now) then BLANK else es[i])
  }

  // ---------------------------------------------------------------- the operations, on values

  /** The clock is read once for each of the two timestamps. */
  datatype Op =
    | Add(peer: Key, sess: Session, created: int, now: int)
    | Find(peer: Key, now: int)
    | Remove(peer: Key)
    | Cleanup(maxAge: int, now: int)

  function Adds(t: Table, p: Key, s: Session, created: int, now: int): Table
  {
    var i := FirstFree(t.entries);
    if t.count >= MAX_SESSIONS || i == |t.entries| then t
    else Table(t.entries[i := Entry(p, s, created, now, true)], t.count + 1)
  }

  function Touched(t: Table, p: Key, now: int): Table
  {
    var i := SlotOf(t.entries, p);
    if i == |t.entries| then t else t.(entries := t.entries[i := t.entries[i].(lastUsed := now)])
  }

  function Removed(t: Table, p: Key): Table
  {
    var i := SlotOf(t.entries, p);
    if i == |t.entries| then t else Table(t.entries[i := BLANK], t.count - 1)
  }

  function Cleaned(t: Table, maxAge: int, now: int): Table
  {
    if maxAge <= 0 then t
    else
      var es := Swept(t.entries, maxAge, now);
      Table(es, t.count - (Active(t.entries) - Active(es)))
  }

  function Step(t: Table, op: Op): Table
  {
    match op
    case Add(p, s, created, now) => Adds(t, p, s, created, now)
    case Find(p, now) => Touched(t, p, now)
    case Remove(p) => Removed(t, p)
    case Cleanup(maxAge, now) => Cleaned(t, maxAge, now)
  }

  function Run(t: Table, ops: seq<Op>): Table
    decreases |ops|
  {
    if ops == [] then t else Run(Step(t, ops[0]), ops[1..])
  }

  // ---------------------------------------------------------------- the count

  ghost predicate TableOk(t: Table)
  {
    |t.entries| == MAX_SESSIONS && t.count == Active(t.entries)
  }

  lemma {:induction false} ActiveUpdate(es: seq<Entry>, i: nat, e: Entry)
    requires i < |es|
    ensures Active(es[i := e]) == Active(es) - (if es[i].active then 1 else 0) + (if e.active then 1 else 0)
  {
    var n := |es| - 1;
    if i < n {
      assert es[i := e][..n] == es[..n][i := e];
      ActiveUpdate(es[..n], i, e);
    } else {
      assert es[i := e][..n] == es[..n];
    }
  }

  /** The pigeonhole: fewer active slots than slots means one of them is free. */
  lemma {:induction false} FreeSlotExists(es: seq<Entry>)
    ensures FirstFree(es) < |es| <==> Active(es) < |es|
  {
    if es == [] {
    } else {
      var n := |es| - 1;
      FreeSlotExists(es[..n]);
      if FirstFree(es) == |es| {
        assert es[n].active && forall k :: 0 <= k < n ==> es[..n][k].active;
      } else if FirstFree(es) < n {
        assert !es[..n][FirstFree(es)].active;
      }
    }
  }

  lemma {:induction false} NoneActive(es: seq<Entry>)
    requires forall k :: 0 <= k < |es| ==> es[k] == BLANK
    ensures Active(es) == 0
  {
    if es == [] {
    } else {
      NoneActive(es[..|es| - 1]);
    }
  }

  lemma StepOk(t: Table, op: Op)
    requires TableOk(t)
    ensures TableOk(Step(t, op))
    ensures op.Add? ==> (Step(t, op) != t <==> t.count < 256)
  {
    match op
    case Add(p, s, created, now) =>
      FreeSlotExists(t.entries);
      if FirstFree(t.entries) < |t.entries| {
        ActiveUpdate(t.entries, FirstFree(t.entries), Entry(p, s, created, now, true));
      }
    case Find(p, now) =>
      var i := SlotOf(t.entries, p);
      if i < |t.entries| {
        ActiveUpdate(t.entries, i, t.entries[i].(lastUsed := now));
      }
    case Remove(p) =>
      var i := SlotOf(t.entries, p);
      if i < |t.entries| {
        ActiveUpdate(t.entries, i, BLANK);
      }
    case Cleanup(_, _) =>
  }

  /** In every reachable table the count is the number of active slots. */
  lemma {:induction false} RunOk(t: Table, ops: seq<Op>)
    requires TableOk(t)
    ensures TableOk(Run(t, ops))
    decreases |ops|
  {
    if ops == [] {
    } else {
      StepOk(t, ops[0]);
      RunOk(Step(t, ops[0]), ops[1..]);
    }
  }

  lemma EmptyOk()
    ensures TableOk(EMPTY)
  {
    NoneActive(EMPTY.entries);
  }

  /** A slot that is not in use holds nothing: no key outlives its session. */
  ghost predicate Erased(es: seq<Entry>)
  {
    forall i :: 0 <= i < |es| && !es[i].active ==> es[i] == Entry(Zeros(32), Session(Zeros(32), Zeros(32)), 0, 0, false)
  }

  lemma StepErases(t: Table, op: Op)
    requires Erased(t.entries)
    ensures Erased(Step(t, op).entries)
  {
    hide Active;
  }

  /** In every reachable table the unused slots are zeroed. */
  lemma {:induction false} RunErases(ops: seq<Op>, t: Table)
    requires Erased(t.entries)
    ensures Erased(Run(t, ops).entries)
    decreases |ops|
  {
    hide Step, Erased;
    if ops == [] {
    } else {
      StepErases(t, ops[0]);
      RunErases(ops[1..], Step(t, ops[0]));
    }
  }

  // ---------------------------------------------------------------- ageing

  /** An active entry of the peer used at `since` or later. */
  ghost predicate UsedSince(es: seq<Entry>, p: Key, since: int)
  {
    exists i :: 0 <= i < |es| && IsFor(es[i], p) && es[i].lastUsed >= since
  }

  /**
   The clock never goes back, the peer is not removed, and every cleanup happens within its age
   of `since`.
   */
  ghost predicate Spares(ops: seq<Op>, p: Key, since: int, clock: int)
    decreases |ops|
  {
    ops == [] ||
    match ops[0]
    case Add(_, _, _, now) => now >= clock && Spares(ops[1..], p, since, now)
    case Find(_, now) => now >= clock && Spares(ops[1..], p, since, now)
    case Remove(q) => q != p && Spares(ops[1..], p, since, clock)
    case Cleanup(maxAge, now) =>
      now >= clock && (maxAge <= 0 || now <= since + maxAge) && Spares(ops[1..], p, since, now)
  }

  lemma StepSpares(t: Table, op: Op, rest: seq<Op>, p: Key, since: int, clock: int)
    requires since <= clock && UsedSince(t.entries, p, since) && Spares([op] + rest, p, since, clock)
    ensures UsedSince(Step(t, op).entries, p, since)
  {
    var i :| 0 <= i < |t.entries| && IsFor(t.entries[i], p) && t.entries[i].lastUsed >= since;
    var t' := Step(t, op);
    assert IsFor(t'.entries[i], p) && t'.entries[i].lastUsed >= since;
  }

  /** A peer found at some time stays findable through every such run. */
  lemma {:induction false} StaysFindable(t: Table, ops: seq<Op>, p: Key, since: int, clock: int)
    requires since <= clock && UsedSince(t.entries, p, since) && Spares(ops, p, since, clock)
    ensures Holds(Run(t, ops).entries, p)
    decreases |ops|
  {
    if ops == [] {
      var i :| 0 <= i < |t.entries| && IsFor(t.entries[i], p) && t.entries[i].lastUsed >= since;
      assert SlotOf(t.entries, p) <= i;
    } else {
      hide Step, UsedSince;
      var op := ops[0];
      assert [op] + ops[1..] == ops;
      StepSpares(t, op, ops[1..], p, since, clock);
      StaysFindable(Step(t, op), ops[1..], p, since, if op.Remove? then clock else op.now);
    }
  }

  /** Finding a peer is what makes it used since now. */
  lemma FindRefreshes(t: Table, p: Key, now: int)
    requires Holds(t.entries, p)
    ensures UsedSince(Touched(t, p, now).entries, p, now)
  {
    assert IsFor(Touched(t, p, now).entries[SlotOf(t.entries, p)], p);
  }

  /** A cleanup keeps a peer exactly when one of its entries is young enough. */
  lemma CleanupKeeps(t: Table, p: Key, maxAge: int, now: int)
    requires maxAge > 0
    ensures Holds(Cleaned(t, maxAge, now).entries, p) <==> UsedSince(t.entries, p, now - maxAge)
  {
    var es := Cleaned(t, maxAge, now).entries;
    if Holds(es, p) {
      assert IsFor(t.entries[SlotOf(es, p)], p);
    }
    if UsedSince(t.entries, p, now - maxAge) {
      var i :| 0 <= i < |t.entries| && IsFor(t.entries[i], p) && t.entries[i].lastUsed >= now - maxAge;
      assert IsFor(es[i], p);
    }
  }

  // ---------------------------------------------------------------- the table as a map

  /** No peer has two slots. */
  ghost predicate Unique(es: seq<Entry>)
  {
    forall i, j :: 0 <= i < j < |es| && es[i].active && es[j].active ==> es[i].peer != es[j].peer
  }

  datatype Known = Known(sess: Session, createdAt: int, lastUsed: int)

  function Lookup(es: seq<Entry>, p: Key): Option<Known>
  {
    var i := SlotOf(es, p);
    if i == |es| then None else Some(Known(es[i].sess, es[i].createdAt, es[i].lastUsed))
  }

  ghost predicate Refines(es: seq<Entry>, m: map<Key, Known>)
  {
    Unique(es) && forall p: Key :: Lookup(es, p) == if p in m then Some(m[p]) else None
  }

  function MapStep(m: map<Key, Known>, op: Op): map<Key, Known>
  {
    match op
    case Add(p, s, created, now) => if |m| < MAX_SESSIONS then m[p := Known(s, created, now)] else m
    case Find(p, now) => if p in m then m[p := m[p].(lastUsed := now)] else m
    case Remove(p) => m - {p}
    case Cleanup(maxAge, now) =>
      if maxAge <= 0 then m else map p | p in m && now - m[p].lastUsed <= maxAge :: m[p]
  }

  function MapRun(m: map<Key, Known>, ops: seq<Op>): map<Key, Known>
    decreases |ops|
  {
    if ops == [] then m else MapRun(MapStep(m, ops[0]), ops[1..])
  }

  /** Only peers that are absent are added. */
  predicate AddsAbsent(m: map<Key, Known>, ops: seq<Op>)
    decreases |ops|
  {
    ops == [] || ((ops[0].Add? ==> ops[0].peer !in m) && AddsAbsent(MapStep(m, ops[0]), ops[1..]))
  }

  lemma SlotUnique(es: seq<Entry>, p: Key, i: nat)
    requires Unique(es) && i < |es| && IsFor(es[i], p)
    ensures SlotOf(es, p) == i
  {
  }

  /** Writing slot `i` changes the answer only for the peers the slot was or becomes for. */
  lemma LookupUpdate(es: seq<Entry>, i: nat, e: Entry, p: Key)
    requires i < |es| && Unique(es) && Unique(es[i := e])
    ensures Lookup(es[i := e], p) ==
            if IsFor(e, p) then Some(Known(e.sess, e.createdAt, e.lastUsed))
            else if IsFor(es[i], p) then None else Lookup(es, p)
  {
    var es' := es[i := e];
    if IsFor(e, p) {
      SlotUnique(es', p, i);
    } else if Holds(es', p) {
      var j := SlotOf(es', p);
      assert IsFor(es[j], p);
      SlotUnique(es, p, j);
    } else if Holds(es, p) {
      assert !IsFor(es'[SlotOf(es, p)], p);
    }
  }

  function Peers(es: seq<Entry>): set<Key>
  {
    set e | e in es && e.active :: e.peer
  }

  lemma {:induction false} ActiveIsPeers(es: seq<Entry>)
    requires Unique(es)
    ensures Active(es) == |Peers(es)|
  {
    if es == [] {
    } else {
      var n := |es| - 1;
      ActiveIsPeers(es[..n]);
      assert es == es[..n] + [es[n]];
      if es[n].active {
        assert es[n].peer !in Peers(es[..n]);
        assert Peers(es) == Peers(es[..n]) + {es[n].peer};
      } else {
        assert Peers(es) == Peers(es[..n]);
      }
    }
  }

  lemma RefinedSize(es: seq<Entry>, m: map<Key, Known>)
    requires Refines(es, m)
    ensures |m| == Active(es)
  {
    ActiveIsPeers(es);
    forall p: Key ensures p in m <==> p in Peers(es) {
      assert Lookup(es, p).Some? <==> p in m;
      if Holds(es, p) {
        assert es[SlotOf(es, p)] in es;
      }
      if p in Peers(es) {
        var i :| 0 <= i < |es| && IsFor(es[i], p);
      }
    }
    assert m.Keys == Peers(es);
    assert |m.Keys| == |m|;
  }

  lemma RefineAdd(t: Table, m: map<Key, Known>, op: Op)
    requires TableOk(t) && Refines(t.entries, m) && op.Add? && op.peer !in m
    ensures Refines(Step(t, op).entries, MapStep(m, op))
  {
    hide Lookup, SlotOf;
    RefinedSize(t.entries, m);
    FreeSlotExists(t.entries);
    var i := FirstFree(t.entries);
    if i < |t.entries| {
      var e := Entry(op.peer, op.sess, op.created, op.now, true);
      AbsentEverywhere(t.entries, op.peer, m);
      forall p: Key
        ensures Lookup(t.entries[i := e], p) == if p in MapStep(m, op) then Some(MapStep(m, op)[p]) else None
      {
        LookupUpdate(t.entries, i, e, p);
      }
    }
  }

  lemma AbsentEverywhere(es: seq<Entry>, p: Key, m: map<Key, Known>)
    requires Refines(es, m) && p !in m
    ensures forall i :: 0 <= i < |es| ==> !IsFor(es[i], p)
  {
    assert Lookup(es, p).None?;
  }

  lemma RefineFind(t: Table, m: map<Key, Known>, op: Op)
    requires Refines(t.entries, m) && op.Find?
    ensures Refines(Step(t, op).entries, MapStep(m, op))
  {
    var i, m' := SlotOf(t.entries, op.peer), MapStep(m, op);
    assert Lookup(t.entries, op.peer) == if op.peer in m then Some(m[op.peer]) else None;
    if i < |t.entries| {
      var e := t.entries[i].(lastUsed := op.now);
      forall p: Key ensures Lookup(t.entries[i := e], p) == if p in m' then Some(m'[p]) else None {
        LookupUpdate(t.entries, i, e, p);
      }
    }
  }

  lemma RefineRemove(t: Table, m: map<Key, Known>, op: Op)
    requires Refines(t.entries, m) && op.Remove?
    ensures Refines(Step(t, op).entries, MapStep(m, op))
  {
    var i, m' := SlotOf(t.entries, op.peer), MapStep(m, op);
    assert Lookup(t.entries, op.peer) == if op.peer in m then Some(m[op.peer]) else None;
    if i < |t.entries| {
      forall p: Key ensures Lookup(t.entries[i := BLANK], p) == if p in m' then Some(m'[p]) else None {
        LookupUpdate(t.entries, i, BLANK, p);
      }
    }
  }

  lemma LookupSwept(es: seq<Entry>, maxAge: int, now: int, p: Key)
    requires Unique(es)
    ensures Lookup(Swept(es, maxAge, now), p) ==
            if Lookup(es, p).Some? && now - Lookup(es, p).value.lastUsed <= maxAge then Lookup(es, p) else None
  {
    var es' := Swept(es, maxAge, now);
    if Holds(es', p) {
      SlotUnique(es, p, SlotOf(es', p));
    } else if Holds(es, p) {
      assert !IsFor(es'[SlotOf(es, p)], p);
    }
  }

  lemma RefineCleanup(t: Table, m: map<Key, Known>, op: Op)
    requires Refines(t.entries, m) && op.Cleanup?
    ensures Refines(Step(t, op).entries, MapStep(m, op))
  {
    if op.maxAge > 0 {
      hide Lookup;
      var es', m' := Swept(t.entries, op.maxAge, op.now), MapStep(m, op);
      forall p: Key ensures Lookup(es', p) == if p in m' then Some(m'[p]) else None {
        LookupSwept(t.entries, op.maxAge, op.now, p);
      }
    }
  }

  /** As long as only absent peers are added, the table and a map answer alike after every run. */
  lemma {:induction false} RunRefines(t: Table, m: map<Key, Known>, ops: seq<Op>)
    requires TableOk(t) && Refines(t.entries, m) && AddsAbsent(m, ops)
    ensures Refines(Run(t, ops).entries, MapRun(m, ops)) && Run(t, ops).count == |MapRun(m, ops)|
    decreases |ops|
  {
    if ops == [] {
      RefinedSize(t.entries, m);
    } else {
      hide Refines, Step, MapStep;
      StepOk(t, ops[0]);
      match ops[0] {
        case Add(_, _, _, _) => RefineAdd(t, m, ops[0]);
        case Find(_, _) => RefineFind(t, m, ops[0]);
        case Remove(_) => RefineRemove(t, m, ops[0]);
        case Cleanup(_, _) => RefineCleanup(t, m, ops[0]);
      }
      RunRefines(Step(t, ops[0]), MapStep(m, ops[0]), ops[1..]);
    }
  }

  // ---------------------------------------------------------------- adding a peer that is present

  /**
   A session just added is the one found exactly when the peer was absent, or its old slot lies
   behind the free one, or the old session is the same.
   */
  lemma AddedIsFound(t: Table, p: Key, s: Session, created: int, now: int)
    requires TableOk(t) && t.count < MAX_SESSIONS
    ensures var found := Lookup(Adds(t, p, s, created, now).entries, p);
            && found.Some?
            && (found.value.sess == s
                <==> (!Holds(t.entries, p) || FirstFree(t.entries) < SlotOf(t.entries, p)
                      || t.entries[SlotOf(t.entries, p)].sess == s))
  {
    FreeSlotExists(t.entries);
    var i, j, es := FirstFree(t.entries), SlotOf(t.entries, p), Adds(t, p, s, created, now).entries;
    assert IsFor(es[i], p);
    if j < i {
      assert IsFor(es[j], p);
      assert SlotOf(es, p) == j;
    } else {
      assert SlotOf(es, p) == i;
    }
  }

  /** A removed peer is gone exactly when it had a single slot. */
  lemma RemovedIsGone(t: Table, p: Key)
    requires Holds(t.entries, p)
    ensures !Holds(Removed(t, p).entries, p)
            <==> (forall i, j ::
                    0 <= i < j < |t.entries| ==> !IsFor(t.entries[i], p) || !IsFor(t.entries[j], p))
  {
    var es, es', i := t.entries, Removed(t, p).entries, SlotOf(t.entries, p);
    if Holds(es', p) {
      assert IsFor(es[SlotOf(es', p)], p) && SlotOf(es', p) != i;
    }
    forall a, b | 0 <= a < |es| && 0 <= b < |es| && IsFor(es[a], p) && IsFor(es[b], p) && a != b
      ensures Holds(es', p)
    {
      var other := if a == i then b else a;
      assert IsFor(es'[other], p);
    }
  }

  /** Added twice, a peer is still found with its first session, and removing it once leaves it. */
  lemma AddedTwice(p: Key, s: Session, s': Session)
    requires s != s'
    ensures var t := Adds(Adds(EMPTY, p, s, 0, 0), p, s', 1, 1);
            && Lookup(t.entries, p) == Some(Known(s, 0, 0))
            && Holds(Removed(t, p).entries, p)
  {
    var t1 := Adds(EMPTY, p, s, 0, 0);
    assert t1.entries[0] == Entry(p, s, 0, 0, true) && t1.count == 1;
    assert FirstFree(t1.entries) == 1;
    var t := Adds(t1, p, s', 1, 1);
    assert IsFor(t.entries[0], p) && SlotOf(t.entries, p) == 0;
    assert IsFor(Removed(t, p).entries[1], p);
  }

  // ---------------------------------------------------------------- the C functions

  class Sessions {
    const entries: array<Entry>
    var count: int

    function Value(): Table
      reads this, entries
    {
      Table(entries[..], count)
    }

    ghost predicate Valid()
      reads this, entries
    {
      TableOk(Value())
    }

    constructor ()
      ensures Valid() && Value() == EMPTY && fresh(entries)
    {
      entries := new Entry[MAX_SESSIONS](_ => BLANK);
      count := 0;
      new;
      assert entries[..] == EMPTY.entries;
      EmptyOk();
    }

    method Add(p: Key, s: Session, created: int, now: int) returns (rc: int)
      requires Valid()
      modifies this, entries
      ensures Valid()
      ensures Value() == Adds(old(Value()), p, s, created, now)
      ensures rc == if old(count) < MAX_SESSIONS then 0 else -1
    {
      ghost var t := Value();
      StepOk(t, Op.Add(p, s, created, now));
      FreeSlotExists(t.entries);
      if count >= MAX_SESSIONS {
        return -1;
      }
      for i := 0 to MAX_SESSIONS
        invariant Value() == t
        invariant i <= FirstFree(t.entries)
      {
        if !entries[i].active {
          entries[i] := Entry(p, s, created, now, true);
          count := count + 1;
          return 0;
        }
      }
      return -1;
    }

    method Find(p: Key, now: int) returns (s: Option<Session>)
      requires Valid()
      modifies entries
      ensures Valid()
      ensures Value() == Touched(old(Value()), p, now)
      ensures s == match Lookup(old(Value()).entries, p) case None => None case Some(k) => Some(k.sess)
    {
      ghost var t := Value();
      StepOk(t, Op.Find(p, now));
      for i := 0 to MAX_SESSIONS
        invariant Value() == t
        invariant i <= SlotOf(t.entries, p)
      {
        if entries[i].active && entries[i].peer == p {
          entries[i] := entries[i].(lastUsed := now);
          return Some(entries[i].sess);
        }
      }
      return None;
    }

    method Remove(p: Key) returns (rc: int)
      requires Valid()
      modifies this, entries
      ensures Valid()
      ensures Value() == Removed(old(Value()), p)
      ensures rc == if Holds(old(Value()).entries, p) then 0 else -1
    {
      ghost var t := Value();
      StepOk(t, Op.Remove(p));
      for i := 0 to MAX_SESSIONS
        invariant Value() == t
        invariant i <= SlotOf(t.entries, p)
      {
        if entries[i].active && entries[i].peer == p {
          entries[i] := BLANK;
          count := count - 1;
          return 0;
        }
      }
      return -1;
    }

    method Cleanup(maxAge: int, now: int)
      requires Valid()
      modifies this, entries
      ensures Valid()
      ensures Value() == Cleaned(old(Value()), maxAge, now)
    {
      if maxAge <= 0 {
        return;
      }
      ghost var t := Value();
      for i := 0 to MAX_SESSIONS
        invariant count == Active(entries[..])
        invariant forall k :: 0 <= k < i ==>
                    entries[k] == if Stale(t.entries[k], maxAge, now) then BLANK else t.entries[k]
        invariant forall k :: i <= k < MAX_SESSIONS ==> entries[k] == t.entries[k]
      {
        if entries[i].active {
          if now - entries[i].lastUsed > maxAge {
            ActiveUpdate(entries[..], i, BLANK);
            ghost var before := entries[..];
            entries[i] := BLANK;
            assert entries[..] == before[i := BLANK];
            count := count - 1;
          }
        }
      }
      assert entries[..] == Swept(t.entries, maxAge, now);
    }
  }
}
