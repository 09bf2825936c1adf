/**
 The per-peer offline queue of src/koe_queue.c over the `queue` table of src/koe_db.c:330-408.
 Times are in seconds, so rows of one second are tied and which of them leaves first is open.
 */
module OfflineQueue {
  import opened Bytes
  import opened Packet

  const DEFAULT_MAX := 512
  const TTL := 7 * 24 * 3600

  datatype Row = Row(to: Key, bytes: seq<byte>, queuedAt: int, expiresAt: int, sequence: int)

  /** The rows by their AUTOINCREMENT id, and the next id. */
  datatype Table = Table(rows: map<nat, Row>, nextId: nat)

  /** The rows for a peer. */
  function Of(t: Table, to: Key): set<nat>
  {
    set id | id in t.rows && t.rows[id].to == to
  }

  function Depth(t: Table, to: Key): nat
  {
    |Of(t, to)|
  }

  /** What `ORDER BY sequence ASC LIMIT 1` may pick. */
  predicate Oldest(t: Table, to: Key, id: nat)
  {
    && id in t.rows && t.rows[id].to == to
    && forall j :: j in t.rows && t.rows[j].to == to ==> t.rows[id].sequence <= t.rows[j].sequence
  }

  function RowFor(p: Packet, now: int): Row
    requires Canonical(p)
  {
    Row(p.header.to, Encode(p), now, now + TTL, now)
  }

  function Expired(t: Table, now: int): set<nat>
  {
    set id | id in t.rows && t.rows[id].expiresAt <= now
  }

  // ---------------------------------------------------------------- histories

  datatype Fate = Popped | Evicted | TimedOut

  /**
   The table with its past: the table at the start, every row there ever was, the packet pushed
   into each row of this run, how rows left, in which order those popped or evicted left, the time of
   the latest push, and whether the clock was steady: no push before an earlier one.
   */
  datatype World = World(
    table: Table, start: Table, ever: map<nat, Row>, packets: map<nat, Packet>,
    fates: map<nat, Fate>, order: seq<nat>, clock: int, steady: bool)

  function Leave(w: World, id: nat, fate: Fate): World
  {
    w.(table := w.table.(rows := w.table.rows - {id}), fates := w.fates[id := fate], order := w.order + [id])
  }

  function Insert(w: World, p: Packet, now: int): World
    requires Canonical(p)
  {
    var id := w.table.nextId;
    w.(table := Table(w.table.rows[id := RowFor(p, now)], id + 1),
       ever := w.ever[id := RowFor(p, now)], packets := w.packets[id := p],
       clock := now, steady := w.steady && now >= w.clock)
  }

  datatype Op =
    | Push(p: Packet, now: int, evict: nat)  // `evict` is the row dropped when the peer is at its limit
    | Pop(to: Key, id: nat)
    | Expire(now: int)

  predicate Enabled(max: nat, w: World, op: Op)
  {
    match op
    case Push(p, now, evict) =>
      Canonical(p) && (Depth(w.table, p.header.to) >= max ==> Oldest(w.table, p.header.to, evict))
    case Pop(to, id) => Oldest(w.table, to, id)
    case Expire(_) => true
  }

  function Step(max: nat, w: World, op: Op): World
    requires Enabled(max, w, op)
  {
    match op
    case Push(p, now, evict) =>
      Insert(if Depth(w.table, p.header.to) >= max then Leave(w, evict, Evicted) else w, p, now)
    case Pop(_, id) => Leave(w, id, Popped)
    case Expire(now) =>
      var gone := Expired(w.table, now);
      w.(table := w.table.(rows := w.table.rows - gone), fates := w.fates + map id | id in gone :: TimedOut)
  }

  // ---------------------------------------------------------------- what every history keeps

  /** Rows are neither made up, nor changed, nor lost: each is in the table or has exactly one fate. */
  ghost predicate Accounted(w: World)
  {
    && w.fates.Keys <= w.ever.Keys
    && w.table.rows.Keys == w.ever.Keys - w.fates.Keys
    && (forall id :: id in w.table.rows ==> w.table.rows[id] == w.ever[id])
    && (forall id :: id in w.ever ==> id < w.table.nextId)
  }

  /** Rows hold the packets pushed, addressed to the same peer. */
  ghost predicate Faithful(w: World)
  {
    && w.packets.Keys <= w.ever.Keys
    && forall id :: id in w.packets ==>
         && Canonical(w.packets[id]) && w.ever[id].bytes == Encode(w.packets[id])
         && w.ever[id].to == w.packets[id].header.to
  }

  ghost predicate Placed(w: World)
  {
    forall k :: 0 <= k < |w.order| ==> w.order[k] in w.fates && w.order[k] in w.ever
  }

  /** For each peer, rows left in nondecreasing queue time, and none that waits is older. */
  ghost predicate Ordered(w: World)
    requires Placed(w)
  {
    && (forall k, l :: 0 <= k < l < |w.order| && w.ever[w.order[k]].to == w.ever[w.order[l]].to ==>
          w.ever[w.order[k]].sequence <= w.ever[w.order[l]].sequence)
    && (forall k, id :: 0 <= k < |w.order| && id in w.table.rows && w.ever[w.order[k]].to == w.table.rows[id].to ==>
          w.ever[w.order[k]].sequence <= w.table.rows[id].sequence)
    && (forall id :: id in w.ever ==> w.ever[id].sequence <= w.clock)
  }

  ghost predicate InOrder(w: World)
  {
    Placed(w) && (w.steady ==> Ordered(w))
  }

  /** No peer is deeper than the limit, or than it was at the start. */
  ghost predicate Bounded(max: nat, w: World)
  {
    forall to: Key :: Depth(w.table, to) <= max || Depth(w.table, to) <= Depth(w.start, to)
  }

  ghost predicate WorldOk(max: nat, w: World)
  {
    Accounted(w) && Faithful(w) && InOrder(w) && Bounded(max, w)
  }

  /** Any table left by an earlier run; the clock is steady so far when no row is ahead of it. */
  ghost predicate Initial(w: World)
  {
    && w.start == w.table && w.ever == w.table.rows && w.packets == map[] && w.fates == map[] && w.order == []
    && (forall id :: id in w.ever ==> id < w.table.nextId)
    && (w.steady <==> forall id :: id in w.ever ==> w.ever[id].sequence <= w.clock)
  }

  lemma LeaveKeys(w: World, id: nat, fate: Fate)
    ensures Leave(w, id, fate).table.rows.Keys == w.table.rows.Keys - {id}
    ensures Leave(w, id, fate).fates.Keys == w.fates.Keys + {id}
  {
  }

  lemma LeaveAccounted(w: World, to: Key, id: nat, fate: Fate)
    requires Accounted(w) && Faithful(w) && InOrder(w) && Oldest(w.table, to, id)
    ensures var w' := Leave(w, id, fate); Accounted(w') && Faithful(w') && InOrder(w')
  {
    hide Encode, Ordered, Oldest;
    LeaveKeys(w, id, fate);
    OldestIn(w.table, to, id);
    LeavePlaced(w, id, fate);
    if w.steady {
      LeaveOrdered(w, to, id, fate);
    }
  }

  lemma LeavePlaced(w: World, id: nat, fate: Fate)
    requires Accounted(w) && Placed(w) && id in w.table.rows
    ensures Placed(Leave(w, id, fate))
    ensures var w' := Leave(w, id, fate);
            |w'.order| == |w.order| + 1 && w'.order[|w.order|] == id && w'.order[..|w.order|] == w.order
  {
    var w' := Leave(w, id, fate);
    assert forall k :: 0 <= k < |w.order| ==> w'.order[k] == w.order[k];
  }

  lemma LeaveOrdered(w: World, to: Key, id: nat, fate: Fate)
    requires Accounted(w) && Placed(w) && Ordered(w) && Oldest(w.table, to, id)
    ensures Placed(Leave(w, id, fate)) && Ordered(Leave(w, id, fate))
  {
    hide Ordered, Accounted, Oldest;
    OldestIn(w.table, to, id);
    LeavePlaced(w, id, fate);
    LeaveSorted(w, to, id, Leave(w, id, fate));
  }

  lemma LeaveSorted(w: World, to: Key, id: nat, w': World)
    requires Accounted(w) && Placed(w) && Ordered(w) && Oldest(w.table, to, id) && Placed(w')
    requires w'.ever == w.ever && w'.table.rows == w.table.rows - {id} && w'.clock == w.clock
    requires |w'.order| == |w.order| + 1 && w'.order[|w.order|] == id && w'.order[..|w.order|] == w.order
    ensures Ordered(w')
  {
    var n := |w.order|;
    forall k | 0 <= k < n ensures w'.order[k] == w.order[k] {
      assert w'.order[k] == w'.order[..n][k];
    }
    forall j | j in w'.table.rows ensures j in w.table.rows && w'.table.rows[j] == w.table.rows[j] {
    }
    forall k, l | 0 <= k < l <= n && w.ever[w'.order[k]].to == w.ever[w'.order[l]].to
      ensures w.ever[w'.order[k]].sequence <= w.ever[w'.order[l]].sequence
    {
      if l == n {
        assert w.table.rows[id] == w.ever[id];
      }
    }
    forall k, j | 0 <= k <= n && j in w'.table.rows && w.ever[w'.order[k]].to == w.table.rows[j].to
      ensures w.ever[w'.order[k]].sequence <= w.table.rows[j].sequence
    {
      if k == n {
        assert w.table.rows[id] == w.ever[id];
      }
    }
  }

  lemma LeaveOthers(w: World, id: nat, fate: Fate, peer: Key)
    requires id in w.table.rows
    ensures Of(Leave(w, id, fate).table, peer) == Of(w.table, peer) - {id}
  {
  }

  lemma InsertAccounted(w: World, p: Packet, now: int)
    requires Accounted(w) && Faithful(w) && InOrder(w) && Canonical(p)
    ensures var w' := Insert(w, p, now); Accounted(w') && Faithful(w') && InOrder(w')
  {
    hide Insert, Accounted, Faithful, InOrder;
    InsertRows(w, p, now);
    InsertFaithful(w, p, now);
    InsertInOrder(w, p, now);
  }

  lemma InsertRows(w: World, p: Packet, now: int)
    requires Accounted(w) && Canonical(p)
    ensures Accounted(Insert(w, p, now))
  {
    hide RowFor;
    var id, w' := w.table.nextId, Insert(w, p, now);
    assert w'.ever.Keys == w.ever.Keys + {id};
    assert w'.table.rows.Keys == w.table.rows.Keys + {id};
  }

  lemma InsertFaithful(w: World, p: Packet, now: int)
    requires Accounted(w) && Faithful(w) && Canonical(p)
    ensures Faithful(Insert(w, p, now))
  {
    hide Encode;
  }

  lemma InsertInOrder(w: World, p: Packet, now: int)
    requires Accounted(w) && InOrder(w) && Canonical(p)
    ensures InOrder(Insert(w, p, now))
  {
    hide Encode, Ordered;
    var w' := Insert(w, p, now);
    assert Placed(w');
    if w'.steady {
      InsertOrdered(w, w', w.table.nextId, RowFor(p, now));
    }
  }

  /** A new row that is not older than any other keeps the order. */
  lemma InsertOrdered(w: World, w': World, id: nat, row: Row)
    requires Placed(w) && Ordered(w) && Placed(w') && id !in w.ever && id !in w.table.rows
    requires w'.order == w.order && w'.ever == w.ever[id := row] && w'.table.rows == w.table.rows[id := row]
    requires w.clock <= w'.clock == row.sequence
    ensures Ordered(w')
  {
    assert forall k :: 0 <= k < |w.order| ==> w'.ever[w.order[k]] == w.ever[w.order[k]];
  }

  lemma InsertOthers(w: World, p: Packet, now: int, peer: Key)
    requires Accounted(w) && Canonical(p)
    ensures Of(Insert(w, p, now).table, peer)
            == Of(w.table, peer) + (if peer == p.header.to then {w.table.nextId} else {})
    ensures w.table.nextId !in Of(w.table, peer)
  {
  }

  lemma PushKeeps(max: nat, w: World, p: Packet, now: int, evict: nat)
    requires max > 0 && WorldOk(max, w) && Enabled(max, w, Push(p, now, evict))
    ensures WorldOk(max, Step(max, w, Push(p, now, evict)))
  {
    hide Accounted, Faithful, InOrder, Oldest, Of, Insert, Leave;
    var to := p.header.to;
    var full := Depth(w.table, to) >= max;
    var mid := if full then Leave(w, evict, Evicted) else w;
    if full {
      LeaveAccounted(w, to, evict, Evicted);
      LeaveFrame(w, evict, Evicted);
    }
    InsertAccounted(mid, p, now);
    InsertFrame(mid, p, now);
    var w' := Insert(mid, p, now);
    forall peer: Key ensures Depth(w'.table, peer) <= max || Depth(w'.table, peer) <= Depth(w'.start, peer) {
      assert Depth(w.table, peer) <= max || Depth(w.table, peer) <= Depth(w.start, peer);
      InsertOthers(mid, p, now, peer);
      if full {
        OldestIn(w.table, to, evict);
        LeaveOthers(w, evict, Evicted, peer);
      }
    }
  }

  lemma OldestIn(t: Table, to: Key, id: nat)
    requires Oldest(t, to, id)
    ensures id in t.rows && id in Of(t, to)
  {
  }

  lemma InsertFrame(w: World, p: Packet, now: int)
    requires Canonical(p)
    ensures Insert(w, p, now).start == w.start
  {
  }

  lemma LeaveFrame(w: World, id: nat, fate: Fate)
    ensures Leave(w, id, fate).start == w.start
  {
  }

  lemma SubsetDepth(t: Table, t': Table, to: Key)
    requires Of(t', to) <= Of(t, to)
    ensures Depth(t', to) <= Depth(t, to)
  {
    var extra := Of(t, to) - Of(t', to);
    assert Of(t, to) == Of(t', to) + extra;
  }

  lemma PopKeeps(max: nat, w: World, to: Key, id: nat)
    requires WorldOk(max, w) && Oldest(w.table, to, id)
    ensures WorldOk(max, Leave(w, id, Popped))
  {
    hide Accounted, Faithful, InOrder, Oldest, Of, Leave;
    LeaveAccounted(w, to, id, Popped);
    LeaveFrame(w, id, Popped);
    var w' := Leave(w, id, Popped);
    forall peer: Key ensures Depth(w'.table, peer) <= max || Depth(w'.table, peer) <= Depth(w'.start, peer) {
      assert Depth(w.table, peer) <= max || Depth(w.table, peer) <= Depth(w.start, peer);
      OldestIn(w.table, to, id);
      LeaveOthers(w, id, Popped, peer);
      SubsetDepth(w.table, w'.table, peer);
    }
  }

  lemma ExpireKeys(max: nat, w: World, now: int)
    ensures Step(max, w, Expire(now)).table.rows.Keys == w.table.rows.Keys - Expired(w.table, now)
    ensures Step(max, w, Expire(now)).fates.Keys == w.fates.Keys + Expired(w.table, now)
  {
  }

  lemma ExpireAccounted(max: nat, w: World, now: int)
    requires Accounted(w) && InOrder(w)
    ensures Accounted(Step(max, w, Expire(now))) && InOrder(Step(max, w, Expire(now)))
  {
    ExpireKeys(max, w, now);
    assert Accounted(Step(max, w, Expire(now)));
    assert Placed(Step(max, w, Expire(now)));
  }

  lemma ExpireFaithful(max: nat, w: World, now: int)
    requires Faithful(w)
    ensures Faithful(Step(max, w, Expire(now)))
  {
    hide Encode;
  }

  lemma ExpireKeeps(max: nat, w: World, now: int)
    requires WorldOk(max, w)
    ensures WorldOk(max, Step(max, w, Expire(now)))
  {
    hide Accounted, Faithful, InOrder;
    ExpireAccounted(max, w, now);
    ExpireFaithful(max, w, now);
    var w' := Step(max, w, Expire(now));
    forall peer: Key ensures Depth(w'.table, peer) <= max || Depth(w'.table, peer) <= Depth(w'.start, peer) {
      assert Depth(w.table, peer) <= max || Depth(w.table, peer) <= Depth(w.start, peer);
      SubsetDepth(w.table, w'.table, peer);
    }
  }

  lemma StepKeeps(max: nat, w: World, op: Op)
    requires max > 0 && WorldOk(max, w) && Enabled(max, w, op)
    ensures WorldOk(max, Step(max, w, op))
  {
    hide WorldOk;
    match op
    case Push(p, now, evict) => PushKeeps(max, w, p, now, evict);
    case Pop(to, id) => PopKeeps(max, w, to, id);
    case Expire(now) => ExpireKeeps(max, w, now);
  }

  // ---------------------------------------------------------------- runs

  ghost predicate CanRun(max: nat, w: World, ops: seq<Op>)
    decreases |ops|
  {
    ops == [] || (Enabled(max, w, ops[0]) && CanRun(max, Step(max, w, ops[0]), ops[1..]))
  }

  ghost function Run(max: nat, w: World, ops: seq<Op>): World
    requires CanRun(max, w, ops)
    decreases |ops|
  {
    if ops == [] then w else Run(max, Step(max, w, ops[0]), ops[1..])
  }

  /**
   After every run: depths are bounded, with a steady clock rows left each peer's queue in
   queue-time order, rows carry the packets pushed, and every row is accounted for.
   */
  lemma {:induction false} RunKeeps(max: nat, w: World, ops: seq<Op>)
    requires max > 0 && WorldOk(max, w) && CanRun(max, w, ops)
    ensures WorldOk(max, Run(max, w, ops))
    decreases |ops|
  {
    hide WorldOk, Enabled, Step;
    if ops == [] {
    } else {
      StepKeeps(max, w, ops[0]);
      RunKeeps(max, Step(max, w, ops[0]), ops[1..]);
    }
  }

  lemma InitialOk(max: nat, w: World)
    requires Initial(w)
    ensures WorldOk(max, w)
  {
  }

  function With(w: World, f: Fate): set<nat>
  {
    set id | id in w.fates && w.fates[id] == f
  }

  /** pushed = popped + evicted + expired + remaining. */
  lemma Conserved(w: World)
    requires Accounted(w)
    ensures |w.ever| == |With(w, Popped)| + |With(w, Evicted)| + |With(w, TimedOut)| + |w.table.rows|
  {
    hide With;
    var a, b, c := With(w, Popped), With(w, Evicted), With(w, TimedOut);
    FatesPartition(w);
    DisjointSum(a, b);
    DisjointSum(a + b, c);
    EverParts(w);
    DisjointSum(w.fates.Keys, w.table.rows.Keys);
  }

  lemma EverParts(w: World)
    requires Accounted(w)
    ensures w.fates.Keys !! w.table.rows.Keys && w.ever.Keys == w.fates.Keys + w.table.rows.Keys
    ensures |w.ever.Keys| == |w.ever| && |w.table.rows.Keys| == |w.table.rows|
  {
  }

  lemma FatesPartition(w: World)
    ensures With(w, Popped) !! With(w, Evicted)
    ensures (With(w, Popped) + With(w, Evicted)) !! With(w, TimedOut)
    ensures w.fates.Keys == With(w, Popped) + With(w, Evicted) + With(w, TimedOut)
  {
  }

  lemma DisjointSum(a: set<nat>, b: set<nat>)
    requires a !! b
    ensures |a + b| == |a| + |b|
  {
  }

  /** What a pop makes of a packet pushed earlier: nothing if it is beyond the cap. */
  function Returned(p: Packet): Option<Packet>
  {
    if p.header.length <= MAX_PAYLOAD then Some(p) else None
  }

  lemma PopReturns(w: World, id: nat)
    requires Accounted(w) && Faithful(w) && id in w.table.rows && id in w.packets
    ensures Decode(w.table.rows[id].bytes) == Returned(w.packets[id])
  {
    hide Encode, Decode;
    var p := w.packets[id];
    DecodeEncode(p, []);
    assert Encode(p) + [] == Encode(p);
  }

  predicate Concerns(op: Op, peer: Key)
  {
    match op
    case Push(p, _, _) => p.header.to == peer
    case Pop(to, _) => to == peer
    case Expire(_) => true
  }

  /** The rows of a peer are the same in both tables. */
  ghost predicate SameFor(t: Table, t': Table, peer: Key)
  {
    Of(t', peer) == Of(t, peer) && forall id :: id in Of(t, peer) ==> t'.rows[id] == t.rows[id]
  }

  lemma LeaveSame(w: World, id: nat, fate: Fate, peer: Key)
    requires id in w.table.rows && w.table.rows[id].to != peer
    ensures SameFor(w.table, Leave(w, id, fate).table, peer)
  {
  }

  lemma InsertSame(w: World, p: Packet, now: int, peer: Key)
    requires Accounted(w) && Canonical(p) && p.header.to != peer
    ensures SameFor(w.table, Insert(w, p, now).table, peer)
  {
    hide Encode, SameFor;
    var t, t' := w.table, Insert(w, p, now).table;
    assert forall id :: id in t.rows ==> id != t.nextId && t'.rows[id] == t.rows[id];
    assert t'.rows[t.nextId].to != peer;
    assert Of(t', peer) == Of(t, peer);
    assert SameFor(t, t', peer) by { SameNow(t, t', peer); }
  }

  lemma SameNow(t: Table, t': Table, peer: Key)
    requires Of(t', peer) == Of(t, peer) && forall id :: id in Of(t, peer) ==> t'.rows[id] == t.rows[id]
    ensures SameFor(t, t', peer)
  {
  }

  lemma SameThen(t: Table, t': Table, t'': Table, peer: Key)
    requires SameFor(t, t', peer) && SameFor(t', t'', peer)
    ensures SameFor(t, t'', peer)
  {
  }

  lemma StepUntouched(max: nat, w: World, op: Op, peer: Key)
    requires Accounted(w) && Faithful(w) && InOrder(w) && Enabled(max, w, op) && !Concerns(op, peer)
    ensures SameFor(w.table, Step(max, w, op).table, peer)
  {
    hide Depth, SameFor, Leave, Insert, Accounted, Faithful, InOrder;
    if op.Pop? {
      LeaveSame(w, op.id, Popped, peer);
    } else if Depth(w.table, op.p.header.to) >= max {
      LeaveAccounted(w, op.p.header.to, op.evict, Evicted);
      LeaveSame(w, op.evict, Evicted, peer);
      var mid := Leave(w, op.evict, Evicted);
      InsertSame(mid, op.p, op.now, peer);
      SameThen(w.table, mid.table, Insert(mid, op.p, op.now).table, peer);
    } else {
      InsertSame(w, op.p, op.now, peer);
    }
  }

  /** Pushing to, popping from or draining other peers leaves the rows of a peer alone, however long the run. */
  lemma {:induction false} OthersUntouched(max: nat, w: World, ops: seq<Op>, peer: Key)
    requires max > 0 && WorldOk(max, w) && CanRun(max, w, ops)
    requires forall k :: 0 <= k < |ops| ==> !Concerns(ops[k], peer)
    ensures SameFor(w.table, Run(max, w, ops).table, peer)
    decreases |ops|
  {
    if ops == [] {
    } else {
      hide Enabled, Step, SameFor, WorldOk;
      WorldAccounted(max, w);
      StepUntouched(max, w, ops[0], peer);
      StepKeeps(max, w, ops[0]);
      OthersUntouched(max, Step(max, w, ops[0]), ops[1..], peer);
      SameThen(w.table, Step(max, w, ops[0]).table, Run(max, w, ops).table, peer);
    }
  }

  // ---------------------------------------------------------------- the run and its history

  /** The packets pushed by a run, in order. */
  function Pushed(ops: seq<Op>): seq<Packet>
  {
    if ops == [] then [] else (if ops[0].Push? then [ops[0].p] else []) + Pushed(ops[1..])
  }

  /** The rows popped by a run, in order. */
  function PoppedIds(ops: seq<Op>): seq<nat>
  {
    if ops == [] then [] else (if ops[0].Pop? then [ops[0].id] else []) + PoppedIds(ops[1..])
  }

  /** What the pops of a run return, in order. */
  ghost function Results(max: nat, w: World, ops: seq<Op>): (rs: seq<Option<Packet>>)
    requires CanRun(max, w, ops)
    ensures |rs| == |PoppedIds(ops)|
    decreases |ops|
  {
    if ops == [] then []
    else (if ops[0].Pop? then [Decode(w.table.rows[ops[0].id].bytes)] else [])
         + Results(max, Step(max, w, ops[0]), ops[1..])
  }

  /** The clock does not go back from push to push. */
  predicate Timed(ops: seq<Op>, clock: int)
    decreases |ops|
  {
    ops == [] || (if ops[0].Push? then ops[0].now >= clock && Timed(ops[1..], ops[0].now) else Timed(ops[1..], clock))
  }

  /** A push adds the next row and its packet; nothing else adds or changes one. */
  lemma StepAdds(max: nat, w: World, op: Op)
    requires Accounted(w) && Enabled(max, w, op)
    ensures var w' := Step(max, w, op);
            if op.Push? then
              && w'.table.nextId == w.table.nextId + 1 && |w'.ever| == |w.ever| + 1
              && w'.packets == w.packets[w.table.nextId := op.p]
              && w'.ever == w.ever[w.table.nextId := RowFor(op.p, op.now)]
              && w'.clock == op.now && w'.steady == (w.steady && op.now >= w.clock)
            else
              && w'.table.nextId == w.table.nextId && w'.ever == w.ever && w'.packets == w.packets
              && w'.clock == w.clock && w'.steady == w.steady
  {
    hide Depth, RowFor, Oldest, Accounted, Insert;
    if op.Push? {
      if Depth(w.table, op.p.header.to) >= max {
        InsertAdds(Leave(w, op.evict, Evicted), w, op.p, op.now);
      } else {
        InsertAdds(w, w, op.p, op.now);
      }
    }
  }

  lemma InsertAdds(w: World, before: World, p: Packet, now: int)
    requires Accounted(before) && Canonical(p) && w.ever == before.ever && w.table.nextId == before.table.nextId
    ensures var w' := Insert(w, p, now);
            && w'.table.nextId == w.table.nextId + 1 && |w'.ever| == |w.ever| + 1
            && w'.packets == w.packets[w.table.nextId := p]
            && w'.ever == w.ever[w.table.nextId := RowFor(p, now)]
            && w'.clock == now && w'.steady == (w.steady && now >= w.clock)
  {
    hide RowFor;
    var w' := Insert(w, p, now);
    assert w.table.nextId !in w.ever;
    assert w'.ever.Keys == w.ever.Keys + {w.table.nextId};
    assert |w'.ever.Keys| == |w'.ever| && |w.ever.Keys| == |w.ever|;
  }

  /** A pop marks its row, which was not marked before; nothing else marks rows as popped. */
  lemma StepPops(max: nat, w: World, op: Op)
    requires Accounted(w) && Enabled(max, w, op)
    ensures var w' := Step(max, w, op);
            if op.Pop? then op.id !in With(w, Popped) && With(w', Popped) == With(w, Popped) + {op.id}
            else With(w', Popped) == With(w, Popped)
  {
    hide Depth, RowFor;
  }

  lemma WorldAccounted(max: nat, w: World)
    requires WorldOk(max, w)
    ensures Accounted(w) && Faithful(w) && InOrder(w)
    ensures forall id :: id in w.packets ==> id < w.table.nextId
  {
  }

  /** Each push adds one row, under the next id. */
  lemma {:induction false} RunAdds(max: nat, w: World, ops: seq<Op>)
    requires max > 0 && WorldOk(max, w) && CanRun(max, w, ops)
    ensures var w' := Run(max, w, ops);
            && |w'.ever| == |w.ever| + |Pushed(ops)|
            && w'.table.nextId == w.table.nextId + |Pushed(ops)|
            && (w.steady && Timed(ops, w.clock) ==> w'.steady)
    decreases |ops|
  {
    hide Accounted, Faithful, InOrder, Enabled, Step, WorldOk;
    if ops == [] {
    } else {
      WorldAccounted(max, w);
      StepAdds(max, w, ops[0]);
      StepKeeps(max, w, ops[0]);
      RunAdds(max, Step(max, w, ops[0]), ops[1..]);
    }
  }

  /** Later operations do not touch what is recorded for an id already given out. */
  lemma {:induction false} PacketStays(max: nat, w: World, ops: seq<Op>, id: nat)
    requires max > 0 && WorldOk(max, w) && CanRun(max, w, ops) && id < w.table.nextId
    ensures var w' := Run(max, w, ops);
            (id in w'.packets <==> id in w.packets) && (id in w.packets ==> w'.packets[id] == w.packets[id])
    decreases |ops|
  {
    hide Accounted, Faithful, InOrder, Enabled, Step, WorldOk;
    if ops == [] {
    } else {
      WorldAccounted(max, w);
      StepAdds(max, w, ops[0]);
      StepKeeps(max, w, ops[0]);
      PacketStays(max, Step(max, w, ops[0]), ops[1..], id);
    }
  }

  /** The k-th packet pushed is in the k-th new row. */
  lemma {:induction false} RunPackets(max: nat, w: World, ops: seq<Op>, k: nat)
    requires max > 0 && WorldOk(max, w) && CanRun(max, w, ops) && k < |Pushed(ops)|
    ensures var w', id := Run(max, w, ops), w.table.nextId + k;
            id in w'.packets && w'.packets[id] == Pushed(ops)[k]
    decreases |ops|
  {
    hide Accounted, Faithful, InOrder, Enabled, Step, WorldOk;
    var op, rest, w1 := ops[0], ops[1..], Step(max, w, ops[0]);
    WorldAccounted(max, w);
    StepAdds(max, w, op);
    StepKeeps(max, w, op);
    if op.Push? && k == 0 {
      PacketStays(max, w1, rest, w.table.nextId);
    } else if op.Push? {
      assert Pushed(ops)[k] == Pushed(rest)[k - 1];
      RunPackets(max, w1, rest, k - 1);
    } else {
      RunPackets(max, w1, rest, k);
    }
  }

  /** The times of the pushes of a run, in order. */
  function PushTimes(ops: seq<Op>): (ts: seq<int>)
    ensures |ts| == |Pushed(ops)|
  {
    if ops == [] then [] else (if ops[0].Push? then [ops[0].now] else []) + PushTimes(ops[1..])
  }

  lemma {:induction false} RowStays(max: nat, w: World, ops: seq<Op>, id: nat)
    requires max > 0 && WorldOk(max, w) && CanRun(max, w, ops) && id in w.ever
    ensures id in Run(max, w, ops).ever && Run(max, w, ops).ever[id] == w.ever[id]
    decreases |ops|
  {
    hide Accounted, Faithful, InOrder, Enabled, Step, WorldOk;
    if ops == [] {
    } else {
      WorldAccounted(max, w);
      EverBelow(w, id);
      StepAdds(max, w, ops[0]);
      StepKeeps(max, w, ops[0]);
      RowStays(max, Step(max, w, ops[0]), ops[1..], id);
    }
  }

  lemma EverBelow(w: World, id: nat)
    requires Accounted(w) && id in w.ever
    ensures id < w.table.nextId
  {
  }

  /** The row of the k-th push: recipient, bytes, queued and ordered by the time of the push, due a week later. */
  lemma {:induction false} RunRows(max: nat, w: World, ops: seq<Op>, k: nat)
    requires max > 0 && WorldOk(max, w) && CanRun(max, w, ops) && k < |Pushed(ops)|
    ensures var w', id, p, t := Run(max, w, ops), w.table.nextId + k, Pushed(ops)[k], PushTimes(ops)[k];
            && Canonical(p) && id in w'.ever
            && w'.ever[id] == Row(p.header.to, Encode(p), t, t + 604800, t)
    decreases |ops|
  {
    hide Accounted, Faithful, InOrder, Step, WorldOk, Encode, Enabled, RowFor;
    var op, rest, w1 := ops[0], ops[1..], Step(max, w, ops[0]);
    WorldAccounted(max, w);
    StepAdds(max, w, op);
    StepKeeps(max, w, op);
    if op.Push? && k == 0 {
      RowStays(max, w1, rest, w.table.nextId);
      PushedRow(max, w, op);
    } else if op.Push? {
      assert Pushed(ops)[k] == Pushed(rest)[k - 1] && PushTimes(ops)[k] == PushTimes(rest)[k - 1];
      RunRows(max, w1, rest, k - 1);
    } else {
      RunRows(max, w1, rest, k);
    }
  }

  lemma PushedRow(max: nat, w: World, op: Op)
    requires Enabled(max, w, op) && op.Push?
    ensures Canonical(op.p)
    ensures RowFor(op.p, op.now) == Row(op.p.header.to, Encode(op.p), op.now, op.now + 604800, op.now)
  {
    hide Encode, Depth, Oldest;
  }

  // ---------------------------------------------------------------- expiry over runs

  /** An expiry keeps exactly the rows that are due later. */
  lemma ExpiryExact(max: nat, w: World, now: int, id: nat)
    ensures id in Step(max, w, Expire(now)).table.rows <==> id in w.table.rows && w.table.rows[id].expiresAt > now
    ensures id in Step(max, w, Expire(now)).table.rows ==>
              Step(max, w, Expire(now)).table.rows[id] == w.table.rows[id]
  {
  }

  /** Only an expiry at or after its time times a row out. */
  lemma StepTimesOut(max: nat, w: World, op: Op, id: nat)
    requires Accounted(w) && Enabled(max, w, op) && id !in With(w, TimedOut) && id in With(Step(max, w, op), TimedOut)
    ensures op.Expire? && id in w.ever && w.ever[id].expiresAt <= op.now
  {
    hide RowFor, Depth;
  }

  lemma {:induction false} TimedOutOnly(max: nat, w: World, ops: seq<Op>, id: nat) returns (j: nat)
    requires max > 0 && WorldOk(max, w) && CanRun(max, w, ops)
    requires id !in With(w, TimedOut) && id in With(Run(max, w, ops), TimedOut)
    ensures j < |ops| && ops[j].Expire?
    ensures id in Run(max, w, ops).ever && Run(max, w, ops).ever[id].expiresAt <= ops[j].now
    decreases |ops|
  {
    hide Accounted, Faithful, InOrder, Enabled, Step, WorldOk, With;
    var w1 := Step(max, w, ops[0]);
    WorldAccounted(max, w);
    StepKeeps(max, w, ops[0]);
    if id in With(w1, TimedOut) {
      StepTimesOut(max, w, ops[0], id);
      RowStays(max, w, ops, id);
      j := 0;
    } else {
      var later := TimedOutOnly(max, w1, ops[1..], id);
      j := later + 1;
    }
  }

  lemma FateStays(max: nat, w: World, op: Op, id: nat)
    requires Accounted(w) && Enabled(max, w, op) && id in w.ever && id !in w.table.rows
    ensures id !in Step(max, w, op).table.rows
  {
    hide RowFor, Depth;
  }

  lemma {:induction false} GoneStays(max: nat, w: World, ops: seq<Op>, id: nat)
    requires max > 0 && WorldOk(max, w) && CanRun(max, w, ops) && id in w.ever && id !in w.table.rows
    ensures id !in Run(max, w, ops).table.rows
    decreases |ops|
  {
    hide Accounted, Faithful, InOrder, Enabled, Step, WorldOk;
    if ops == [] {
    } else {
      WorldAccounted(max, w);
      FateStays(max, w, ops[0], id);
      RowStays(max, w, [ops[0]], id);
      StepKeeps(max, w, ops[0]);
      GoneStays(max, Step(max, w, ops[0]), ops[1..], id);
    }
  }

  /**
   A packet pushed at some time is timed out only by an expiry at least a week later, and whatever else happens
   it has left the queue after every such expiry.
   */
  lemma WeekLong(max: nat, w: World, ops: seq<Op>, k: nat)
    requires max > 0 && Initial(w) && CanRun(max, w, ops) && k < |Pushed(ops)|
    ensures w.table.nextId + k in With(Run(max, w, ops), TimedOut) ==>
              exists j :: 0 <= j < |ops| && ops[j].Expire? && ops[j].now >= PushTimes(ops)[k] + 604800
    ensures forall now, rest ::
              now >= PushTimes(ops)[k] + 604800 && CanRun(max, Run(max, w, ops), [Expire(now)] + rest) ==>
              w.table.nextId + k !in Run(max, Run(max, w, ops), [Expire(now)] + rest).table.rows
  {
    hide Run, CanRun, With, Initial;
    var w', id := Run(max, w, ops), w.table.nextId + k;
    InitialOk(max, w);
    RunKeeps(max, w, ops);
    RunRows(max, w, ops, k);
    NoneTimedOut(w);
    if id in With(w', TimedOut) {
      var j := TimedOutOnly(max, w, ops, id);
      assert ops[j].now >= PushTimes(ops)[k] + 604800;
    }
    forall now, rest | now >= PushTimes(ops)[k] + 604800 && CanRun(max, w', [Expire(now)] + rest)
      ensures id !in Run(max, w', [Expire(now)] + rest).table.rows
    {
      ExpiredGone(max, w', now, rest, id);
    }
  }

  lemma ExpiredGone(max: nat, w: World, now: int, rest: seq<Op>, id: nat)
    requires max > 0 && WorldOk(max, w) && CanRun(max, w, [Expire(now)] + rest)
    requires id in w.ever && w.ever[id].expiresAt <= now
    ensures id !in Run(max, w, [Expire(now)] + rest).table.rows
  {
    hide Accounted, Faithful, InOrder, Step, WorldOk;
    assert ([Expire(now)] + rest)[1..] == rest;
    WorldAccounted(max, w);
    StepKeeps(max, w, Expire(now));
    StepAdds(max, w, Expire(now));
    DueLeaves(max, w, now, id);
    GoneStays(max, Step(max, w, Expire(now)), rest, id);
  }

  lemma DueLeaves(max: nat, w: World, now: int, id: nat)
    requires Accounted(w) && id in w.ever && w.ever[id].expiresAt <= now
    ensures id !in Step(max, w, Expire(now)).table.rows
  {
    ExpiryExact(max, w, now, id);
  }

  lemma NoneTimedOut(w: World)
    requires Initial(w)
    ensures With(w, TimedOut) == {}
  {
  }

  lemma {:induction false} RunPops(max: nat, w: World, ops: seq<Op>)
    requires max > 0 && WorldOk(max, w) && CanRun(max, w, ops)
    ensures var w' := Run(max, w, ops);
            && |With(w', Popped)| == |With(w, Popped)| + |PoppedIds(ops)|
            && (forall id :: id in With(w', Popped) <==> id in With(w, Popped) || id in PoppedIds(ops))
    decreases |ops|
  {
    hide Accounted, Faithful, InOrder, Enabled, Step, WorldOk, With;
    if ops == [] {
    } else {
      var w1 := Step(max, w, ops[0]);
      WorldAccounted(max, w);
      StepPops(max, w, ops[0]);
      StepKeeps(max, w, ops[0]);
      RunPops(max, w1, ops[1..]);
    }
  }

  /** Every pop of a row pushed by the run returns the packet that was pushed into it. */
  lemma {:induction false} RunReturns(max: nat, w: World, ops: seq<Op>)
    requires max > 0 && WorldOk(max, w) && CanRun(max, w, ops)
    ensures var w', ids := Run(max, w, ops), PoppedIds(ops);
            forall k :: 0 <= k < |ids| && ids[k] in w'.packets ==>
              Results(max, w, ops)[k] == Returned(w'.packets[ids[k]])
    decreases |ops|
  {
    hide Accounted, Faithful, InOrder, Enabled, Step, WorldOk, Decode, Returned;
    if ops == [] {
    } else {
      var w1, w', ids := Step(max, w, ops[0]), Run(max, w, ops), PoppedIds(ops);
      StepKeeps(max, w, ops[0]);
      RunReturns(max, w1, ops[1..]);
      if ops[0].Pop? {
        FirstPop(max, w, ops);
        assert ids == [ops[0].id] + PoppedIds(ops[1..]);
      } else {
        assert ids == PoppedIds(ops[1..]);
      }
    }
  }

  lemma FirstPop(max: nat, w: World, ops: seq<Op>)
    requires max > 0 && WorldOk(max, w) && CanRun(max, w, ops) && ops != [] && ops[0].Pop?
    ensures ops[0].id in w.table.rows
    ensures var id, w' := ops[0].id, Run(max, w, ops);
            id in w'.packets ==> Decode(w.table.rows[id].bytes) == Returned(w'.packets[id])
  {
    hide Decode, Returned, Run, WorldOk;
    var id := ops[0].id;
    WorldAccounted(max, w);
    PacketStays(max, w, ops, id);
    if id in w.packets {
      PopReturns(w, id);
    }
  }

  /** A popped row with a new id returns the packet pushed under that id. */
  lemma PoppedPushed(max: nat, w: World, ops: seq<Op>, k: nat)
    requires max > 0 && Initial(w) && CanRun(max, w, ops)
    requires k < |PoppedIds(ops)| && PoppedIds(ops)[k] >= w.table.nextId
    ensures var m := PoppedIds(ops)[k] - w.table.nextId;
            m < |Pushed(ops)| && Results(max, w, ops)[k] == Returned(Pushed(ops)[m])
  {
    hide Run, CanRun, Results, Returned, Initial;
    InitialOk(max, w);
    PoppedIsOld(max, w, ops, k);
    RunPackets(max, w, ops, PoppedIds(ops)[k] - w.table.nextId);
    RunReturns(max, w, ops);
  }

  lemma PoppedIsOld(max: nat, w: World, ops: seq<Op>, k: nat)
    requires max > 0 && WorldOk(max, w) && CanRun(max, w, ops) && k < |PoppedIds(ops)|
    ensures PoppedIds(ops)[k] < w.table.nextId + |Pushed(ops)|
  {
    hide Run, CanRun, Faithful, InOrder, Bounded;
    var w' := Run(max, w, ops);
    RunPops(max, w, ops);
    RunKeeps(max, w, ops);
    RunAdds(max, w, ops);
    assert PoppedIds(ops)[k] in PoppedIds(ops);
    assert PoppedIds(ops)[k] in With(w', Popped);
  }

  lemma {:induction false} StartKept(max: nat, w: World, ops: seq<Op>)
    requires CanRun(max, w, ops)
    ensures Run(max, w, ops).start == w.start
    decreases |ops|
  {
    hide Depth, Enabled;
    if ops == [] {
    } else {
      StartKept(max, Step(max, w, ops[0]), ops[1..]);
    }
  }

  lemma RunBounded(max: nat, w: World, ops: seq<Op>)
    requires max > 0 && Initial(w) && CanRun(max, w, ops)
    ensures var t := Run(max, w, ops).table;
            forall to: Key :: Depth(t, to) <= max || Depth(t, to) <= Depth(w.table, to)
  {
    hide Run, CanRun, Depth, Accounted, Faithful, InOrder;
    InitialOk(max, w);
    RunKeeps(max, w, ops);
    StartKept(max, w, ops);
  }

  lemma RunOrdered(max: nat, w: World, ops: seq<Op>)
    requires max > 0 && Initial(w) && CanRun(max, w, ops) && w.steady && Timed(ops, w.clock)
    ensures Placed(Run(max, w, ops)) && Ordered(Run(max, w, ops))
  {
    hide Run, CanRun, Accounted, Faithful, Bounded, Placed, Ordered, Timed, Initial;
    InitialOk(max, w);
    RunKeeps(max, w, ops);
    RunAdds(max, w, ops);
  }

  lemma RunConserved(max: nat, w: World, ops: seq<Op>)
    requires max > 0 && Initial(w) && CanRun(max, w, ops)
    ensures var w' := Run(max, w, ops);
            && |w.table.rows| + |Pushed(ops)|
               == |PoppedIds(ops)| + |With(w', Evicted)| + |With(w', TimedOut)| + |w'.table.rows|
            && (forall id :: id in PoppedIds(ops) <==> id in With(w', Popped))
  {
    hide Run, CanRun, Accounted, Faithful, Bounded, InOrder, With, Pushed, PoppedIds;
    InitialOk(max, w);
    RunKeeps(max, w, ops);
    Conserved(Run(max, w, ops));
    RunAdds(max, w, ops);
    RunPops(max, w, ops);
    NonePopped(w);
  }

  /**
   The promises at once, for every run from any table an earlier run may have left.  Depths are bounded.
   Rows at the start plus packets pushed are pops plus evictions plus expiries plus rows at the end.
   Every pop of a row pushed by the run returns the packet pushed into it, the m-th new row being that
   of the m-th push.  With a clock that does not go back, each peer's rows left in queue-time order.
   */
  lemma EveryRun(max: nat, w: World, ops: seq<Op>)
    requires max > 0 && Initial(w) && CanRun(max, w, ops)
    ensures var w' := Run(max, w, ops);
            && (forall to: Key :: Depth(w'.table, to) <= max || Depth(w'.table, to) <= Depth(w.table, to))
            && |w.table.rows| + |Pushed(ops)|
               == |PoppedIds(ops)| + |With(w', Evicted)| + |With(w', TimedOut)| + |w'.table.rows|
            && (forall id :: id in PoppedIds(ops) <==> id in With(w', Popped))
            && (w.steady && Timed(ops, w.clock) ==> Placed(w') && Ordered(w'))
    ensures forall k :: 0 <= k < |PoppedIds(ops)| && PoppedIds(ops)[k] >= w.table.nextId ==>
              var m := PoppedIds(ops)[k] - w.table.nextId;
              m < |Pushed(ops)| && Results(max, w, ops)[k] == Returned(Pushed(ops)[m])
  {
    hide Run, CanRun, Results, Returned, Placed, Ordered, With, Depth, Timed, Initial, Pushed, PoppedIds;
    RunBounded(max, w, ops);
    RunConserved(max, w, ops);
    if w.steady && Timed(ops, w.clock) {
      RunOrdered(max, w, ops);
    }
    forall k | 0 <= k < |PoppedIds(ops)| && PoppedIds(ops)[k] >= w.table.nextId
      ensures var m := PoppedIds(ops)[k] - w.table.nextId;
              m < |Pushed(ops)| && Results(max, w, ops)[k] == Returned(Pushed(ops)[m])
    {
      PoppedPushed(max, w, ops, k);
    }
  }

  lemma NonePopped(w: World)
    requires w.fates == map[]
    ensures With(w, Popped) == {}
  {
  }

  // ---------------------------------------------------------------- the C functions

  lemma {:induction false} SomeOldest(t: Table, to: Key, among: set<nat>) returns (id: nat)
    requires among != {} && among <= Of(t, to)
    ensures id in among && forall j :: j in among ==> t.rows[id].sequence <= t.rows[j].sequence
    decreases |among|
  {
    var first :| first in among;
    if among == {first} {
      id := first;
    } else {
      var other := SomeOldest(t, to, among - {first});
      id := if t.rows[other].sequence < t.rows[first].sequence then other else first;
      forall j | j in among ensures t.rows[id].sequence <= t.rows[j].sequence {
        assert j == first || j in among - {first};
      }
    }
  }

  lemma OldestExists(t: Table, to: Key)
    requires Of(t, to) != {}
    ensures exists id :: id in t.rows && Oldest(t, to, id)
  {
    var id := SomeOldest(t, to, Of(t, to));
    forall j | j in t.rows && t.rows[j].to == to ensures t.rows[id].sequence <= t.rows[j].sequence {
      assert j in Of(t, to);
    }
    assert Oldest(t, to, id);
  }

  ghost function Pops(to: Key, ids: seq<nat>): (ops: seq<Op>)
    ensures |ops| == |ids|
  {
    if ids == [] then [] else Pops(to, ids[..|ids| - 1]) + [Pop(to, ids[|ids| - 1])]
  }

  lemma {:induction false} RunExtends(max: nat, w: World, ops: seq<Op>, op: Op)
    requires CanRun(max, w, ops) && Enabled(max, Run(max, w, ops), op)
    ensures CanRun(max, w, ops + [op]) && Run(max, w, ops + [op]) == Step(max, Run(max, w, ops), op)
    decreases |ops|
  {
    hide Enabled, Step;
    if ops == [] {
      assert ops + [op] == [op];
      assert [op][1..] == [];
    } else {
      assert (ops + [op])[1..] == ops[1..] + [op];
      RunExtends(max, Step(max, w, ops[0]), ops[1..], op);
    }
  }

  /** What is left of a table. */
  ghost predicate Remains(t: Table, t0: Table)
  {
    forall id :: id in t.rows ==> id in t0.rows && t.rows[id] == t0.rows[id]
  }

  /** The packets are what the rows decode to. */
  ghost predicate Carried(t: Table, ids: seq<nat>, ps: seq<Packet>)
  {
    |ps| <= |ids| && forall k :: 0 <= k < |ps| ==> ids[k] in t.rows && Decode(t.rows[ids[k]].bytes) == Some(ps[k])
  }

  lemma CarriedMore(t: Table, ids: seq<nat>, ps: seq<Packet>, id: nat)
    requires Carried(t, ids, ps) && |ids| == |ps| && id in t.rows
    ensures Carried(t, ids + [id], ps)
    ensures Decode(t.rows[id].bytes).Some? ==> Carried(t, ids + [id], ps + [Decode(t.rows[id].bytes).value])
  {
    hide Decode;
  }

  class Queue {
    const max: nat
    var table: Table
    ghost var world: World

    ghost predicate Valid()
      reads this
    {
      max > 0 && world.table == table && WorldOk(max, world)
    }

    /** koe_queue_open over the rows a database already holds. */
    constructor (maxPerPeer: int, rows: map<nat, Row>, nextId: nat, ghost now: int)
      requires forall id :: id in rows ==> id < nextId
      ensures Valid() && table == Table(rows, nextId) && Initial(world) && world.clock == now
      ensures max == if maxPerPeer > 0 then maxPerPeer else 512
    {
      max := if maxPerPeer > 0 then maxPerPeer else DEFAULT_MAX;
      table := Table(rows, nextId);
      world := World(Table(rows, nextId), Table(rows, nextId), rows, map[], map[], [], now,
                     forall id :: id in rows ==> rows[id].sequence <= now);
      new;
      InitialOk(max, world);
    }

    /** koe_db_queue_pop: some row of the peer with the least sequence leaves; None when there is none. */
    method TakeRow(to: Key, ghost fate: Fate) returns (row: Option<Row>, ghost id: nat)
      requires world.table == table
      modifies this`table, this`world
      ensures world.table == table
      ensures row.None? <==> Of(old(table), to) == {}
      ensures row.None? ==> table == old(table) && world == old(world)
      ensures row.Some? ==> Oldest(old(table), to, id) && row.value == old(table).rows[id]
                            && world == Leave(old(world), id, fate)
    {
      if Of(table, to) == {} {
        return None, 0;
      }
      OldestExists(table, to);
      var picked :| picked in table.rows && Oldest(table, to, picked);
      id := picked;
      row := Some(table.rows[picked]);
      table := table.(rows := table.rows - {picked});
      world := Leave(world, picked, fate);
    }

    /** `SELECT COUNT(*)`: a scan of the table. */
    method Count(to: Key) returns (n: nat)
      ensures n == Depth(table, to)
    {
      hide Of;
      n := 0;
      var todo := table.rows.Keys;
      NoneCounted(table, to);
      while todo != {}
        invariant todo <= table.rows.Keys && n == |Of(table, to) - todo|
        decreases |todo|
      {
        var id :| id in todo;
        Counted(table, to, todo, id);
        if table.rows[id].to == to {
          n := n + 1;
        }
        todo := todo - {id};
      }
      assert Of(table, to) - todo == Of(table, to);
    }

    /** Returns the row id.  A null payload is queued as the bytes the allocation happened to hold. */
    method Push(p: Packet, now: int) returns (rowId: nat, ghost stale: seq<byte>, ghost evict: nat)
      requires Valid() && Owned(p)
      modifies this`table, this`world
      ensures Valid() && |stale| == p.header.length
      ensures Enabled(max, old(world), Op.Push(OnWire(p, stale), now, evict))
      ensures world == Step(max, old(world), Op.Push(OnWire(p, stale), now, evict))
      ensures rowId == old(table).nextId
    {
      hide Encode, WorldOk, Oldest, Of, Body, HeaderBytes;
      ghost var w := world;
      evict := 0;
      var depth := Count(p.header.to);
      if depth >= max {
        DepthPositive(table, p.header.to);
        var _, id := TakeRow(p.header.to, Evicted);
        evict := id;
      }
      var total := HEADER_SIZE + p.header.length;
      var buf := new byte[total];
      stale := buf[HEADER_SIZE..total];
      var _ := Serialise(p, buf);
      OnWireBytes(p, stale);
      assert buf[..] == buf[..total];
      rowId := table.nextId;
      table := Table(table.rows[rowId := Row(p.header.to, buf[..], now, now + TTL, now)], rowId + 1);
      world := Insert(world, OnWire(p, stale), now);
      StepKeeps(max, w, Op.Push(OnWire(p, stale), now, evict));
    }

    /** None is the error return; a row that does not decode is consumed all the same. */
    method Pop(to: Key) returns (p: Option<Packet>, ghost id: nat)
      requires Valid()
      modifies this`table, this`world
      ensures Valid()
      ensures Of(old(table), to) == {} ==> p == None && world == old(world)
      ensures Of(old(table), to) != {} ==>
                && Oldest(old(table), to, id) && world == Leave(old(world), id, Popped)
                && p == Decode(old(table).rows[id].bytes)
    {
      hide Decode, WorldOk, Oldest, Of, Leave;
      ghost var w := world;
      var row;
      row, id := TakeRow(to, Popped);
      if row.None? {
        return None, id;
      }
      PopKeeps(max, w, to, id);
      var bytes := row.value.bytes;
      var buf := new byte[|bytes|](i requires 0 <= i < |bytes| => bytes[i]);
      assert buf[..|bytes|] == bytes;
      p := Deserialise(buf, |bytes|);
    }

    method Expire(now: int) returns (deleted: nat)
      requires Valid()
      modifies this`table, this`world
      ensures Valid()
      ensures world == Step(max, old(world), Op.Expire(now))
      ensures forall id :: id in table.rows <==> id in old(table).rows && old(table).rows[id].expiresAt > now
      ensures deleted == |old(table).rows| - |table.rows|
    {
      var gone := Expired(table, now);
      ExpireKeeps(max, world, now);
      var rows := table.rows - gone;
      assert rows.Keys == table.rows.Keys - gone;
      assert |rows.Keys| == |table.rows.Keys| - |gone|;
      deleted := |gone|;
      forall id ensures id in rows <==> id in table.rows && table.rows[id].expiresAt > now {
        ExpiryExact(max, world, now, id);
      }
      table := table.(rows := rows);
      world := Step(max, world, Op.Expire(now));
    }

    /**
     koe_queue_drain: `answers` are the results of the send callback, success once they run out.
     The packets offered to it are the peer's oldest rows in turn.  All of them leave the queue,
     the one whose send failed too; and unless a send failed or a row did not decode, none is left.
     The rows of every other peer stay as they were.
     */
    method Drain(to: Key, answers: seq<bool>) returns (sent: nat, offered: seq<Packet>, ghost ids: seq<nat>)
      requires Valid()
      modifies this`table, this`world
      ensures Valid()
      ensures CanRun(max, old(world), Pops(to, ids)) && world == Run(max, old(world), Pops(to, ids))
      ensures |offered| <= |ids| <= |offered| + 1 && sent <= |offered| <= sent + 1
      ensures Carried(old(table), ids, offered)
      ensures forall k :: 0 <= k < sent ==> k >= |answers| || answers[k]
      ensures |offered| == sent + 1 ==> sent < |answers| && !answers[sent] && |ids| == |offered|
      ensures |ids| == |offered| + 1 ==>
                ids[sent] in old(table).rows && Decode(old(table).rows[ids[sent]].bytes) == None
      ensures |ids| == sent ==> Of(table, to) == {}
      ensures forall peer: Key :: peer != to ==> SameFor(old(table), table, peer)
    {
      hide Decode, WorldOk, Of, Oldest, Leave, CanRun, Run, Pops, Carried, SameFor, Concerns;
      NoneCarried(table);
      sent, offered, ids := 0, [], [];
      ghost var w := world;
      NoPops(max, w, to);
      while true
        invariant Valid()
        invariant CanRun(max, w, Pops(to, ids)) && world == Run(max, w, Pops(to, ids))
        invariant |offered| == |ids| == sent
        invariant Remains(table, old(table)) && Carried(old(table), ids, offered)
        invariant forall k :: 0 <= k < sent ==> k >= |answers| || answers[k]
        decreases |table.rows|
      {
        ghost var before := world;
        var p, id := Pop(to);
        if Of(before.table, to) != {} {
          OnePop(max, w, to, ids, before, id);
          CarriedMore(old(table), ids, offered, id);
          ids := ids + [id];
        }
        if p.None? {
          break;
        }
        offered := offered + [p.value];
        if sent < |answers| && !answers[sent] {
          break;
        }
        sent := sent + 1;
      }
      forall peer: Key | peer != to ensures SameFor(old(table), table, peer) {
        PopsConcern(to, ids, peer);
        OthersUntouched(max, w, Pops(to, ids), peer);
      }
    }
  }

  lemma NoneCounted(t: Table, to: Key)
    ensures Of(t, to) - t.rows.Keys == {}
  {
  }

  lemma Counted(t: Table, to: Key, todo: set<nat>, id: nat)
    requires todo <= t.rows.Keys && id in todo
    ensures |Of(t, to) - (todo - {id})| == |Of(t, to) - todo| + (if t.rows[id].to == to then 1 else 0)
  {
    if t.rows[id].to == to {
      assert Of(t, to) - (todo - {id}) == (Of(t, to) - todo) + {id};
    } else {
      assert Of(t, to) - (todo - {id}) == Of(t, to) - todo;
    }
  }

  lemma {:induction false} PopsConcern(to: Key, ids: seq<nat>, peer: Key)
    requires peer != to
    ensures forall k :: 0 <= k < |ids| ==> !Concerns(Pops(to, ids)[k], peer)
  {
    if ids == [] {
    } else {
      PopsConcern(to, ids[..|ids| - 1], peer);
    }
  }

  lemma NoneCarried(t: Table)
    ensures Carried(t, [], [])
  {
  }

  lemma NoPops(max: nat, w: World, to: Key)
    ensures CanRun(max, w, Pops(to, [])) && Run(max, w, Pops(to, [])) == w
  {
  }

  lemma OnePop(max: nat, w: World, to: Key, ids: seq<nat>, before: World, id: nat)
    requires CanRun(max, w, Pops(to, ids)) && Run(max, w, Pops(to, ids)) == before && Oldest(before.table, to, id)
    ensures CanRun(max, w, Pops(to, ids + [id])) && Run(max, w, Pops(to, ids + [id])) == Leave(before, id, Popped)
    ensures id in before.table.rows && Leave(before, id, Popped).table.rows == before.table.rows - {id}
    ensures |Leave(before, id, Popped).table.rows| < |before.table.rows|
  {
    hide CanRun, Run, Oldest;
    OldestIn(before.table, to, id);
    assert (ids + [id])[..|ids|] == ids;
    RunExtends(max, w, Pops(to, ids), Op.Pop(to, id));
    assert (before.table.rows - {id}).Keys == before.table.rows.Keys - {id};
    assert |before.table.rows.Keys - {id}| == |before.table.rows.Keys| - 1;
  }

  lemma DepthPositive(t: Table, to: Key)
    ensures Depth(t, to) > 0 ==> Of(t, to) != {}
  {
  }
}
