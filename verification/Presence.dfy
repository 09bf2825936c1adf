/** The presence table of src/koe_presence.c:7-125.  The clock is passed in. */
module Presence {
  import opened Bytes
  import opened Packet

  const TTL_LOCAL := 30
  const TTL_RELAY := 90
  const TTL_TYPING := 5
  const MAX_PEERS := 512

  /** The states as the enumeration numbers them. */
  const OFFLINE := 0
  const ONLINE := 1

  datatype Peer = Peer(pk: Key, state: int, lastSeen: int, transport: int, isTyping: bool, typingStartedAt: int)

  const BLANK := Peer(Zeros(32), 0, 0, 0, false, 0)

  /** The whole array; slots from `count` on keep whatever an earlier peer left there. */
  datatype Table = Table(slots: seq<Peer>, count: nat)

  const EMPTY := Table(seq(MAX_PEERS, _ => BLANK), 0)

  predicate Shaped(t: Table)
  {
    |t.slots| == MAX_PEERS && t.count <= MAX_PEERS
  }

  function Live(t: Table): seq<Peer>
    requires Shaped(t)
  {
    t.slots[..t.count]
  }

  /** The first slot of a peer, or the length. */
  function SlotOf(ps: seq<Peer>, pk: Key): (i: nat)
    ensures i <= |ps| && (i < |ps| ==> ps[i].pk == pk)
    ensures forall k :: 0 <= k < i ==> ps[k].pk != pk
  {
    if ps == [] then 0 else if ps[0].pk == pk then 0 else 1 + SlotOf(ps[1..], pk)
  }

  function EntryOf(ps: seq<Peer>, pk: Key): Option<Peer>
  {
    var i := SlotOf(ps, pk);
    if i == |ps| then None else Some(ps[i])
  }

  /** What koe_presence_get answers for an entry; it compares the transport with KOE_PRESENCE_ONLINE. */
  function Answer(e: Option<Peer>, now: int): int
  {
    if e.None? then OFFLINE
    else
      var ttl := if e.value.transport == ONLINE then TTL_LOCAL else TTL_RELAY;
      if now - e.value.lastSeen > ttl then OFFLINE else e.value.state
  }

  function Got(t: Table, pk: Key, now: int): int
    requires Shaped(t)
  {
    Answer(EntryOf(Live(t), pk), now)
  }

  const BLUETOOTH := 2

  /** The header's rule: WiFi Direct and Bluetooth peers count as local. */
  function DocumentedAnswer(p: Peer, now: int): int
  {
    var ttl := if p.transport == 1 || p.transport == 2 then 30 else 90;
    if now - p.lastSeen > ttl then 0 else p.state
  }

  /** The code follows the documented rule except for Bluetooth peers between 30 and 90 seconds of age. */
  lemma FollowsHeader(p: Peer, now: int)
    ensures Answer(Some(p), now) == DocumentedAnswer(p, now)
            <==> !(p.transport == 2 && 30 < now - p.lastSeen <= 90 && p.state != 0)
  {
  }

  /** A Bluetooth peer seen at 0 is still online at 50, when the documented rule has it offline. */
  lemma BluetoothOutlives(pk: Key)
    ensures var t := Updated(EMPTY, pk, ONLINE, BLUETOOTH, 0);
            && Got(t, pk, 50) == ONLINE
            && EntryOf(Live(t), pk).Some? && DocumentedAnswer(EntryOf(Live(t), pk).value, 50) == OFFLINE
  {
    UpdatedOk(EMPTY, pk, ONLINE, BLUETOOTH, 0);
  }

  // ---------------------------------------------------------------- the operations, on values

  function Seen(p: Peer, pk: Key, state: int, transport: int, now: int): Peer
  {
    p.(pk := pk, state := state, lastSeen := now, transport := transport)
  }

  function Updated(t: Table, pk: Key, state: int, transport: int, now: int): (r: Table)
    requires Shaped(t)
    ensures Shaped(r)
  {
    var i := SlotOf(Live(t), pk);
    if i < t.count then t.(slots := t.slots[i := Seen(t.slots[i], pk, state, transport, now)])
    else if t.count < MAX_PEERS then
      Table(t.slots[t.count := Seen(t.slots[t.count], pk, state, transport, now)], t.count + 1)
    else t
  }

  /** A typing packet from `pk` arrived. */
  function Typed(t: Table, pk: Key, now: int): (r: Table)
    requires Shaped(t)
    ensures Shaped(r) && r.count == t.count
  {
    var i := SlotOf(Live(t), pk);
    if i < t.count then t.(slots := t.slots[i := t.slots[i].(isTyping := true, typingStartedAt := now)]) else t
  }

  /** Shown as typing: marked, and for no more than five seconds. */
  predicate ShownTyping(p: Peer, now: int)
  {
    p.isTyping && now - p.typingStartedAt <= TTL_TYPING
  }

  predicate Stale(p: Peer, now: int)
  {
    now - p.lastSeen > TTL_RELAY
  }

  /** The last peer moves into slot `i`. */
  function SwappedOut(t: Table, i: nat): (r: Table)
    requires Shaped(t) && i < t.count
    ensures Shaped(r) && r.count == t.count - 1
  {
    Table(t.slots[i := t.slots[t.count - 1]], t.count - 1)
  }

  /** The swap-removal loop from index `i` on. */
  function Swept(t: Table, i: nat, now: int): (r: Table)
    requires Shaped(t) && i <= t.count
    ensures Shaped(r) && r.count <= t.count
    decreases t.count - i
  {
    if i == t.count then t
    else if Stale(t.slots[i], now) then
      Swept(SwappedOut(t, i), i, now)
    else Swept(t, i + 1, now)
  }

  // ---------------------------------------------------------------- unique keys

  ghost predicate Unique(ps: seq<Peer>)
  {
    forall i, j :: 0 <= i < j < |ps| ==> ps[i].pk != ps[j].pk
  }

  ghost predicate TableOk(t: Table)
  {
    Shaped(t) && Unique(Live(t))
  }

  lemma UpdatedOk(t: Table, pk: Key, state: int, transport: int, now: int)
    requires TableOk(t)
    ensures TableOk(Updated(t, pk, state, transport, now))
    ensures var t' := Updated(t, pk, state, transport, now);
            forall q: Key :: q != pk ==> EntryOf(Live(t'), q) == EntryOf(Live(t), q)
    ensures var e := EntryOf(Live(Updated(t, pk, state, transport, now)), pk);
            && (e.Some? <==> EntryOf(Live(t), pk).Some? || t.count < 512)
            && (e.Some? ==> e.value.state == state && e.value.lastSeen == now && e.value.transport == transport)
  {
    var t' := Updated(t, pk, state, transport, now);
    var ps, ps' := Live(t), Live(t');
    var i := SlotOf(ps, pk);
    if i < t.count || t.count < MAX_PEERS {
      assert ps'[i].pk == pk;
      EntryAt(ps', pk, i);
      forall q: Key | q != pk ensures EntryOf(ps', q) == EntryOf(ps, q) {
        SameElsewhere(ps, ps', q, i);
      }
    }
  }

  lemma EntryAt(ps: seq<Peer>, pk: Key, i: nat)
    requires Unique(ps) && i < |ps| && ps[i].pk == pk
    ensures EntryOf(ps, pk) == Some(ps[i])
  {
  }

  /** A typing packet marks its sender, if known, and touches nothing else. */
  lemma TypedOk(t: Table, pk: Key, now: int)
    requires TableOk(t)
    ensures TableOk(Typed(t, pk, now))
    ensures var t' := Typed(t, pk, now);
            forall q: Key :: q != pk ==> EntryOf(Live(t'), q) == EntryOf(Live(t), q)
    ensures var e := EntryOf(Live(t), pk);
            EntryOf(Live(Typed(t, pk, now)), pk)
            == if e.Some? then Some(e.value.(isTyping := true, typingStartedAt := now)) else None
  {
    var ps, ps' := Live(t), Live(Typed(t, pk, now));
    var i := SlotOf(ps, pk);
    if i < t.count {
      assert ps' == ps[i := ps[i].(isTyping := true, typingStartedAt := now)];
      EntryAt(ps', pk, i);
      forall q: Key | q != pk ensures EntryOf(ps', q) == EntryOf(ps, q) {
        SameElsewhere(ps, ps', q, i);
      }
    }
  }

  /** A peer that typed is shown so for five seconds. */
  lemma TypingLasts(t: Table, pk: Key, at: int, now: int)
    requires TableOk(t) && EntryOf(Live(t), pk).Some?
    ensures var e := EntryOf(Live(Typed(t, pk, at)), pk); e.Some? && (ShownTyping(e.value, now) <==> now <= at + 5)
  {
    hide EntryOf, Typed;
    TypedOk(t, pk, at);
  }

  /** Two lists that differ only in slot `i`, which is for another peer in both. */
  lemma SameElsewhere(ps: seq<Peer>, ps': seq<Peer>, q: Key, i: nat)
    requires Unique(ps) && Unique(ps') && i < |ps'| && |ps| <= |ps'| <= |ps| + 1
    requires |ps'| == |ps| + 1 ==> i == |ps|
    requires forall k :: 0 <= k < |ps'| && k != i ==> ps'[k] == ps[k]
    requires ps'[i].pk != q && (i < |ps| ==> ps[i].pk != q)
    ensures EntryOf(ps', q) == EntryOf(ps, q)
  {
    if SlotOf(ps, q) < |ps| {
      EntryAt(ps', q, SlotOf(ps, q));
    } else {
      assert forall k :: 0 <= k < |ps'| ==> ps'[k].pk != q;
    }
  }

  // ---------------------------------------------------------------- expiry

  /** The entries an expiry should leave. */
  function Fresh(ps: seq<Peer>, now: int): seq<Peer>
  {
    if ps == [] then []
    else Fresh(ps[..|ps| - 1], now) + (if Stale(ps[|ps| - 1], now) then [] else [ps[|ps| - 1]])
  }

  lemma {:induction false} FreshConcat(a: seq<Peer>, b: seq<Peer>, now: int)
    ensures Fresh(a + b, now) == Fresh(a, now) + Fresh(b, now)
    decreases |b|
  {
    if b == [] {
      assert a + b == a;
    } else {
      var n := |b| - 1;
      assert (a + b)[..|a| + n] == a + b[..n];
      FreshConcat(a, b[..n], now);
    }
  }

  /** Overwriting a stale entry with the last one and dropping the last loses nothing fresh. */
  lemma SwapKeepsFresh(ps: seq<Peer>, i: nat, now: int)
    requires i < |ps| && Stale(ps[i], now)
    ensures multiset(Fresh(ps[i := ps[|ps| - 1]][..|ps| - 1], now)) == multiset(Fresh(ps, now))
  {
    hide Fresh;
    var n := |ps| - 1;
    var last := ps[n];
    FreshOne(ps[i], now);
    if i == n {
      assert ps[i := last][..n] == ps[..n] && ps == ps[..n] + [last];
      FreshConcat(ps[..n], [last], now);
    } else {
      var a, b := ps[..i], ps[i + 1..n];
      assert ps == (a + [ps[i]] + b) + [last];
      assert ps[i := last][..n] == a + [last] + b;
      FreshSplit(a, ps[i], b, now);
      FreshSplit(a, last, b, now);
      FreshConcat(a + [ps[i]] + b, [last], now);
    }
  }

  lemma FreshOne(p: Peer, now: int)
    ensures Fresh([p], now) == if Stale(p, now) then [] else [p]
  {
    assert [p][..0] == [];
  }

  lemma FreshSplit(a: seq<Peer>, p: Peer, b: seq<Peer>, now: int)
    ensures Fresh(a + [p] + b, now) == Fresh(a, now) + Fresh([p], now) + Fresh(b, now)
  {
    FreshConcat(a + [p], b, now);
    FreshConcat(a, [p], now);
  }

  lemma {:induction false} AllFresh(ps: seq<Peer>, now: int)
    requires forall k :: 0 <= k < |ps| ==> !Stale(ps[k], now)
    ensures Fresh(ps, now) == ps
  {
    if ps == [] {
    } else {
      AllFresh(ps[..|ps| - 1], now);
      assert ps == ps[..|ps| - 1] + [ps[|ps| - 1]];
    }
  }

  /** The loop removes exactly the entries older than 90 seconds and keeps the keys unique. */
  lemma {:induction false} SweptExact(t: Table, i: nat, now: int)
    requires TableOk(t) && Shaped(t) && i <= t.count && forall k :: 0 <= k < i ==> !Stale(t.slots[k], now)
    ensures var t' := Swept(t, i, now);
            TableOk(t') && multiset(Live(t')) == multiset(Fresh(Live(t), now))
    decreases t.count - i
  {
    hide Fresh, TableOk;
    if i == t.count {
      AllFresh(Live(t), now);
    } else if Stale(t.slots[i], now) {
      SwapOk(t, i, now);
      SweptExact(SwappedOut(t, i), i, now);
    } else {
      SweptExact(t, i + 1, now);
    }
  }

  lemma SwapOk(t: Table, i: nat, now: int)
    requires TableOk(t) && i < t.count && Stale(t.slots[i], now)
    ensures TableOk(SwappedOut(t, i))
    ensures multiset(Fresh(Live(SwappedOut(t, i)), now)) == multiset(Fresh(Live(t), now))
  {
    hide Fresh;
    assert Live(SwappedOut(t, i)) == Live(t)[i := Live(t)[t.count - 1]][..t.count - 1];
    SwapKeepsFresh(Live(t), i, now);
  }

  lemma {:induction false} FreshMembers(ps: seq<Peer>, now: int, p: Peer)
    ensures p in multiset(Fresh(ps, now)) <==> p in ps && !Stale(p, now)
  {
    if ps == [] {
    } else {
      FreshMembers(ps[..|ps| - 1], now, p);
      assert ps == ps[..|ps| - 1] + [ps[|ps| - 1]];
    }
  }

  /** Exactly the entries seen within the last 90 seconds stay. */
  lemma SweptMembers(t: Table, now: int, p: Peer)
    requires TableOk(t)
    ensures p in Live(Swept(t, 0, now)) <==> p in Live(t) && now - p.lastSeen <= 90
  {
    hide Swept, Fresh;
    SweptExact(t, 0, now);
    FreshMembers(Live(t), now, p);
    assert p in Live(Swept(t, 0, now)) <==> p in multiset(Live(Swept(t, 0, now)));
  }

  lemma SweptEntry(t: Table, now: int, pk: Key)
    requires TableOk(t)
    ensures var e := EntryOf(Live(t), pk);
            EntryOf(Live(Swept(t, 0, now)), pk) == if e.Some? && !Stale(e.value, now) then e else None
  {
    hide Fresh, Swept;
    SweptExact(t, 0, now);
    var ps, ps', e := Live(t), Live(Swept(t, 0, now)), EntryOf(Live(t), pk);
    var i := SlotOf(ps', pk);
    if i < |ps'| {
      var p := ps'[i];
      assert p in multiset(ps');
      FreshMembers(ps, now, p);
      var j :| 0 <= j < |ps| && ps[j] == p;
      EntryAt(ps, pk, j);
    }
    if e.Some? && !Stale(e.value, now) {
      FreshMembers(ps, now, e.value);
      assert e.value in multiset(ps');
      var k :| 0 <= k < |ps'| && ps'[k] == e.value;
      EntryAt(ps', pk, k);
    }
  }

  /** At the same or any later instant every peer gets the answer it would get without the expiry. */
  lemma ExpiryUnobservable(t: Table, now: int, pk: Key, later: int)
    requires TableOk(t) && now <= later
    ensures Got(Swept(t, 0, now), pk, later) == Got(t, pk, later)
  {
    hide Swept, SlotOf;
    SweptEntry(t, now, pk);
  }

  /** An earlier instant may see the difference: a peer last seen at 0 and expired at 91, asked about at 50. */
  lemma ExpiryObservableEarlier(pk: Key)
    ensures var t := Updated(EMPTY, pk, ONLINE, 3, 0);
            TableOk(t) && Got(t, pk, 50) == ONLINE && Got(Swept(t, 0, 91), pk, 50) == OFFLINE
  {
    hide Swept;
    UpdatedOk(EMPTY, pk, ONLINE, 3, 0);
    SweptEntry(Updated(EMPTY, pk, ONLINE, 3, 0), 91, pk);
  }

  // ---------------------------------------------------------------- runs

  datatype Op =
    | Update(pk: Key, state: int, transport: int, now: int)
    | Type(pk: Key, now: int)
    | Expire(now: int)

  function Step(t: Table, op: Op): (r: Table)
    requires Shaped(t)
    ensures Shaped(r)
  {
    match op
    case Update(pk, state, transport, now) => Updated(t, pk, state, transport, now)
    case Type(pk, now) => Typed(t, pk, now)
    case Expire(now) => Swept(t, 0, now)
  }

  function Run(t: Table, ops: seq<Op>): (r: Table)
    requires Shaped(t)
    ensures Shaped(r)
    decreases |ops|
  {
    if ops == [] then t else Run(Step(t, ops[0]), ops[1..])
  }

  lemma StepOk(t: Table, op: Op)
    requires TableOk(t)
    ensures TableOk(Step(t, op))
  {
    match op
    case Update(pk, state, transport, now) => UpdatedOk(t, pk, state, transport, now);
    case Type(pk, now) => TypedOk(t, pk, now);
    case Expire(now) => SweptExact(t, 0, now);
  }

  /** Keys are unique in every reachable table. */
  lemma {:induction false} RunOk(t: Table, ops: seq<Op>)
    requires TableOk(t)
    ensures TableOk(Run(t, ops))
    decreases |ops|
  {
    hide Step;
    if ops == [] {
    } else {
      StepOk(t, ops[0]);
      RunOk(Step(t, ops[0]), ops[1..]);
    }
  }

  /** The run without its expiries. */
  function WithoutExpiry(ops: seq<Op>): seq<Op>
  {
    if ops == [] then [] else (if ops[0].Expire? then [] else [ops[0]]) + WithoutExpiry(ops[1..])
  }

  /** The clock does not go back. */
  predicate Timed(ops: seq<Op>, clock: int)
    decreases |ops|
  {
    ops == [] || (ops[0].now >= clock && Timed(ops[1..], ops[0].now))
  }

  function EndOf(ops: seq<Op>, clock: int): int
    decreases |ops|
  {
    if ops == [] then clock else EndOf(ops[1..], ops[0].now)
  }

  /** No update of the run meets a full table that does not know the peer. */
  predicate NeverFull(t: Table, ops: seq<Op>)
    requires Shaped(t)
    decreases |ops|
  {
    ops != [] ==>
      && (ops[0].Update? ==> EntryOf(Live(t), ops[0].pk).Some? || t.count < MAX_PEERS)
      && NeverFull(Step(t, ops[0]), ops[1..])
  }

  /** `t` knows no peer that `u` does not, and from `clock` on both give the same answers. */
  ghost predicate Alike(t: Table, u: Table, clock: int)
    requires Shaped(t) && Shaped(u)
  {
    && (forall pk: Key :: EntryOf(Live(t), pk).Some? ==> EntryOf(Live(u), pk).Some?)
    && (forall pk: Key, now: int :: now >= clock ==> Got(t, pk, now) == Got(u, pk, now))
  }

  function Keys(ps: seq<Peer>): set<Key>
  {
    set p | p in ps :: p.pk
  }

  lemma {:induction false} KeysCount(ps: seq<Peer>)
    requires Unique(ps)
    ensures |Keys(ps)| == |ps|
  {
    if ps == [] {
    } else {
      var n := |ps| - 1;
      KeysCount(ps[..n]);
      assert ps == ps[..n] + [ps[n]];
      assert Keys(ps) == Keys(ps[..n]) + {ps[n].pk};
      assert ps[n].pk !in Keys(ps[..n]);
    }
  }

  lemma KeyHasEntry(ps: seq<Peer>, pk: Key)
    ensures pk in Keys(ps) <==> EntryOf(ps, pk).Some?
  {
    if SlotOf(ps, pk) < |ps| {
      assert ps[SlotOf(ps, pk)] in ps;
    }
  }

  /** The table that knows fewer peers has room whenever the other does. */
  lemma RoomToo(t: Table, u: Table, pk: Key, clock: int)
    requires TableOk(t) && TableOk(u) && Alike(t, u, clock)
    requires EntryOf(Live(u), pk).Some? || u.count < MAX_PEERS
    ensures EntryOf(Live(t), pk).Some? || t.count < MAX_PEERS
  {
    hide EntryOf;
    KeysCount(Live(t));
    KeysCount(Live(u));
    forall q | q in Keys(Live(t)) ensures q in Keys(Live(u)) {
      KeyHasEntry(Live(t), q);
      KeyHasEntry(Live(u), q);
    }
    KeyHasEntry(Live(t), pk);
    KeyHasEntry(Live(u), pk);
    SubsetSize(Keys(Live(t)), Keys(Live(u)));
  }

  lemma SubsetSize(a: set<Key>, b: set<Key>)
    requires a <= b
    ensures |a| <= |b| && (a != b ==> |a| < |b|)
  {
    assert b == a + (b - a);
  }

  lemma UpdateAlike(t: Table, u: Table, clock: int, op: Op)
    requires TableOk(t) && TableOk(u) && Alike(t, u, clock) && op.Update? && op.now >= clock
    requires EntryOf(Live(u), op.pk).Some? || u.count < MAX_PEERS
    ensures Alike(Step(t, op), Step(u, op), op.now)
  {
    hide EntryOf, Updated;
    RoomToo(t, u, op.pk, clock);
    UpdatedOk(t, op.pk, op.state, op.transport, op.now);
    UpdatedOk(u, op.pk, op.state, op.transport, op.now);
    forall pk: Key, now: int | now >= op.now ensures Got(Step(t, op), pk, now) == Got(Step(u, op), pk, now) {
      assert Got(t, pk, now) == Got(u, pk, now);
    }
  }

  lemma TypeAlike(t: Table, u: Table, clock: int, pk: Key, now: int)
    requires TableOk(t) && TableOk(u) && Alike(t, u, clock) && now >= clock
    ensures Alike(Typed(t, pk, now), Typed(u, pk, now), now)
  {
    hide EntryOf, Typed;
    TypedOk(t, pk, now);
    TypedOk(u, pk, now);
    forall q: Key, later: int | later >= now
      ensures Got(Typed(t, pk, now), q, later) == Got(Typed(u, pk, now), q, later)
    {
      assert Got(t, q, later) == Got(u, q, later);
    }
  }

  lemma ExpireAlike(t: Table, u: Table, clock: int, now: int)
    requires TableOk(t) && TableOk(u) && Alike(t, u, clock) && now >= clock
    ensures Alike(Swept(t, 0, now), u, now)
  {
    hide EntryOf, Swept;
    forall pk: Key ensures EntryOf(Live(Swept(t, 0, now)), pk).Some? ==> EntryOf(Live(u), pk).Some? {
      SweptEntry(t, now, pk);
    }
    forall pk: Key, later: int | later >= now ensures Got(Swept(t, 0, now), pk, later) == Got(u, pk, later) {
      ExpiryUnobservable(t, now, pk, later);
    }
  }

  lemma {:induction false} RunAlike(t: Table, u: Table, ops: seq<Op>, clock: int)
    requires TableOk(t) && TableOk(u) && Alike(t, u, clock) && Timed(ops, clock)
    requires NeverFull(u, WithoutExpiry(ops))
    ensures Alike(Run(t, ops), Run(u, WithoutExpiry(ops)), EndOf(ops, clock))
    decreases |ops|
  {
    if ops == [] {
    } else {
      hide Alike, TableOk, EntryOf;
      var op, rest := ops[0], WithoutExpiry(ops[1..]);
      StepOk(t, op);
      if op.Expire? {
        assert WithoutExpiry(ops) == rest;
        ExpireAlike(t, u, clock, op.now);
        RunAlike(Step(t, op), u, ops[1..], op.now);
      } else {
        assert WithoutExpiry(ops) == [op] + rest && ([op] + rest)[1..] == rest;
        StepOk(u, op);
        if op.Update? {
          UpdateAlike(t, u, clock, op);
        } else {
          TypeAlike(t, u, clock, op.pk, op.now);
        }
        RunAlike(Step(t, op), Step(u, op), ops[1..], op.now);
      }
    }
  }

  /**
   Over whole runs: as long as the table that never expires does not fill up, no answer at the
   end of the run or later tells whether the expiries happened.
   */
  lemma RunUnobservable(ops: seq<Op>, clock: int, pk: Key, later: int)
    requires Timed(ops, clock) && NeverFull(EMPTY, WithoutExpiry(ops)) && later >= EndOf(ops, clock)
    ensures Got(Run(EMPTY, ops), pk, later) == Got(Run(EMPTY, WithoutExpiry(ops)), pk, later)
  {
    hide Run, Got, NeverFull, EntryOf;
    RunAlike(EMPTY, EMPTY, ops, clock);
  }

  // ---------------------------------------------------------------- typing marks of new peers

  /**
   An update sets four fields of the slot it takes, so a new peer is not typing exactly when the mark
   left in that slot is clear.
   */
  lemma NewPeerTyping(t: Table, pk: Key, state: int, transport: int, now: int)
    requires TableOk(t) && EntryOf(Live(t), pk).None? && t.count < MAX_PEERS
    ensures EntryOf(Live(Updated(t, pk, state, transport, now)), pk)
            == Some(Peer(pk, state, now, transport, t.slots[t.count].isTyping, t.slots[t.count].typingStartedAt))
    ensures !EntryOf(Live(Updated(t, pk, state, transport, now)), pk).value.isTyping <==> !t.slots[t.count].isTyping
  {
    UpdatedOk(t, pk, state, transport, now);
    EntryAt(Live(Updated(t, pk, state, transport, now)), pk, t.count);
  }

  /** A is seen and types, expiry removes A, B is seen: B is recorded, and shown, as typing. */
  lemma TypingInherited(a: Key, b: Key)
    requires a != b
    ensures var t := Run(EMPTY, [Update(a, ONLINE, 3, 0), Type(a, 90), Expire(91), Update(b, ONLINE, 3, 91)]);
            EntryOf(Live(t), b).Some? && ShownTyping(EntryOf(Live(t), b).value, 91)
  {
    var t1 := Table(EMPTY.slots[0 := Peer(a, ONLINE, 0, 3, false, 0)], 1);
    var t2 := Table(t1.slots[0 := Peer(a, ONLINE, 0, 3, true, 90)], 1);
    var t3 := Table(t2.slots, 0);
    var t4 := Updated(t3, b, ONLINE, 3, 91);
    assert Step(EMPTY, Update(a, ONLINE, 3, 0)) == t1;
    assert Live(t1) == [t1.slots[0]] && Step(t1, Type(a, 90)) == t2;
    assert SwappedOut(t2, 0) == t3;
    assert Stale(t2.slots[0], 91) && Swept(t3, 0, 91) == t3 && Swept(t2, 0, 91) == t3;
    NewPeerTyping(t3, b, ONLINE, 3, 91);
    FourSteps(EMPTY, t1, t2, t3, t4, Update(a, ONLINE, 3, 0), Type(a, 90), Expire(91), Update(b, ONLINE, 3, 91));
  }

  lemma FourSteps(t0: Table, t1: Table, t2: Table, t3: Table, t4: Table, o0: Op, o1: Op, o2: Op, o3: Op)
    requires Shaped(t0) && Step(t0, o0) == t1 && Step(t1, o1) == t2 && Step(t2, o2) == t3 && Step(t3, o3) == t4
    ensures Run(t0, [o0, o1, o2, o3]) == t4
  {
    hide Step, Run;
    assert [o0, o1, o2, o3] == [o0] + ([o1] + ([o2] + ([o3] + [])));
    RunCons(t0, o0, [o1] + ([o2] + ([o3] + [])));
    RunCons(t1, o1, [o2] + ([o3] + []));
    RunCons(t2, o2, [o3] + []);
    RunCons(t3, o3, []);
    RunNothing(t4);
  }

  lemma RunCons(t: Table, op: Op, rest: seq<Op>)
    requires Shaped(t)
    ensures Run(t, [op] + rest) == Run(Step(t, op), rest)
  {
    assert ([op] + rest)[1..] == rest;
  }

  predicate NoneTyping(ps: seq<Peer>)
  {
    forall k :: 0 <= k < |ps| ==> !ps[k].isTyping
  }

  lemma {:induction false} SweptQuiet(t: Table, i: nat, now: int)
    requires Shaped(t) && i <= t.count && NoneTyping(t.slots)
    ensures NoneTyping(Swept(t, i, now).slots)
    decreases t.count - i
  {
    if i == t.count {
    } else if Stale(t.slots[i], now) {
      SweptQuiet(SwappedOut(t, i), i, now);
    } else {
      SweptQuiet(t, i + 1, now);
    }
  }

  /** Without typing packets no slot is ever marked. */
  lemma {:induction false} QuietRun(t: Table, ops: seq<Op>)
    requires Shaped(t) && NoneTyping(t.slots) && forall k :: 0 <= k < |ops| ==> !ops[k].Type?
    ensures NoneTyping(Run(t, ops).slots)
    decreases |ops|
  {
    if ops == [] {
    } else {
      hide Run, Swept, SlotOf;
      if ops[0].Expire? {
        SweptQuiet(t, 0, ops[0].now);
      }
      assert NoneTyping(Step(t, ops[0]).slots);
      QuietRun(Step(t, ops[0]), ops[1..]);
      RunUnfold(t, ops);
    }
  }

  lemma RunUnfold(t: Table, ops: seq<Op>)
    requires Shaped(t) && ops != []
    ensures Run(t, ops) == Run(Step(t, ops[0]), ops[1..])
  {
  }

  lemma RunNothing(t: Table)
    requires Shaped(t)
    ensures Run(t, []) == t
  {
  }

  /** Without expiries the slots not yet taken stay blank. */
  lemma {:induction false} UnexpiredRun(t: Table, ops: seq<Op>)
    requires Shaped(t) && NoneTyping(t.slots[t.count..]) && forall k :: 0 <= k < |ops| ==> !ops[k].Expire?
    ensures NoneTyping(Run(t, ops).slots[Run(t, ops).count..])
    decreases |ops|
  {
    if ops == [] {
    } else {
      hide Run, SlotOf;
      var t' := Step(t, ops[0]);
      assert t.count <= t'.count && forall k :: t'.count <= k < MAX_PEERS ==> t'.slots[k] == t.slots[k];
      assert forall k :: t.count <= k < MAX_PEERS ==> t.slots[k] == t.slots[t.count..][k - t.count];
      UnexpiredRun(t', ops[1..]);
      RunUnfold(t, ops);
    }
  }

  /** A run that lacks typing packets or lacks expiries records no new peer as typing. */
  lemma NotInherited(ops: seq<Op>, pk: Key, state: int, transport: int, now: int)
    requires (forall k :: 0 <= k < |ops| ==> !ops[k].Type?) || (forall k :: 0 <= k < |ops| ==> !ops[k].Expire?)
    requires var t := Run(EMPTY, ops); EntryOf(Live(t), pk).None? && t.count < MAX_PEERS
    ensures var e := EntryOf(Live(Updated(Run(EMPTY, ops), pk, state, transport, now)), pk);
            e.Some? && !e.value.isTyping
  {
    hide Run, EntryOf, Updated;
    var t := Run(EMPTY, ops);
    RunOk(EMPTY, ops);
    NewPeerTyping(t, pk, state, transport, now);
    if k :| 0 <= k < |ops| && ops[k].Type? {
      UnexpiredRun(EMPTY, ops);
      assert t.slots[t.count] == t.slots[t.count..][0];
    } else {
      QuietRun(EMPTY, ops);
    }
  }

  // ---------------------------------------------------------------- the C functions

  class PresenceTable {
    const peers: array<Peer>
    var count: nat

    function Value(): Table
      reads this, peers
    {
      Table(peers[..], count)
    }

    ghost predicate Valid()
      reads this, peers
    {
      TableOk(Value())
    }

    constructor ()
      ensures Valid() && Value() == EMPTY && fresh(peers)
    {
      peers := new Peer[MAX_PEERS](_ => BLANK);
      count := 0;
      new;
      assert peers[..] == EMPTY.slots;
    }

    method Update(pk: Key, state: int, transport: int, now: int)
      requires Valid()
      modifies this, peers
      ensures Valid()
      ensures Value() == Updated(old(Value()), pk, state, transport, now)
    {
      hide Unique, SlotOf;
      ghost var t := Value();
      UpdatedOk(t, pk, state, transport, now);
      for i := 0 to count
        invariant Value() == t
        invariant i <= SlotOf(Live(t), pk)
      {
        if peers[i].pk == pk {
          peers[i] := peers[i].(state := state, lastSeen := now, transport := transport);
          assert peers[..] == t.slots[i := Seen(t.slots[i], pk, state, transport, now)];
          return;
        }
      }
      if count < MAX_PEERS {
        peers[count] := peers[count].(pk := pk, state := state, lastSeen := now, transport := transport);
        assert peers[..] == t.slots[count := Seen(t.slots[count], pk, state, transport, now)];
        count := count + 1;
      }
    }

    method Get(pk: Key, now: int) returns (state: int)
      requires Valid()
      ensures state == Got(Value(), pk, now)
    {
      for i := 0 to count
        invariant i <= SlotOf(Live(Value()), pk)
      {
        if peers[i].pk == pk {
          var ttl := if peers[i].transport == ONLINE then TTL_LOCAL else TTL_RELAY;
          if now - peers[i].lastSeen > ttl {
            return OFFLINE;
          }
          return peers[i].state;
        }
      }
      return OFFLINE;
    }

    method HandleTyping(pk: Key, now: int)
      requires Valid()
      modifies peers
      ensures Valid()
      ensures Value() == Typed(old(Value()), pk, now)
    {
      hide Unique, SlotOf;
      ghost var t := Value();
      TypedOk(t, pk, now);
      for i := 0 to count
        invariant Value() == t
        invariant i <= SlotOf(Live(t), pk)
      {
        if peers[i].pk == pk {
          peers[i] := peers[i].(isTyping := true, typingStartedAt := now);
          assert peers[..] == t.slots[i := t.slots[i].(isTyping := true, typingStartedAt := now)];
          return;
        }
      }
    }

    method Expire(now: int) returns (removed: nat)
      requires Valid()
      modifies this, peers
      ensures Valid()
      ensures Value() == Swept(old(Value()), 0, now)
      ensures multiset(Live(Value())) == multiset(Fresh(Live(old(Value())), now))
      ensures removed == old(count) - count
    {
      hide Fresh, Unique;
      ghost var t := Value();
      SweptExact(t, 0, now);
      removed := 0;
      var i := 0;
      while i < count
        invariant 0 <= i <= count && Shaped(Value())
        invariant Swept(Value(), i, now) == Swept(t, 0, now)
        invariant removed == t.count - count
        decreases count - i
      {
        if now - peers[i].lastSeen > TTL_RELAY {
          ghost var before := Value();
          count := count - 1;
          peers[i] := peers[count];
          assert Value() == SwappedOut(before, i);
          removed := removed + 1;
        } else {
          i := i + 1;
        }
      }
    }
  }
}
