/** Splitting a packet to fit a datagram and putting it back together (src/koe_packet.c:181-281). */
module Fragmentation {
  import opened Bytes
  import opened Version
  import opened Packet
  import Crc32

  const CLEAR_FRAGMENT_BITS: byte := 0xF3

  /** msg_id(16) + frag_index(1) + total(1) in front of the data. */
  const TAG := 18

  type MsgId = s: seq<byte> | |s| == 16 witness Zeros(16)

  function WithChecksum(h: Header): Header
  {
    h.(checksum := Crc32.Crc(Prefix(h)))
  }

  // ---------------------------------------------------------------- splitting

  /** The number of fragments a message really needs. */
  function Needed(total: nat, mtu: nat): nat
    requires mtu >= 1
  {
    (total + mtu - 1) / mtu
  }

  /** The number koe_packet_fragment computes: in size_t, then narrowed to one byte. */
  function Count(total: nat, mtu: nat): (n: nat)
    requires mtu >= 1
    ensures n < 256
  {
    (total + mtu - 1) % UINT64 / mtu % 256
  }

  /** The flags of a fragment. */
  function Marked(flags: byte, last: bool): byte
  {
    if last then flags | FLAG_FRAGMENTED | FLAG_LAST_FRAG else flags | FLAG_FRAGMENTED
  }

  /** The flags with both fragment bits cleared. */
  function Unmarked(flags: byte): byte
  {
    flags & CLEAR_FRAGMENT_BITS
  }

  /** A packet to split, the fragment payload size and the random message ID. */
  datatype Plan = Plan(pkt: Packet, mtu: nat, id: MsgId)
  {
    /** koe_packet_fragment produces fragments when given room for them. */
    predicate Splits()
    {
      && pkt.payload.Some? && Owned(pkt) && pkt.header.length > 0
      && 1 <= mtu < UINT64
      && Count(pkt.header.length, mtu) > 0
    }

    function Data(): seq<byte>
      requires Splits()
    {
      pkt.payload.value[..pkt.header.length]
    }

    function N(): nat
      requires Splits()
    {
      Count(pkt.header.length, mtu)
    }

    function Chunk(i: nat): seq<byte>
      requires Splits() && i < N()
    {
      CountWithin(pkt.header.length, mtu, i);
      Data()[i * mtu..Min(|Data()|, i * mtu + mtu)]
    }

    function Fragment(i: nat): OwnedPacket
      requires Splits() && i < N()
    {
      var chunk := Chunk(i);
      var h := pkt.header.(
               length := Length32(TAG + |chunk|),
               flags := Marked(pkt.header.flags, i == N() - 1));
      Packet(WithChecksum(h), Some(id + [Low(i), Low(N())] + chunk))
    }

    /** The packet a receiver should end up with. */
    function Whole(): Packet
      requires Splits()
    {
      Packet(WithChecksum(pkt.header.(flags := Unmarked(pkt.header.flags))), Some(Data()))
    }

    /** The caller's side of a faithful round trip: 255 fragments at most, each length in 32 bits. */
    predicate Fits()
      requires mtu >= 1
    {
      && Needed(pkt.header.length, mtu) <= 255
      && TAG + Min(mtu, pkt.header.length) < UINT32
    }
  }

  lemma CeilStep(total: nat, mtu: nat, i: nat)
    requires mtu >= 1
    ensures i < Needed(total, mtu) <==> i * mtu < total
  {
    hide Needed;
    var q := Needed(total, mtu);
    CeilBounds(total, mtu);
    if i < q {
      MulMonotone(mtu, i, q - 1);
    } else {
      MulMonotone(mtu, q, i);
    }
  }

  lemma CeilBounds(total: nat, mtu: nat)
    requires mtu >= 1
    ensures var q := Needed(total, mtu); total <= q * mtu && (q > 0 ==> (q - 1) * mtu < total)
  {
    var n, q := total + mtu - 1, Needed(total, mtu);
    assert n == mtu * q + n % mtu;
    assert (q - 1) * mtu == q * mtu - mtu;
  }

  lemma MulMonotone(m: nat, a: nat, b: nat)
    requires a <= b
    ensures a * m <= b * m
  {
  }

  lemma WrapsToNothing(x: nat, mtu: nat)
    requires UINT64 <= x && x - UINT64 < mtu && mtu < UINT64
    ensures x % UINT64 / mtu == 0
  {
    WrapOnce(x);
    DivSmall(x - UINT64, mtu);
  }

  lemma WrapOnce(x: nat)
    requires UINT64 <= x < 2 * UINT64
    ensures x % UINT64 == x - UINT64
  {
  }

  lemma DivSmall(x: nat, m: nat)
    requires x < m
    ensures x / m == 0
  {
  }

  lemma ModSmall(x: nat)
    requires x < UINT64
    ensures x % UINT64 == x
  {
  }

  lemma ByteAtMost(n: nat)
    ensures n % 256 <= n
  {
  }

  lemma CountCases(total: nat, mtu: nat)
    requires 1 <= mtu < UINT64 && total < UINT32
    ensures Count(total, mtu) == if total + mtu - 1 < UINT64 then Needed(total, mtu) % 256 else 0
  {
    if total + mtu - 1 < UINT64 {
      ModSmall(total + mtu - 1);
    } else {
      WrapsToNothing(total + mtu - 1, mtu);
    }
  }

  /** Every fragment the count admits starts inside the message. */
  lemma CountWithin(total: nat, mtu: nat, i: nat)
    requires 1 <= mtu < UINT64 && total < UINT32 && i < Count(total, mtu)
    ensures total + mtu - 1 < UINT64
    ensures Count(total, mtu) == Needed(total, mtu) % 256 <= Needed(total, mtu)
    ensures i * mtu < total
  {
    hide Count, Needed;
    CountCases(total, mtu);
    ByteAtMost(Needed(total, mtu));
    CeilStep(total, mtu, i);
  }

  /** Every payload that one to 255 fragments can hold is split, into that many. */
  lemma SplitsExactly(plan: Plan)
    requires plan.pkt.payload.Some? && Owned(plan.pkt) && plan.mtu < UINT64
    requires plan.mtu + plan.pkt.header.length <= 0x1_0000_0000_0000_0000
    ensures plan.Splits() <==> plan.mtu >= 1 && plan.pkt.header.length >= 1
                               && Needed(plan.pkt.header.length, plan.mtu) % 256 != 0
    ensures plan.Splits() && Needed(plan.pkt.header.length, plan.mtu) <= 255 ==>
              plan.N() == Needed(plan.pkt.header.length, plan.mtu)
  {
    hide Count;
    if plan.mtu >= 1 {
      CountCases(plan.pkt.header.length, plan.mtu);
    }
  }

  /** The body of the splitting loop. */
  method BuildFragment(crc: Crc32.Table, plan: Plan, i: nat, totalFrags: nat, offset: nat)
    returns (f: Packet, chunk: nat)
    requires crc.Valid() && plan.Splits() && i < totalFrags == plan.N() && offset == i * plan.mtu
    modifies crc, crc.entries
    ensures crc.Valid()
    ensures f == plan.Fragment(i)
    ensures offset + chunk == Min(plan.pkt.header.length, offset + plan.mtu)
  {
    hide Crc32.Crc, Prefix, Low, Count, Needed, Marked, Plan.Chunk;
    var total := plan.pkt.header.length;
    CountWithin(total, plan.mtu, i);
    assert offset + plan.mtu < UINT64;
    chunk := if offset + plan.mtu > total then total - offset else plan.mtu;
    var data := plan.pkt.payload.value[offset..offset + chunk];
    ChunkBytes(plan, i, offset, chunk);
    var h := plan.pkt.header.(
             length := Length32(TAG + chunk),
             flags := Marked(plan.pkt.header.flags, i == totalFrags - 1));
    var checksum := Checksum(crc, h);
    assert HeaderBytes(h)[..CHECKED] == Prefix(h);
    f := Packet(h.(checksum := checksum), Some(plan.id + [Low(i), Low(totalFrags)] + data));
  }

  lemma ChunkBytes(plan: Plan, i: nat, offset: nat, chunk: nat)
    requires plan.Splits() && i < plan.N() && offset == i * plan.mtu
    requires offset + chunk == Min(plan.pkt.header.length, offset + plan.mtu)
    ensures plan.pkt.payload.value[offset..offset + chunk] == plan.Chunk(i)
  {
    hide Count, Plan.Chunk;
    ChunkSlice(plan, i);
    SliceOfPrefix(plan.pkt.payload.value, plan.pkt.header.length, offset, offset + chunk);
  }

  lemma SliceOfPrefix(s: seq<byte>, n: nat, i: nat, j: nat)
    requires i <= j <= n <= |s|
    ensures s[..n][i..j] == s[i..j]
  {
  }

  /** koe_packet_fragment; `traps` is where it would divide by an `mtu` of zero. */
  method Fragment(crc: Crc32.Table, plan: Plan, out: array<Packet>, maxFrags: int) returns (rc: int, traps: bool)
    requires crc.Valid() && crc.entries as object != out
    requires Owned(plan.pkt) && plan.mtu < UINT64 && maxFrags <= out.Length
    modifies crc, crc.entries, out
    ensures crc.Valid()
    ensures traps <==> plan.mtu == 0 && plan.pkt.payload.Some? && plan.pkt.header.length > 0
    ensures rc == if plan.Splits() && plan.N() <= maxFrags then plan.N() else -1
    ensures rc != -1 ==> forall i :: 0 <= i < rc ==> out[i] == plan.Fragment(i)
    ensures forall i :: (if rc == -1 then 0 else rc) <= i < out.Length ==> out[i] == old(out[i])
  {
    hide Count, Needed, Plan.Fragment, Plan.Chunk;
    traps := false;
    if plan.pkt.payload.None? || plan.pkt.header.length == 0 {
      return -1, false;
    }
    if plan.mtu == 0 {
      return -1, true;
    }
    var totalFrags := Count(plan.pkt.header.length, plan.mtu);
    if totalFrags > maxFrags || totalFrags == 0 {
      return -1, false;
    }
    var offset, i := 0, 0;
    while i < totalFrags
      invariant 0 <= i <= totalFrags
      invariant crc.Valid()
      invariant i < totalFrags ==> offset == i * plan.mtu
      invariant forall k :: 0 <= k < i ==> out[k] == plan.Fragment(k)
      invariant forall k :: i <= k < out.Length ==> out[k] == old(out[k])
    {
      var f, chunk := BuildFragment(crc, plan, i, totalFrags, offset);
      out[i] := f;
      i := i + 1;
      if i < totalFrags {
        CountWithin(plan.pkt.header.length, plan.mtu, i);
      }
      offset := offset + chunk;
    }
    rc := totalFrags;
  }

  // ---------------------------------------------------------------- reassembly, on values

  type Slots = s: seq<Option<seq<byte>>> | |s| == 256 witness seq(256, _ => None)

  type uint8 = n: nat | n < 256

  /** koe_reassembly_t; a slot holds a fragment's bytes, or None for the null pointer. */
  datatype Context = Context(msgId: MsgId, total: uint8, received: uint8, slots: Slots)

  datatype Outcome = Refused | Waiting | Complete(packet: Packet)

  /** A zeroed context. */
  const FRESH := Context(Zeros(16), 0, 0, seq(256, _ => None))

  function Join(slots: Slots, n: nat): seq<byte>
    requires n <= 256
  {
    if n == 0 then []
    else Join(slots, n - 1) + (if slots[n - 1].Some? then slots[n - 1].value else [])
  }

  predicate WellTagged(f: Packet)
  {
    f.payload.Some? && f.header.length >= TAG
  }

  predicate Accepts(c: Context, f: OwnedPacket)
  {
    WellTagged(f) && (c.received == 0 || c.msgId == f.payload.value[..16])
  }

  /** The context after storing an accepted fragment. */
  function Store(c: Context, f: OwnedPacket): Context
    requires Accepts(c, f)
  {
    var pay := f.payload.value;
    var first := c.received == 0;
    Context(
      if first then pay[..16] else c.msgId,
      if first then pay[17] as int else c.total,
      (c.received + 1) % 256,
      c.slots[pay[16] as int := Some(pay[TAG..f.header.length])])
  }

  function Assemble(c: Context, f: Packet): Packet
  {
    var data := Join(c.slots, c.total);
    var h := f.header.(length := Length32(|data|), flags := Unmarked(f.header.flags));
    Packet(WithChecksum(h), Some(data))
  }

  function Clear(c: Context): Context
  {
    c.(slots := seq(c.total, _ => None) + c.slots[c.total..])
  }

  function Feed(c: Context, f: OwnedPacket): (Context, Outcome)
  {
    if !Accepts(c, f) then
      (c, Refused)
    else
      var c' := Store(c, f);
      if c'.received < c'.total then (c', Waiting)
      else (Clear(c'), Complete(Assemble(c', f)))
  }

  /** A fresh context takes any packet that holds a tag, even one without data; every context refuses the others. */
  lemma TagNeeded(c: Context, f: OwnedPacket)
    ensures Accepts(FRESH, f) <==> f.payload.Some? && f.header.length >= 18
    ensures !(f.payload.Some? && f.header.length >= 18) ==> Feed(c, f) == (c, Refused)
  {
  }

  /** The first fragment binds the message and its total; later ones change neither. */
  lemma FirstBinds(c: Context, f: OwnedPacket)
    requires Accepts(c, f)
    ensures c.received > 0 ==> Store(c, f).total == c.total && Store(c, f).msgId == c.msgId
    ensures c.received == 0 ==>
              Store(c, f).total == f.payload.value[17] as int && Store(c, f).msgId == f.payload.value[..16]
  {
  }

  /** What each of a run of fragments is answered. */
  function FeedAll(c: Context, fs: seq<OwnedPacket>): (outcomes: seq<Outcome>)
    ensures |outcomes| == |fs|
    decreases |fs|
  {
    if fs == [] then []
    else
      var (c', o) := Feed(c, fs[0]);
      [o] + FeedAll(c', fs[1..])
  }

  // ---------------------------------------------------------------- the lengths beside the slots

  type Lengths = s: seq<nat> | |s| == 256 witness seq(256, _ => 0)

  /** The context with its length array, which keeps the lengths of fragments freed on completion. */
  datatype Memory = Memory(c: Context, lengths: Lengths)

  const FRESH_MEMORY := Memory(FRESH, seq(256, _ => 0))

  /** A null slot below `n` with a length left over: copying it would read through the null pointer. */
  ghost predicate Dangling(slots: Slots, lengths: Lengths, n: nat)
    requires n <= 256
  {
    exists i :: 0 <= i < n && slots[i].None? && lengths[i] > 0
  }

  /** Whether feeding `f` would copy from a null slot. */
  ghost predicate Faults(m: Memory, f: OwnedPacket)
  {
    Accepts(m.c, f) && var c' := Store(m.c, f); c'.received >= c'.total && Dangling(c'.slots, m.lengths, c'.total)
  }

  /** Only the length of the stored slot changes. */
  function Noted(m: Memory, f: OwnedPacket): Lengths
  {
    if Accepts(m.c, f) then m.lengths[f.payload.value[16] as int := f.header.length - TAG] else m.lengths
  }

  function Fed(m: Memory, f: OwnedPacket): Memory
  {
    Memory(Feed(m.c, f).0, Noted(m, f))
  }

  function FedAll(m: Memory, fs: seq<OwnedPacket>): Memory
    decreases |fs|
  {
    if fs == [] then m else FedAll(Fed(m, fs[0]), fs[1..])
  }

  ghost predicate AnyFault(m: Memory, fs: seq<OwnedPacket>)
    decreases |fs|
  {
    fs != [] && (Faults(m, fs[0]) || AnyFault(Fed(m, fs[0]), fs[1..]))
  }

  // ---------------------------------------------------------------- what a fragment carries

  lemma FragmentParts(plan: Plan, i: nat)
    requires plan.Splits() && i < plan.N() && TAG + Min(plan.mtu, plan.pkt.header.length) < UINT32
    ensures var f := plan.Fragment(i);
            && WellTagged(f)
            && f.payload.value[..16] == plan.id
            && f.payload.value[16] as int == i
            && f.payload.value[17] as int == plan.N()
            && f.payload.value[TAG..f.header.length] == plan.Chunk(i)
  {
    hide Low, Crc32.Crc, Prefix, Marked, Plan.Chunk, Count;
    LowRoundTrip(i);
    LowRoundTrip(plan.N());
    ChunkLength(plan, i);
    var f := plan.Fragment(i);
    var tag := [Low(i), Low(plan.N())];
    assert f.payload.value == plan.id + tag + plan.Chunk(i);
    assert f.payload.value[16] == tag[0] && f.payload.value[17] == tag[1];
  }

  lemma ChunkLength(plan: Plan, i: nat)
    requires plan.Splits() && i < plan.N()
    ensures 1 <= |plan.Chunk(i)| <= Min(plan.mtu, plan.pkt.header.length)
    ensures i * plan.mtu + |plan.Chunk(i)| == Min(plan.pkt.header.length, (i + 1) * plan.mtu)
  {
    CountWithin(plan.pkt.header.length, plan.mtu, i);
    assert (i + 1) * plan.mtu == i * plan.mtu + plan.mtu;
  }

  /**
   The header calls `mtu` the most payload bytes of a fragment.  The tag comes on top of it, so a
   fragment keeps to that exactly when what is left of the message leaves room for the tag.
   */
  lemma WithinMtu(plan: Plan, i: nat)
    requires plan.Splits() && i < plan.N()
    ensures |plan.Fragment(i).payload.value| <= plan.mtu
            <==> plan.pkt.header.length - i * plan.mtu + TAG <= plan.mtu
  {
    hide Low, Crc32.Crc, Prefix, Marked, Plan.Chunk, Count;
    ChunkLength(plan, i);
    assert (i + 1) * plan.mtu == i * plan.mtu + plan.mtu;
    assert |plan.Fragment(i).payload.value| == TAG + |plan.Chunk(i)|;
  }

  /** 101 bytes split at 100: the first fragment has 118. */
  lemma OverMtu(id: MsgId)
    ensures var plan := Plan(Packet(EMPTY_HEADER.(length := 101), Some(Zeros(101))), 100, id);
            plan.Splits() && plan.N() == 2 && |plan.Fragment(0).payload.value| == 118 > plan.mtu
  {
    hide Low, Crc32.Crc, Prefix, Marked, Plan.Chunk;
    var plan := Plan(Packet(EMPTY_HEADER.(length := 101), Some(Zeros(101))), 100, id);
    assert Count(101, 100) == 2;
    ChunkLength(plan, 0);
  }

  // ---------------------------------------------------------------- what the context holds

  /** `k` fragments of the plan were stored; their indices are `got`. */
  ghost predicate Holds(c: Context, plan: Plan, got: set<nat>, k: nat)
    requires plan.Splits()
  {
    && c.received == k
    && (k > 0 ==> c.msgId == plan.id && c.total == plan.N())
    && forall i: nat :: i < 256 ==>
         c.slots[i] == if i in got && i < plan.N() then Some(plan.Chunk(i)) else None
  }

  lemma FreshHoldsNothing(plan: Plan)
    requires plan.Splits()
    ensures Holds(FRESH, plan, {}, 0)
  {
  }

  lemma StoreOwn(c: Context, plan: Plan, got: set<nat>, k: nat, i: nat)
    requires plan.Splits() && TAG + Min(plan.mtu, plan.pkt.header.length) < UINT32
    requires Holds(c, plan, got, k) && k < plan.N() && i < plan.N()
    ensures Accepts(c, plan.Fragment(i))
    ensures Holds(Store(c, plan.Fragment(i)), plan, got + {i}, k + 1)
  {
    hide Plan.Fragment, Plan.Chunk, Count;
    FragmentParts(plan, i);
    var c' := Store(c, plan.Fragment(i));
    assert c'.slots == c.slots[i := Some(plan.Chunk(i))];
    assert c'.received == k + 1 && c'.msgId == plan.id && c'.total == plan.N();
  }

  /** The data of the first `m` fragments. */
  function Covered(plan: Plan, m: nat): seq<byte>
    requires plan.Splits()
  {
    plan.Data()[..Min(plan.pkt.header.length, m * plan.mtu)]
  }

  lemma CoveredStep(plan: Plan, m: nat)
    requires plan.Splits() && m < plan.N()
    ensures Covered(plan, m + 1) == Covered(plan, m) + plan.Chunk(m)
    ensures |plan.Chunk(m)| >= 1
  {
    hide Count, Plan.Chunk, Plan.Data;
    var len, start := plan.pkt.header.length, m * plan.mtu;
    CountWithin(len, plan.mtu, m);
    ChunkSlice(plan, m);
    assert (m + 1) * plan.mtu == start + plan.mtu;
    JoinSlices(plan.Data(), start, Min(len, start + plan.mtu));
  }

  lemma ChunkSlice(plan: Plan, i: nat)
    requires plan.Splits() && i < plan.N()
    ensures |plan.Data()| == plan.pkt.header.length && i * plan.mtu < plan.pkt.header.length
    ensures plan.Chunk(i) == plan.Data()[i * plan.mtu..Min(plan.pkt.header.length, i * plan.mtu + plan.mtu)]
  {
    hide Count;
    CountWithin(plan.pkt.header.length, plan.mtu, i);
  }

  lemma JoinSlices(s: seq<byte>, i: nat, j: nat)
    requires i <= j <= |s|
    ensures s[..j] == s[..i] + s[i..j]
  {
  }

  lemma HeldSlot(c: Context, plan: Plan, got: set<nat>, k: nat, i: nat)
    requires plan.Splits() && Holds(c, plan, got, k) && i < plan.N()
    ensures c.slots[i] == if i in got then Some(plan.Chunk(i)) else None
  {
  }

  /** The first `m` slots join to the data they cover when none is missing, and to less otherwise. */
  lemma {:induction false} JoinHolds(c: Context, plan: Plan, got: set<nat>, k: nat, m: nat)
    requires plan.Splits() && Holds(c, plan, got, k) && m <= plan.N()
    ensures if forall i: nat :: i < m ==> i in got
            then Join(c.slots, m) == Covered(plan, m)
            else |Join(c.slots, m)| < |Covered(plan, m)|
  {
    if m == 0 {
    } else {
      hide Plan.Chunk, Count, Covered, Holds;
      JoinHolds(c, plan, got, k, m - 1);
      CoveredStep(plan, m - 1);
      HeldSlot(c, plan, got, k, m - 1);
    }
  }

  lemma MarksCleared(flags: byte, last: bool)
    ensures Unmarked(Marked(flags, last)) == Unmarked(flags)
  {
  }

  /** Clearing touches the two fragment bits and no other. */
  lemma UnmarkedBits(flags: byte)
    ensures Unmarked(flags) & 0x0C == 0 && (Unmarked(flags) ^ flags) & 0xF3 == 0
    ensures Unmarked(flags) == flags <==> flags & 0x0C == 0
  {
  }

  /** Every fragment is marked as one, only the last as last, and the other bits are the packet's. */
  lemma MarkedBits(flags: byte, last: bool)
    ensures Marked(flags, last) & 0x04 != 0 && (Marked(flags, last) ^ flags) & 0xF3 == 0
    ensures flags & 0x08 == 0 ==> (Marked(flags, last) & 0x08 != 0 <==> last)
  {
  }

  lemma FragmentMarks(plan: Plan, i: nat)
    requires plan.Splits() && i < plan.N() && plan.pkt.header.flags & 0x0C == 0
    ensures var flags := plan.Fragment(i).header.flags;
            && flags & 0x04 != 0 && (flags & 0x08 != 0 <==> i == plan.N() - 1)
            && (flags ^ plan.pkt.header.flags) & 0xF3 == 0
  {
    hide Marked, Crc32.Crc, Prefix, Plan.Chunk, Count, Low;
    FlagBits(plan.pkt.header.flags);
    MarkedBits(plan.pkt.header.flags, i == plan.N() - 1);
  }

  lemma FlagBits(flags: byte)
    ensures flags & 0x0C == 0 ==> flags & 0x08 == 0
  {
  }

  /** Fragments and the reassembled packet pass validation whenever the packet's magic and version do. */
  lemma AllValidate(plan: Plan, local: Version, i: nat)
    requires plan.Splits() && i < plan.N() && plan.pkt.header.magic == MAGIC
    requires Compatible(local, Version(plan.pkt.header.major, plan.pkt.header.minor))
    ensures Validates(local, plan.Fragment(i).header) && Validates(local, plan.Whole().header)
  {
    hide Marked, Unmarked, Crc32.Crc, Plan.Chunk, Count, Low, Compatible, Prefix, MAGIC;
    var chunk := plan.Chunk(i);
    ChecksumIgnored(plan.pkt.header.(length := Length32(TAG + |chunk|),
                                     flags := Marked(plan.pkt.header.flags, i == plan.N() - 1)),
                    plan.Fragment(i).header.checksum);
    ChecksumIgnored(plan.pkt.header.(flags := Unmarked(plan.pkt.header.flags)), plan.Whole().header.checksum);
  }

  /**
   The reassembled packet is the packet that was split: all fields but checksum and flags always, the flags exactly
   when it was not itself a fragment, and everything exactly when it also was as decoded with a right checksum.
   */
  lemma WholeIsPacket(plan: Plan)
    requires plan.Splits()
    ensures plan.Whole().payload == Some(plan.pkt.payload.value[..plan.pkt.header.length])
    ensures plan.Whole().header.(flags := 0, checksum := 0) == plan.pkt.header.(flags := 0, checksum := 0)
    ensures plan.Whole().header.flags == plan.pkt.header.flags <==> plan.pkt.header.flags & 0x0C == 0
    ensures plan.Whole() == plan.pkt <==> Intact(plan.pkt)
  {
    hide Unmarked, Crc32.Crc, Prefix, Count;
    var h := plan.pkt.header;
    UnmarkedBits(h.flags);
    if Intact(plan.pkt) {
      assert plan.pkt.payload.value[..h.length] == plan.pkt.payload.value;
      assert h.(flags := Unmarked(h.flags)) == h;
    }
  }

  /** As decoded, with a right checksum, and not itself a fragment. */
  predicate Intact(p: Packet)
  {
    Canonical(p) && p.header.checksum == Crc32.Crc(Prefix(p.header)) && p.header.flags & 0x0C == 0
  }

  lemma ChecksumIgnored(h: Header, x: bv32)
    ensures Prefix(h.(checksum := x)) == Prefix(h)
  {
  }

  /** What the last fragment completes: the data up to the bytes the fragments cover. */
  ghost predicate Rebuilt(plan: Plan, got: set<nat>, q: Packet)
    requires plan.Splits()
  {
    if forall i: nat :: i < plan.N() ==> i in got then
      && q.payload == Some(Covered(plan, plan.N()))
      && (Needed(plan.pkt.header.length, plan.mtu) <= 255 <==> q == plan.Whole())
    else
      q.payload.Some? && |q.payload.value| < |Covered(plan, plan.N())|
  }

  lemma AssembleOwn(c: Context, plan: Plan, got: set<nat>, i: nat)
    requires plan.Splits() && Holds(c, plan, got, plan.N()) && i < plan.N()
    ensures Rebuilt(plan, got, Assemble(c, plan.Fragment(i)))
  {
    hide Plan.Chunk, Count, Crc32.Crc, Prefix, Marked, Unmarked, Low, Join;
    var len, n := plan.pkt.header.length, plan.N();
    var q := Assemble(c, plan.Fragment(i));
    JoinHolds(c, plan, got, n, n);
    CountWithin(len, plan.mtu, i);
    CeilStep(len, plan.mtu, n);
    MarksCleared(plan.pkt.header.flags, i == n - 1);
    var h := plan.pkt.header.(flags := Unmarked(plan.pkt.header.flags));
    ChecksumIgnored(h, plan.Fragment(i).header.checksum);
    if (forall j: nat :: j < n ==> j in got) && len <= n * plan.mtu {
      assert plan.Data()[..len] == plan.Data();
      assert q == plan.Whole();
    }
  }

  // ---------------------------------------------------------------- runs

  /** What reaches the receiver: one of the plan's fragments, or a packet that is not of its message. */
  datatype Arrival = Own(i: nat) | Other(f: OwnedPacket)

  predicate Possible(plan: Plan, a: Arrival)
    requires plan.Splits()
  {
    match a
    case Own(i) => i < plan.N()
    case Other(f) => WellTagged(f) ==> f.payload.value[..16] != plan.id
  }

  predicate AllPossible(plan: Plan, arrivals: seq<Arrival>)
    requires plan.Splits()
  {
    arrivals == [] || (Possible(plan, arrivals[0]) && AllPossible(plan, arrivals[1..]))
  }

  function Packets(plan: Plan, arrivals: seq<Arrival>): (fs: seq<OwnedPacket>)
    requires plan.Splits() && AllPossible(plan, arrivals)
    ensures |fs| == |arrivals|
  {
    if arrivals == [] then []
    else [match arrivals[0] case Own(i) => plan.Fragment(i) case Other(f) => f] + Packets(plan, arrivals[1..])
  }

  /** How many of the arrivals belong to the message. */
  function Owns(arrivals: seq<Arrival>): nat
  {
    if arrivals == [] then 0 else (if arrivals[0].Own? then 1 else 0) + Owns(arrivals[1..])
  }

  function Indices(arrivals: seq<Arrival>): set<nat>
  {
    if arrivals == [] then {} else (if arrivals[0].Own? then {arrivals[0].i} else {}) + Indices(arrivals[1..])
  }

  /**
   The answers a run should get when `k` fragments came before it: strangers are refused, every
   fragment but the last is waited on, and the last completes the message from the indices `all`.
   */
  ghost predicate AsPromised(plan: Plan, all: set<nat>, k: nat, arrivals: seq<Arrival>, outcomes: seq<Outcome>)
    requires plan.Splits()
    decreases |arrivals|
  {
    && |outcomes| == |arrivals|
    && (arrivals == [] ||
        match arrivals[0]
        case Other(_) =>
          outcomes[0] == Refused && AsPromised(plan, all, k, arrivals[1..], outcomes[1..])
        case Own(_) =>
          && (if k + 1 < plan.N() then outcomes[0] == Waiting
              else outcomes[0].Complete? && Rebuilt(plan, all, outcomes[0].packet))
          && AsPromised(plan, all, k + 1, arrivals[1..], outcomes[1..]))
  }

  /** Once the context is bound to the message, strangers change nothing. */
  lemma OtherRefused(c: Context, plan: Plan, a: Arrival)
    requires plan.Splits() && Possible(plan, a) && a.Other?
    requires c.received > 0 && c.msgId == plan.id
    ensures Feed(c, a.f) == (c, Refused)
  {
  }

  /** One fragment of the message: either it is stored and waited on, or it completes the message. */
  lemma OwnStored(c: Context, plan: Plan, got: set<nat>, k: nat, i: nat)
    requires plan.Splits() && TAG + Min(plan.mtu, plan.pkt.header.length) < UINT32
    requires Holds(c, plan, got, k) && k < plan.N() && i < plan.N()
    ensures var (c', o) := Feed(c, plan.Fragment(i));
            && c'.received > 0 && c'.msgId == plan.id
            && if k + 1 < plan.N() then o == Waiting && Holds(c', plan, got + {i}, k + 1)
               else o.Complete? && Rebuilt(plan, got + {i}, o.packet)
  {
    hide Plan.Fragment, Plan.Chunk, Count, Rebuilt, Assemble, Store;
    StoreOwn(c, plan, got, k, i);
    var c' := Store(c, plan.Fragment(i));
    if k + 1 == plan.N() {
      AssembleOwn(c', plan, got + {i}, i);
    }
  }

  /** The run so far leaves the context ready for the arrivals still to come. */
  ghost predicate Ready(c: Context, plan: Plan, got: set<nat>, k: nat, arrivals: seq<Arrival>)
    requires plan.Splits()
  {
    && AllPossible(plan, arrivals)
    && k + Owns(arrivals) == plan.N()
    && if k < plan.N() then Holds(c, plan, got, k) && (k == 0 ==> arrivals[0].Own?)
       else c.received > 0 && c.msgId == plan.id
  }

  lemma {:induction false} RunFrom(c: Context, plan: Plan, got: set<nat>, k: nat, arrivals: seq<Arrival>)
    requires plan.Splits() && TAG + Min(plan.mtu, plan.pkt.header.length) < UINT32
    requires Ready(c, plan, got, k, arrivals)
    ensures AsPromised(plan, got + Indices(arrivals), k, arrivals, FeedAll(c, Packets(plan, arrivals)))
    decreases |arrivals|, 1
  {
    if arrivals == [] {
    } else {
      hide Count, AsPromised, FeedAll, Packets, Indices;
      if arrivals[0].Own? {
        RunOwn(c, plan, got, k, arrivals);
      } else {
        RunOther(c, plan, got, k, arrivals);
      }
    }
  }

  lemma RunOther(c: Context, plan: Plan, got: set<nat>, k: nat, arrivals: seq<Arrival>)
    requires plan.Splits() && TAG + Min(plan.mtu, plan.pkt.header.length) < UINT32
    requires Ready(c, plan, got, k, arrivals) && arrivals != [] && arrivals[0].Other?
    ensures AsPromised(plan, got + Indices(arrivals), k, arrivals, FeedAll(c, Packets(plan, arrivals)))
    decreases |arrivals|, 0
  {
    hide Plan.Fragment, Count, Feed, FeedAll, Possible, AsPromised;
    var fs, rest := Packets(plan, arrivals), arrivals[1..];
    assert fs[1..] == Packets(plan, rest);
    assert got + Indices(arrivals) == got + Indices(rest);
    FeedAllStep(c, fs);
    OtherRefused(c, plan, arrivals[0]);
    RunFrom(c, plan, got, k, rest);
    PromiseOther(plan, got + Indices(arrivals), k, arrivals, FeedAll(c, fs));
  }

  lemma RunOwn(c: Context, plan: Plan, got: set<nat>, k: nat, arrivals: seq<Arrival>)
    requires plan.Splits() && TAG + Min(plan.mtu, plan.pkt.header.length) < UINT32
    requires Ready(c, plan, got, k, arrivals) && arrivals != [] && arrivals[0].Own?
    ensures AsPromised(plan, got + Indices(arrivals), k, arrivals, FeedAll(c, Packets(plan, arrivals)))
    decreases |arrivals|, 0
  {
    hide Plan.Fragment, Count, Rebuilt, Feed, FeedAll, Holds, AsPromised;
    var fs, rest, i := Packets(plan, arrivals), arrivals[1..], arrivals[0].i;
    assert fs[1..] == Packets(plan, rest);
    assert got + Indices(arrivals) == got + {i} + Indices(rest);
    FeedAllStep(c, fs);
    OwnStored(c, plan, got, k, i);
    LastOwn(rest, k, plan.N());
    assert k + 1 == plan.N() ==> got + {i} + Indices(rest) == got + {i};
    RunFrom(Feed(c, fs[0]).0, plan, got + {i}, k + 1, rest);
    PromiseOwn(plan, got + Indices(arrivals), k, arrivals, FeedAll(c, fs));
  }

  lemma PromiseOther(plan: Plan, all: set<nat>, k: nat, arrivals: seq<Arrival>, outcomes: seq<Outcome>)
    requires plan.Splits() && |outcomes| == |arrivals| > 0 && arrivals[0].Other? && outcomes[0] == Refused
    requires AsPromised(plan, all, k, arrivals[1..], outcomes[1..])
    ensures AsPromised(plan, all, k, arrivals, outcomes)
  {
  }

  lemma PromiseOwn(plan: Plan, all: set<nat>, k: nat, arrivals: seq<Arrival>, outcomes: seq<Outcome>)
    requires plan.Splits() && |outcomes| == |arrivals| > 0 && arrivals[0].Own?
    requires if k + 1 < plan.N() then outcomes[0] == Waiting
             else outcomes[0].Complete? && Rebuilt(plan, all, outcomes[0].packet)
    requires AsPromised(plan, all, k + 1, arrivals[1..], outcomes[1..])
    ensures AsPromised(plan, all, k, arrivals, outcomes)
  {
  }

  /** Nothing of the message is left after its last fragment. */
  lemma {:induction false} LastOwn(rest: seq<Arrival>, k: nat, n: nat)
    requires k + 1 + Owns(rest) == n
    ensures k + 1 == n ==> Indices(rest) == {}
    decreases |rest|
  {
    if rest == [] {
    } else if k + 1 == n {
      LastOwn(rest[1..], k, n);
    }
  }

  lemma FeedAllStep(c: Context, fs: seq<OwnedPacket>)
    requires fs != []
    ensures FeedAll(c, fs)[0] == Feed(c, fs[0]).1
    ensures FeedAll(c, fs)[1..] == FeedAll(Feed(c, fs[0]).0, fs[1..])
  {
  }

  // ---------------------------------------------------------------- the promises

  /** Each fragment of the message once, in some order, the first before any stranger. */
  ghost predicate EachOnce(plan: Plan, arrivals: seq<Arrival>)
    requires plan.Splits()
  {
    && AllPossible(plan, arrivals) && arrivals != [] && arrivals[0].Own?
    && Owns(arrivals) == plan.N()
    && forall i: nat :: i < plan.N() ==> i in Indices(arrivals)
  }

  /**
   Fragments fed once each, in any order, with any strangers in between: strangers are refused
   and change nothing, all answers but the last are "waiting", and the last is the message.  It
   is the message that was split exactly when no more than 255 fragments were needed.
   */
  lemma AnyOrder(plan: Plan, arrivals: seq<Arrival>)
    requires plan.Splits() && TAG + Min(plan.mtu, plan.pkt.header.length) < UINT32
    requires EachOnce(plan, arrivals)
    ensures AsPromised(plan, Indices(arrivals), 0, arrivals, FeedAll(FRESH, Packets(plan, arrivals)))
    ensures forall q :: Rebuilt(plan, Indices(arrivals), q) ==>
              (q == plan.Whole() <==> Needed(plan.pkt.header.length, plan.mtu) <= 255)
  {
    hide FeedAll, AsPromised, Packets;
    FreshHoldsNothing(plan);
    assert {} + Indices(arrivals) == Indices(arrivals);
    RunFrom(FRESH, plan, {}, 0, arrivals);
  }

  lemma {:induction false} OwnAnswers(plan: Plan, all: set<nat>, k: nat, arrivals: seq<Arrival>, outcomes: seq<Outcome>)
    requires plan.Splits() && forall a :: a in arrivals ==> a.Own?
    requires arrivals != [] && k + |arrivals| == plan.N() && AsPromised(plan, all, k, arrivals, outcomes)
    ensures outcomes[|arrivals| - 1].Complete? && Rebuilt(plan, all, outcomes[|arrivals| - 1].packet)
    ensures forall j :: 0 <= j < |arrivals| - 1 ==> outcomes[j] == Waiting
    decreases |arrivals|
  {
    hide Count, Rebuilt;
    assert arrivals[0] in arrivals;
    if |arrivals| > 1 {
      OwnAnswers(plan, all, k + 1, arrivals[1..], outcomes[1..]);
      assert forall j :: 1 <= j < |arrivals| ==> outcomes[j] == outcomes[1..][j - 1];
    }
  }

  /**
   As many fragments as were made and no strangers, in any order and with any repetitions: 0 for
   all but the last of them and 1 for the last, and the packet it comes with is the one that was
   split exactly when every fragment is among the arrivals.
   */
  lemma RepeatsLose(plan: Plan, arrivals: seq<Arrival>)
    requires plan.Splits() && plan.Fits()
    requires AllPossible(plan, arrivals) && |arrivals| == plan.N() && forall a :: a in arrivals ==> a.Own?
    ensures var outcomes := FeedAll(FRESH, Packets(plan, arrivals));
            && (forall j :: 0 <= j < plan.N() - 1 ==> outcomes[j] == Waiting)
            && outcomes[plan.N() - 1].Complete?
            && (outcomes[plan.N() - 1].packet == plan.Whole()
                <==> forall i: nat :: i < plan.N() ==> i in Indices(arrivals))
  {
    hide FeedAll, Packets, AsPromised, Count, Indices, Plan.Whole;
    OwnsAll(arrivals);
    assert arrivals[0] in arrivals;
    FreshHoldsNothing(plan);
    assert {} + Indices(arrivals) == Indices(arrivals);
    RunFrom(FRESH, plan, {}, 0, arrivals);
    OwnAnswers(plan, Indices(arrivals), 0, arrivals, FeedAll(FRESH, Packets(plan, arrivals)));
    ShorterIsNotWhole(plan);
  }

  /** What the fragments cover is never longer than the message. */
  lemma ShorterIsNotWhole(plan: Plan)
    requires plan.Splits()
    ensures plan.Whole().payload.Some? && |Covered(plan, plan.N())| <= |plan.Whole().payload.value|
  {
  }

  /** In particular every permutation of the fragments gives back the packet. */
  lemma EveryPermutation(plan: Plan, arrivals: seq<Arrival>)
    requires plan.Splits() && plan.Fits() && EachOnce(plan, arrivals) && forall a :: a in arrivals ==> a.Own?
    ensures |arrivals| == plan.N()
    ensures var outcomes := FeedAll(FRESH, Packets(plan, arrivals));
            && outcomes[plan.N() - 1] == Complete(plan.Whole())
            && (outcomes[plan.N() - 1] == Complete(plan.pkt) <==> Intact(plan.pkt))
            && forall j :: 0 <= j < plan.N() - 1 ==> outcomes[j] == Waiting
  {
    hide FeedAll, Packets, Count, Indices, Plan.Whole, Intact;
    OwnsAll(arrivals);
    RepeatsLose(plan, arrivals);
    WholeIsPacket(plan);
  }

  lemma {:induction false} OwnsAll(arrivals: seq<Arrival>)
    requires forall a :: a in arrivals ==> a.Own?
    ensures Owns(arrivals) == |arrivals|
  {
    if arrivals == [] {
    } else {
      assert arrivals[0] in arrivals;
      OwnsAll(arrivals[1..]);
    }
  }

  /**
   Why the first arrival must be the message's own: a fresh context binds to whatever well-tagged
   packet comes first, and while that one's message is incomplete every fragment is refused.
   */
  lemma StrangerFirst(plan: Plan, f: OwnedPacket, i: nat)
    requires plan.Splits() && i < plan.N() && Possible(plan, Other(f)) && WellTagged(f)
    requires TAG + Min(plan.mtu, plan.pkt.header.length) < UINT32
    requires f.payload.value[17] as int > 1
    ensures Feed(FRESH, f).1 == Waiting
    ensures Feed(Feed(FRESH, f).0, plan.Fragment(i)) == (Feed(FRESH, f).0, Refused)
  {
    hide Plan.Fragment, Count;
    ByteIntByte(f.payload.value[16]);
    ByteIntByte(f.payload.value[17]);
    FragmentParts(plan, i);
  }

  /** A fragment whose length does not fit in 32 bits is refused by every context. */
  lemma OversizeRefused(plan: Plan, c: Context)
    requires plan.Splits() && TAG + Min(plan.mtu, plan.pkt.header.length) >= UINT32
    ensures Feed(c, plan.Fragment(0)) == (c, Refused)
  {
    hide Count, Crc32.Crc, Prefix, Low, Marked;
    ChunkLength(plan, 0);
  }

  /** 257 bytes at an `mtu` of 1 need 257 fragments; one is made, and it completes a message of one byte. */
  lemma TooMany(id: MsgId)
    ensures var plan := Plan(Packet(EMPTY_HEADER.(length := 257), Some(Zeros(257))), 1, id);
            && plan.Splits() && Needed(257, 1) == 257 && plan.N() == 1
            && var o := Feed(FRESH, plan.Fragment(0)).1;
               o.Complete? && o.packet.payload.Some? && |o.packet.payload.value| == 1 && o.packet != plan.Whole()
  {
    hide Plan.Fragment, Plan.Chunk, Feed;
    var plan := Plan(Packet(EMPTY_HEADER.(length := 257), Some(Zeros(257))), 1, id);
    assert Count(257, 1) == 1;
    FreshHoldsNothing(plan);
    OwnStored(FRESH, plan, {}, 0, 0);
    assert forall i: nat :: i < 1 ==> i in {} + {0};
  }

  // ---------------------------------------------------------------- a context used again

  /** The lengths of the fragments with indices `got`. */
  ghost predicate HoldsLengths(lengths: Lengths, plan: Plan, got: set<nat>)
    requires plan.Splits()
  {
    forall i: nat :: i < 256 ==> lengths[i] == if i in got && i < plan.N() then |plan.Chunk(i)| else 0
  }

  /** After completion the slots of the message are null. */
  ghost predicate Spent(c: Context, plan: Plan)
    requires plan.Splits()
  {
    && c.received == c.total == plan.N() && c.msgId == plan.id
    && forall i: nat :: i < 256 ==> c.slots[i] == None
  }

  lemma NoneDangling(c: Context, lengths: Lengths, plan: Plan, got: set<nat>, k: nat, n: nat)
    requires plan.Splits() && Holds(c, plan, got, k) && HoldsLengths(lengths, plan, got) && n <= 256
    ensures !Dangling(c.slots, lengths, n)
  {
    hide Plan.Chunk, Count;
  }

  lemma NotedOwn(m: Memory, plan: Plan, got: set<nat>, i: nat)
    requires plan.Splits() && TAG + Min(plan.mtu, plan.pkt.header.length) < UINT32 && i < plan.N()
    requires HoldsLengths(m.lengths, plan, got) && Accepts(m.c, plan.Fragment(i))
    ensures HoldsLengths(Noted(m, plan.Fragment(i)), plan, got + {i})
  {
    hide Plan.Fragment, Plan.Chunk, Count, Accepts;
    FragmentParts(plan, i);
    var f := plan.Fragment(i);
    assert |f.payload.value[TAG..f.header.length]| == f.header.length - TAG;
  }

  /** The slot just filled is not null, so its old length does not matter. */
  lemma SameDangling(slots: Slots, lengths: Lengths, k: nat, n: nat, x: nat)
    requires k < 256 && slots[k].Some? && n <= 256
    ensures Dangling(slots, lengths[k := x], n) <==> Dangling(slots, lengths, n)
  {
    var lengths' := lengths[k := x];
    if i :| 0 <= i < n && slots[i].None? && lengths[i] > 0 {
      assert lengths'[i] == lengths[i];
    }
    if i :| 0 <= i < n && slots[i].None? && lengths'[i] > 0 {
      assert lengths[i] == lengths'[i];
    }
  }

  lemma OwnFed(m: Memory, plan: Plan, got: set<nat>, k: nat, i: nat)
    requires plan.Splits() && TAG + Min(plan.mtu, plan.pkt.header.length) < UINT32
    requires Holds(m.c, plan, got, k) && HoldsLengths(m.lengths, plan, got) && k < plan.N() && i < plan.N()
    ensures !Faults(m, plan.Fragment(i))
    ensures var m' := Fed(m, plan.Fragment(i));
            && HoldsLengths(m'.lengths, plan, got + {i})
            && if k + 1 < plan.N() then Holds(m'.c, plan, got + {i}, k + 1) else Spent(m'.c, plan)
  {
    hide Plan.Fragment, Plan.Chunk, Count, HoldsLengths, Accepts, Store, Dangling, Noted;
    var f := plan.Fragment(i);
    StoreOwn(m.c, plan, got, k, i);
    NotedOwn(m, plan, got, i);
    StoredDangling(m, f);
    NoneDangling(Store(m.c, f), Noted(m, f), plan, got + {i}, k + 1, plan.N());
    if k + 1 == plan.N() {
      ClearSpends(Store(m.c, f), plan, got + {i});
    }
  }

  lemma StoredDangling(m: Memory, f: OwnedPacket)
    requires Accepts(m.c, f)
    ensures var c' := Store(m.c, f);
            Dangling(c'.slots, Noted(m, f), c'.total) <==> Dangling(c'.slots, m.lengths, c'.total)
  {
    hide Dangling;
    ByteIntByte(f.payload.value[16]);
    ByteIntByte(f.payload.value[17]);
    var c' := Store(m.c, f);
    SameDangling(c'.slots, m.lengths, f.payload.value[16] as int, c'.total, f.header.length - TAG);
  }

  lemma ClearSpends(c: Context, plan: Plan, got: set<nat>)
    requires plan.Splits() && Holds(c, plan, got, plan.N())
    ensures Spent(Clear(c), plan)
  {
    hide Plan.Chunk, Count;
  }

  lemma StrangerFed(m: Memory, plan: Plan, a: Arrival)
    requires plan.Splits() && Possible(plan, a) && a.Other? && m.c.received > 0 && m.c.msgId == plan.id
    ensures Fed(m, a.f) == m && !Faults(m, a.f)
  {
    hide Count;
  }

  /** Feeding the rest of the message leaves the lengths of all its fragments beside null slots, without a fault. */
  lemma {:induction false} RunSpends(m: Memory, plan: Plan, got: set<nat>, k: nat, arrivals: seq<Arrival>)
    requires plan.Splits() && TAG + Min(plan.mtu, plan.pkt.header.length) < UINT32
    requires AllPossible(plan, arrivals) && k + Owns(arrivals) == plan.N() && HoldsLengths(m.lengths, plan, got)
    requires if k < plan.N() then Holds(m.c, plan, got, k) && (k == 0 ==> arrivals[0].Own?) else Spent(m.c, plan)
    ensures var fs := Packets(plan, arrivals);
            && !AnyFault(m, fs) && Spent(FedAll(m, fs).c, plan)
            && HoldsLengths(FedAll(m, fs).lengths, plan, got + Indices(arrivals))
    decreases |arrivals|
  {
    hide Plan.Fragment, Plan.Chunk, Count, HoldsLengths, Fed, Faults, Spent, FedAll, AnyFault;
    var fs := Packets(plan, arrivals);
    if arrivals == [] {
      NothingFed(m);
      assert got + {} == got;
    } else {
      var a, rest := arrivals[0], arrivals[1..];
      assert fs[1..] == Packets(plan, rest);
      OneFed(m, fs);
      if a.Own? {
        OwnFed(m, plan, got, k, a.i);
        RunSpends(Fed(m, fs[0]), plan, got + {a.i}, k + 1, rest);
        assert got + {a.i} + Indices(rest) == got + Indices(arrivals);
      } else {
        BoundTo(m.c, plan, got, k);
        StrangerFed(m, plan, a);
        RunSpends(m, plan, got, k, rest);
        assert got + Indices(rest) == got + Indices(arrivals);
      }
    }
  }

  lemma NothingFed(m: Memory)
    ensures FedAll(m, []) == m && !AnyFault(m, [])
  {
  }

  lemma OneFed(m: Memory, fs: seq<OwnedPacket>)
    requires fs != []
    ensures FedAll(m, fs) == FedAll(Fed(m, fs[0]), fs[1..])
    ensures AnyFault(m, fs) <==> Faults(m, fs[0]) || AnyFault(Fed(m, fs[0]), fs[1..])
  {
  }

  lemma BoundTo(c: Context, plan: Plan, got: set<nat>, k: nat)
    requires plan.Splits() && k <= plan.N()
    requires if k < plan.N() then k > 0 && Holds(c, plan, got, k) else Spent(c, plan)
    ensures c.received > 0 && c.msgId == plan.id
  {
  }

  lemma Replayed(m: Memory, plan: Plan, got: set<nat>, i: nat)
    requires plan.Splits() && TAG + Min(plan.mtu, plan.pkt.header.length) < UINT32 && i < plan.N()
    requires Spent(m.c, plan) && HoldsLengths(m.lengths, plan, got) && forall j: nat :: j < plan.N() ==> j in got
    ensures Faults(m, plan.Fragment(i)) <==> 2 <= plan.N() <= 254
    ensures plan.N() == 255 ==> Feed(m.c, plan.Fragment(i)).1 == Waiting
    ensures plan.N() == 1 ==> Feed(m.c, plan.Fragment(i)).1.Complete?
                              && Rebuilt(plan, {0}, Feed(m.c, plan.Fragment(i)).1.packet)
  {
    hide Plan.Fragment, Plan.Chunk, Count, Rebuilt, Assemble, Store, Accepts, Dangling, HoldsLengths, Spent;
    SpentStore(m.c, plan, i);
    var c', n := Store(m.c, plan.Fragment(i)), plan.N();
    if n >= 2 {
      var j := if i == 0 then 1 else 0;
      LeftOver(m.lengths, plan, got, j);
      assert Dangling(c'.slots, m.lengths, n) by { Witness(c'.slots, m.lengths, j, n); }
    } else {
      NothingMissing(c'.slots, m.lengths);
      AssembleOwn(c'.(received := 1), plan, {0}, 0);
      SameAssembly(c', plan.Fragment(0));
    }
  }

  lemma SpentStore(c: Context, plan: Plan, i: nat)
    requires plan.Splits() && TAG + Min(plan.mtu, plan.pkt.header.length) < UINT32 && i < plan.N() && Spent(c, plan)
    ensures Accepts(c, plan.Fragment(i))
    ensures var c' := Store(c, plan.Fragment(i));
            && c'.total == plan.N() && c'.received == (plan.N() + 1) % 256
            && c'.slots == c.slots[i := Some(plan.Chunk(i))]
            && (forall j: nat :: j < 256 && j != i ==> c'.slots[j] == None)
            && (plan.N() == 1 ==> Holds(c'.(received := 1), plan, {0}, 1))
  {
    hide Plan.Fragment, Plan.Chunk, Count;
    FragmentParts(plan, i);
  }

  lemma LeftOver(lengths: Lengths, plan: Plan, got: set<nat>, j: nat)
    requires plan.Splits() && HoldsLengths(lengths, plan, got) && j < plan.N() && j in got
    ensures lengths[j] > 0
  {
    hide Plan.Chunk, Count;
    ChunkLength(plan, j);
  }

  lemma Witness(slots: Slots, lengths: Lengths, j: nat, n: nat)
    requires j < n <= 256 && slots[j].None? && lengths[j] > 0
    ensures Dangling(slots, lengths, n)
  {
  }

  lemma NothingMissing(slots: Slots, lengths: Lengths)
    requires slots[0].Some?
    ensures !Dangling(slots, lengths, 1)
  {
  }

  lemma SameAssembly(c: Context, f: Packet)
    ensures Assemble(c.(received := 1), f) == Assemble(c, f)
  {
  }

  /**
   A context that completed a message keeps its lengths beside freed slots.  Whatever the order of arrival, the
   message itself is read without a fault; feeding any of its fragments once more reads through a null pointer
   exactly when there are 2 to 254 of them.  A single fragment completes again; at 255 the byte counter wraps to
   zero and the call waits.
   */
  lemma ReplayFaults(plan: Plan, arrivals: seq<Arrival>, i: nat)
    requires plan.Splits() && TAG + Min(plan.mtu, plan.pkt.header.length) < UINT32
    requires EachOnce(plan, arrivals) && i < plan.N()
    ensures var fs := Packets(plan, arrivals);
            var m := FedAll(FRESH_MEMORY, fs);
            var o := Feed(m.c, plan.Fragment(i)).1;
            && !AnyFault(FRESH_MEMORY, fs)
            && (Faults(m, plan.Fragment(i)) <==> 2 <= plan.N() <= 254)
            && (plan.N() == 1 ==> o.Complete? && Rebuilt(plan, {0}, o.packet))
            && (plan.N() == 255 ==> o == Waiting)
  {
    hide Plan.Fragment, Plan.Chunk, Count, FedAll, AnyFault, Faults, Feed, Packets, Indices, Rebuilt;
    FreshHoldsNothing(plan);
    assert HoldsLengths(FRESH_MEMORY.lengths, plan, {});
    RunSpends(FRESH_MEMORY, plan, {}, 0, arrivals);
    assert {} + Indices(arrivals) == Indices(arrivals);
    Replayed(FedAll(FRESH_MEMORY, Packets(plan, arrivals)), plan, Indices(arrivals), i);
  }

  /** 101 bytes split at 100: both fragments, and then the first again. */
  lemma ReplayExample(id: MsgId)
    ensures var plan := Plan(Packet(EMPTY_HEADER.(length := 101), Some(Zeros(101))), 100, id);
            && plan.Splits() && plan.N() == 2
            && Faults(FedAll(FRESH_MEMORY, [plan.Fragment(0), plan.Fragment(1)]), plan.Fragment(0))
  {
    hide Plan.Fragment, Plan.Chunk, FedAll, Faults, AnyFault;
    var plan := Plan(Packet(EMPTY_HEADER.(length := 101), Some(Zeros(101))), 100, id);
    assert Count(101, 100) == 2;
    TwoArrivals(plan);
    ReplayFaults(plan, [Own(0), Own(1)], 0);
  }

  lemma TwoArrivals(plan: Plan)
    requires plan.Splits() && plan.N() == 2
    ensures EachOnce(plan, [Own(0), Own(1)])
    ensures Packets(plan, [Own(0), Own(1)]) == [plan.Fragment(0), plan.Fragment(1)]
  {
    hide Plan.Fragment, Count;
    assert [Own(0), Own(1)][1..] == [Own(1)] && [Own(1)][1..] == [];
    assert Packets(plan, [Own(1)]) == [plan.Fragment(1)] + Packets(plan, []);
    assert Indices([Own(1)]) == {1} + Indices([]);
    assert Owns([Own(1)]) == 1;
  }

  // ---------------------------------------------------------------- reassembly, in place

  class Reassembly {
    var msgId: MsgId
    var total: uint8
    var received: uint8
    const fragments: array<Option<seq<byte>>>
    const lengths: array<nat>

    /** A stored fragment has its length; a null slot may keep the length of a fragment freed earlier. */
    ghost predicate Valid()
      reads this, fragments, lengths
    {
      && fragments.Length == 256 && lengths.Length == 256 && fragments as object != lengths
      && forall i :: 0 <= i < 256 && fragments[i].Some? ==> lengths[i] == |fragments[i].value|
    }

    /** Not yet completed: every null slot has length zero, as in a zeroed context. */
    ghost predicate Zeroed()
      reads this, fragments, lengths
      requires Valid()
    {
      forall i :: 0 <= i < 256 && fragments[i].None? ==> lengths[i] == 0
    }

    ghost function Value(): Context
      reads this, fragments
      requires fragments.Length == 256
    {
      Context(msgId, total, received, fragments[..])
    }

    ghost function Stored(): Memory
      reads this, fragments, lengths
      requires fragments.Length == 256 == lengths.Length
    {
      Memory(Value(), lengths[..])
    }

    constructor ()
      ensures Valid() && Zeroed() && Stored() == FRESH_MEMORY && fresh(fragments) && fresh(lengths)
    {
      msgId, total, received := Zeros(16), 0, 0;
      fragments := new Option<seq<byte>>[256](_ => None);
      lengths := new nat[256](_ => 0);
      new;
      assert fragments[..] == FRESH.slots && lengths[..] == FRESH_MEMORY.lengths;
    }

    /**
     `faults` is where the source would copy from a null slot, which only a context that already
     completed a message can cause.
     */
    method Reassemble(crc: Crc32.Table, f: OwnedPacket) returns (rc: int, out: Option<Packet>, faults: bool)
      requires Valid() && crc.Valid()
      requires crc !in {this as object} && crc.entries as object !in {fragments as object, lengths}
      modifies this, fragments, lengths, crc, crc.entries
      ensures crc.Valid() && Valid()
      ensures faults <==> Faults(old(Stored()), f)
      ensures !faults ==>
                && Stored() == Fed(old(Stored()), f)
                && match Feed(old(Value()), f).1
                   case Refused => rc == -1 && out == None
                   case Waiting => rc == 0 && out == None
                   case Complete(p) => rc == 1 && out == Some(p)
      ensures old(Zeroed()) ==> !faults && (rc != 1 ==> Zeroed())
    {
      hide Crc32.Crc, Prefix, Unmarked, Join, Store, Clear, Assemble, Dangling, Accepts, Noted;
      ghost var before := Stored();
      faults := false;
      var accepted := Keep(f);
      if !accepted {
        return -1, None, false;
      }
      StoredDangling(before, f);
      if received < total {
        return 0, None, false;
      }
      ghost var stored := Value();
      if old(Zeroed()) {
        ZeroedIsSound(total);
      }
      var totalLen := TotalLength();
      var joined;
      joined, faults := Collect(totalLen);
      if faults {
        return 1, None, true;
      }
      var p := Finish(crc, f, joined, stored);
      return 1, Some(p), false;
    }

    lemma ZeroedIsSound(n: nat)
      requires Valid() && Zeroed() && n <= 256
      ensures !Dangling(fragments[..], lengths[..], n)
    {
    }

    /** The first half: check the fragment, bind a fresh context, store the bytes. */
    method Keep(f: OwnedPacket) returns (accepted: bool)
      requires Valid()
      modifies this, fragments, lengths
      ensures Valid()
      ensures old(Zeroed()) ==> Zeroed()
      ensures accepted == Accepts(old(Value()), f)
      ensures Value() == if accepted then Store(old(Value()), f) else old(Value())
      ensures lengths[..] == Noted(old(Stored()), f)
    {
      if f.payload.None? || f.header.length < TAG {
        return false;
      }
      var pay := f.payload.value;
      ByteIntByte(pay[16]);
      ByteIntByte(pay[17]);
      if received == 0 {
        msgId := pay[..16];
        total := pay[17] as int;
      } else if msgId != pay[..16] {
        return false;
      }
      var index := pay[16] as int;
      var data := pay[TAG..f.header.length];
      fragments[index] := Some(data);
      lengths[index] := |data|;
      received := (received + 1) % 256;
      return true;
    }

    method TotalLength() returns (totalLen: nat)
      requires Valid()
      ensures !Dangling(fragments[..], lengths[..], total) ==> totalLen == |Join(fragments[..], total)|
    {
      totalLen := 0;
      for i := 0 to total
        invariant !Dangling(fragments[..], lengths[..], i) ==> totalLen == |Join(fragments[..], i)|
      {
        assert Dangling(fragments[..], lengths[..], i) ==> Dangling(fragments[..], lengths[..], i + 1);
        totalLen := totalLen + lengths[i];
      }
    }

    /** The copying loop: joins the slots and frees them; the bytes fill what was allocated. */
    method Collect(totalLen: nat) returns (joined: seq<byte>, faults: bool)
      requires Valid()
      requires !Dangling(fragments[..], lengths[..], total) ==> totalLen == |Join(fragments[..], total)|
      modifies fragments
      ensures Valid()
      ensures faults <==> Dangling(old(fragments[..]), lengths[..], total)
      ensures !faults ==> joined == Join(old(fragments[..]), total) && |joined| == totalLen
      ensures !faults ==> Value() == Clear(old(Value()))
    {
      joined, faults := [], false;
      ghost var before := fragments[..];
      for i := 0 to total
        invariant Valid() && !Dangling(before, lengths[..], i)
        invariant joined == Join(before, i)
        invariant forall k :: 0 <= k < i ==> fragments[k] == None
        invariant forall k :: i <= k < 256 ==> fragments[k] == before[k]
      {
        if fragments[i].None? && lengths[i] > 0 {
          return joined, true;
        }
        joined := joined + (if fragments[i].Some? then fragments[i].value else []);
        fragments[i] := None;
      }
      assert fragments[..] == seq(total, _ => None) + before[total..];
    }

    /** The last lines: the header of the completing fragment, unmarked, resized and rechecked. */
    static method Finish(crc: Crc32.Table, f: OwnedPacket, joined: seq<byte>, ghost stored: Context)
      returns (p: Packet)
      requires crc.Valid() && joined == Join(stored.slots, stored.total)
      modifies crc, crc.entries
      ensures crc.Valid()
      ensures p == Assemble(stored, f)
    {
      hide Crc32.Crc, Prefix, Unmarked, Join;
      var h := f.header.(length := Length32(|joined|), flags := Unmarked(f.header.flags));
      var checksum := Checksum(crc, h);
      assert HeaderBytes(h)[..CHECKED] == Prefix(h);
      p := Packet(h.(checksum := checksum), Some(joined));
    }
  }
}
