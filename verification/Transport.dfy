/**
 Length-prefixed packets over a byte stream (src/koe_transport.c:39-60 and 344-382).  A socket
 is the bytes still to come and the bytes already sent; how many bytes a call moves, and whether
 an unreliable socket fails, is left open.
 */
module Transport {
  import opened Bytes
  import opened Packet

  class Socket {
    const open: bool
    const reliable: bool
    var inbox: seq<byte>
    var outbox: seq<byte>

    constructor (open: bool, reliable: bool, inbox: seq<byte>)
      ensures this.open == open && this.reliable == reliable && this.inbox == inbox && outbox == []
    {
      this.open, this.reliable, this.inbox, outbox := open, reliable, inbox, [];
    }

    /** recv: any number of the bytes that have arrived, 0 at the end of the stream, or an error. */
    method Recv(n: nat) returns (r: int, data: seq<byte>)
      requires n > 0
      modifies this`inbox
      ensures r <= n
      ensures if r <= 0 then data == [] && inbox == old(inbox)
              else r <= |old(inbox)| && data == old(inbox)[..r] && inbox == old(inbox)[r..]
      ensures old(inbox) != [] && reliable ==> r > 0
    {
      var fails: bool := *;
      if inbox == [] {
        return 0, [];
      }
      if fails && !reliable {
        return -1, [];
      }
      r :| 1 <= r <= n && r <= |inbox|;
      data, inbox := inbox[..r], inbox[r..];
    }

    /** send: any number of the bytes offered, or an error. */
    method Send(bytes: seq<byte>) returns (w: int)
      requires bytes != []
      modifies this`outbox
      ensures w <= |bytes|
      ensures outbox == if w <= 0 then old(outbox) else old(outbox) + bytes[..w]
      ensures reliable ==> w > 0
    {
      var fails: bool := *;
      if fails && !reliable {
        return -1;
      }
      w :| 1 <= w <= |bytes|;
      outbox := outbox + bytes[..w];
    }

    method ReadExact(n: nat) returns (rc: int, buf: seq<byte>)
      modifies this`inbox
      ensures rc == 0 || rc == -1
      ensures rc == 0 ==> n <= |old(inbox)| && buf == old(inbox)[..n] && inbox == old(inbox)[n..]
      ensures rc == -1 ==> |inbox| <= |old(inbox)| && inbox == old(inbox)[|old(inbox)| - |inbox|..]
      ensures reliable ==> (rc == 0 <==> n <= |old(inbox)|)
      ensures reliable && rc == -1 ==> inbox == []
    {
      var got := 0;
      buf := [];
      while got < n
        invariant 0 <= got <= n && got <= |old(inbox)|
        invariant buf == old(inbox)[..got] && inbox == old(inbox)[got..]
        decreases n - got
      {
        var r, data := Recv(n - got);
        if r <= 0 {
          return -1, [];
        }
        assert old(inbox)[..got + r] == old(inbox)[..got] + old(inbox)[got..][..r];
        buf := buf + data;
        got := got + r;
      }
      return 0, buf;
    }

    method WriteExact(bytes: seq<byte>) returns (rc: int)
      modifies this`outbox
      ensures rc == 0 || rc == -1
      ensures rc == 0 ==> outbox == old(outbox) + bytes
      ensures rc == -1 ==> !reliable && exists k :: 0 <= k < |bytes| && outbox == old(outbox) + bytes[..k]
    {
      var sent := 0;
      while sent < |bytes|
        invariant 0 <= sent <= |bytes|
        invariant outbox == old(outbox) + bytes[..sent]
        decreases |bytes| - sent
      {
        var w := Send(bytes[sent..]);
        if w <= 0 {
          return -1;
        }
        assert bytes[..sent + w] == bytes[..sent] + bytes[sent..][..w];
        sent := sent + w;
      }
      assert bytes[..sent] == bytes;
      return 0;
    }
  }

  // ---------------------------------------------------------------- the stream

  function Frame(p: Packet): seq<byte>
    requires Canonical(p)
  {
    Be(HEADER_SIZE + p.header.length, 4) + Encode(p)
  }

  /** What one koe_transport_recv makes of a stream, and what it leaves of it. */
  function Receive(stream: seq<byte>): (r: (Option<Packet>, seq<byte>))
    ensures r.0.Some? ==> |r.1| < |stream|
  {
    if |stream| < 4 then
      (None, [])
    else
      var total, rest := FromBe(stream[..4]), stream[4..];
      if total < HEADER_SIZE || total > HEADER_SIZE + MAX_PAYLOAD then (None, rest)
      else if |rest| < total then (None, [])
      else (Decode(rest[..total]), rest[total..])
  }

  /** Successive receives up to the first error. */
  function ReceiveAll(stream: seq<byte>): seq<Packet>
    decreases |stream|
  {
    var (r, rest) := Receive(stream);
    if r.None? then [] else [r.value] + ReceiveAll(rest)
  }

  predicate Sendable(p: Packet)
  {
    Canonical(p) && p.header.length <= MAX_PAYLOAD
  }

  type SendablePacket = p: Packet | Sendable(p) witness Packet(EMPTY_HEADER, None)

  function Frames(ps: seq<SendablePacket>): seq<byte>
  {
    if ps == [] then [] else Frame(ps[0]) + Frames(ps[1..])
  }

  /** A frame at the front of a stream is received exactly when its payload is within the cap. */
  lemma FrameReceived(p: Packet, rest: seq<byte>)
    requires Canonical(p)
    ensures p.header.length <= MAX_PAYLOAD ==> Receive(Frame(p) + rest) == (Some(p), rest)
    ensures p.header.length > MAX_PAYLOAD ==> Receive(Frame(p) + rest) == (None, Encode(p) + rest)
  {
    hide Encode, Decode, Be, FromBe, Pow256;
    var total, stream := HEADER_SIZE + p.header.length, Frame(p) + rest;
    assert stream[..4] == Be(total, 4);
    assert stream[4..] == Encode(p) + rest;
    Pow256Values();
    if total >= 0x1_0000_0000 {
      BeTruncates(total - 0x1_0000_0000, 4);
      BeRoundTrip(total - 0x1_0000_0000, 4);
    } else {
      BeRoundTrip(total, 4);
    }
    if p.header.length <= MAX_PAYLOAD {
      assert (Encode(p) + rest)[..total] == Encode(p) == Encode(p) + [];
      assert (Encode(p) + rest)[total..] == rest;
      DecodeEncode(p, []);
    }
  }

  /** The prefix counts header and payload, most significant byte first: 106 for an empty packet. */
  lemma FramePrefix()
    ensures Frame(Packet(EMPTY_HEADER, None))[..4] == [0, 0, 0, 106]
  {
    hide Encode;
    BeAt(106, 4, 0);
    BeAt(106, 4, 1);
    BeAt(106, 4, 2);
    BeAt(106, 4, 3);
    Pow256Values();
    LowValues();
    assert Frame(Packet(EMPTY_HEADER, None))[..4] == Be(106, 4);
  }

  lemma LowValues()
    ensures Low(106) == 106 && Low(0) == 0
  {
  }

  /** A frame cut short anywhere is an error. */
  lemma CutRefused(p: SendablePacket, k: nat)
    requires k < |Frame(p)|
    ensures Receive(Frame(p)[..k]) == (None, [])
  {
    hide Encode, Decode, Be, FromBe, Pow256;
    if k >= 4 {
      var total := HEADER_SIZE + p.header.length;
      assert Frame(p)[..k][..4] == Be(total, 4);
      Pow256Values();
      BeRoundTrip(total, 4);
    }
  }

  /**
   The stream delimits itself: after any packets and any cut-off beginning of one more, the
   receiver gets exactly those packets, in order, and then an error.
   */
  lemma {:induction false} SelfDelimiting(ps: seq<SendablePacket>, last: SendablePacket, k: nat)
    requires k < |Frame(last)|
    ensures ReceiveAll(Frames(ps) + Frame(last)[..k]) == ps
    decreases |ps|
  {
    hide Frame, Receive;
    var cut := Frame(last)[..k];
    if ps == [] {
      assert Frames(ps) + cut == cut;
      CutRefused(last, k);
    } else {
      assert Frames(ps) + cut == Frame(ps[0]) + (Frames(ps[1..]) + cut);
      FrameReceived(ps[0], Frames(ps[1..]) + cut);
      SelfDelimiting(ps[1..], last, k);
    }
  }

  // ---------------------------------------------------------------- the C functions

  /** A null payload whose length is not zero goes out as the bytes the allocation happened to hold. */
  method SendPacket(s: Socket, p: Packet) returns (rc: int, ghost stale: seq<byte>)
    requires Owned(p)
    modifies s`outbox
    ensures |stale| == p.header.length
    ensures rc == 0 || rc == -1
    ensures rc == 0 <==> s.outbox == old(s.outbox) + Frame(OnWire(p, stale))
    ensures old(s.outbox) <= s.outbox <= old(s.outbox) + Frame(OnWire(p, stale))
    ensures s.open && s.reliable && p.header.length <= MAX_PAYLOAD ==> rc == 0
  {
    hide Encode, Be, HeaderBytes, Body;
    if !s.open {
      return -1, Zeros(p.header.length);
    }
    var total := HEADER_SIZE + p.header.length;
    var buf := new byte[total];
    stale := buf[HEADER_SIZE..total];
    var written := Serialise(p, buf);
    OnWireBytes(p, stale);
    assert buf[..] == buf[..total] == Encode(OnWire(p, stale));
    if written < 0 {
      return -1, stale;
    }
    rc := s.WriteExact(Be(total, 4));
    if rc == 0 {
      rc := s.WriteExact(buf[..]);
    }
    assert old(s.outbox) + Be(total, 4) + Encode(OnWire(p, stale)) == old(s.outbox) + Frame(OnWire(p, stale));
  }

  method ReceivePacket(s: Socket) returns (r: Option<Packet>)
    modifies s`inbox
    ensures s.open && s.reliable ==> (r, s.inbox) == Receive(old(s.inbox))
    ensures r.Some? ==> (r, s.inbox) == Receive(old(s.inbox))
  {
    hide Decode, FromBe;
    if !s.open {
      return None;
    }
    var rc, prefix := s.ReadExact(4);
    if rc != 0 {
      return None;
    }
    var total := FromBe(prefix);
    if total < HEADER_SIZE || total > HEADER_SIZE + MAX_PAYLOAD {
      return None;
    }
    var bytes;
    rc, bytes := s.ReadExact(total);
    if rc != 0 {
      return None;
    }
    var buf := new byte[total](i requires 0 <= i < total => bytes[i]);
    assert buf[..total] == bytes;
    r := Deserialise(buf, total);
  }

  // ---------------------------------------------------------------- whole streams over splitting sockets

  lemma {:induction false} FramesSnoc(ps: seq<SendablePacket>, p: SendablePacket)
    ensures Frames(ps + [p]) == Frames(ps) + Frame(p)
  {
    hide Frame;
    if ps == [] {
      assert ps + [p] == [p];
      assert Frames([p]) == Frame(p) + Frames([]);
    } else {
      FramesSnoc(ps[1..], p);
      assert (ps + [p])[1..] == ps[1..] + [p];
    }
  }

  /** Sends packets until one fails: `n` whole frames and a proper beginning of the next are on the wire. */
  method SendAll(s: Socket, ps: seq<SendablePacket>) returns (n: nat, ghost cut: seq<byte>)
    modifies s`outbox
    ensures n <= |ps| && s.outbox == old(s.outbox) + (Frames(ps[..n]) + cut)
    ensures if n == |ps| then cut == [] else cut < Frame(ps[n])
    ensures s.open && s.reliable ==> n == |ps|
  {
    hide Frames, Frame;
    n, cut := 0, [];
    FramesNone();
    while n < |ps|
      invariant 0 <= n <= |ps|
      invariant cut == [] && s.outbox == old(s.outbox) + Frames(ps[..n])
    {
      ghost var before := s.outbox;
      var rc, stale := SendPacket(s, ps[n]);
      assert ps[..n + 1] == ps[..n] + [ps[n]];
      FramesSnoc(ps[..n], ps[n]);
      if rc != 0 {
        cut := s.outbox[|before|..];
        CutOf(before, s.outbox, Frame(ps[n]));
        return;
      }
      n := n + 1;
    }
  }

  lemma FramesNone()
    ensures Frames([]) == []
  {
  }

  lemma CutOf(before: seq<byte>, after: seq<byte>, frame: seq<byte>)
    requires before <= after <= before + frame && after != before + frame
    ensures after[|before|..] < frame && after == before + after[|before|..]
  {
    assert frame == (before + frame)[|before|..];
  }

  /** Receives until the first error. */
  method ReceiveUntilError(s: Socket) returns (ps: seq<Packet>)
    modifies s`inbox
    ensures ps <= ReceiveAll(old(s.inbox))
    ensures s.open && s.reliable ==> ps == ReceiveAll(old(s.inbox))
  {
    hide Receive;
    ps := [];
    while true
      invariant ps + ReceiveAll(s.inbox) == ReceiveAll(old(s.inbox))
      decreases |s.inbox|
    {
      ghost var stream := s.inbox;
      var r := ReceivePacket(s);
      if r.None? {
        assert s.open && s.reliable ==> ReceiveAll(stream) == [];
        return;
      }
      assert ReceiveAll(stream) == [r.value] + ReceiveAll(s.inbox);
      assert ps + ([r.value] + ReceiveAll(s.inbox)) == (ps + [r.value]) + ReceiveAll(s.inbox);
      ps := ps + [r.value];
    }
  }

  /**
   One peer sends, the network carries what was sent, the other peer receives: for every way both
   sockets split the bytes and wherever the sender's socket fails, exactly the packets whose sending
   was reported as successful arrive, in order.
   */
  method Exchange(a: Socket, b: Socket, ps: seq<SendablePacket>) returns (n: nat, received: seq<Packet>)
    requires a != b && b.open && b.reliable && b.inbox == []
    modifies a`outbox, b`inbox
    ensures n <= |ps| && received == ps[..n]
    ensures a.open && a.reliable ==> received == ps
  {
    hide Frames, Frame, ReceiveAll;
    ghost var cut;
    ghost var before := a.outbox;
    var sent := |a.outbox|;
    n, cut := SendAll(a, ps);
    b.inbox := a.outbox[sent..];
    assert b.inbox == Frames(ps[..n]) + cut;
    ghost var next := if n < |ps| then ps[n] else Packet(EMPTY_HEADER, None);
    FrameNotEmpty(next);
    assert cut == Frame(next)[..|cut|];
    SelfDelimiting(ps[..n], next, |cut|);
    received := ReceiveUntilError(b);
  }

  lemma FrameNotEmpty(p: SendablePacket)
    ensures |Frame(p)| > 0
  {
  }
}
