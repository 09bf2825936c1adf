/**
 Binary WebSocket frames (src/koe_transport.c:433-505; sections 5.2 and 5.3 of RFC 6455) over
 the sockets of module Transport.
 */
module WebSocket {
  import opened Bytes
  import opened Packet
  import opened Transport

  type MaskKey = s: seq<byte> | |s| == 4 witness [0, 0, 0, 0]

  // ---------------------------------------------------------------- frame headers

  /** How many length bytes follow the two fixed ones. */
  function Extension(len7: nat): nat
  {
    if len7 == 126 then 2 else if len7 == 127 then 8 else 0
  }

  /** The 7-bit length field of koe_transport_ws_send and the bytes that follow it. */
  function LengthField(n: nat): (nat, seq<byte>)
  {
    if n <= 125 then (n, []) else if n <= 65535 then (126, Be(n, 2)) else (127, Be(n, 8))
  }

  /** The second byte of a header: the mask bit over the 7-bit field. */
  function SecondByte(len7: nat, masked: bool): byte
  {
    if masked then Low(len7) | 0x80 else Low(len7)
  }

  predicate IsMasked(b: byte)
  {
    b & 0x80 != 0
  }

  function SevenBits(b: byte): (n: nat)
  {
    (b & 0x7F) as int
  }

  /** The length a header announces. */
  function Announced(len7: nat, ext: seq<byte>): nat
  {
    if ext == [] then len7 else FromBe(ext)
  }

  lemma SecondByteParts(len7: nat, masked: bool)
    requires len7 < 128
    ensures IsMasked(SecondByte(len7, masked)) == masked
    ensures SevenBits(SecondByte(len7, masked)) == len7
  {
    hide Low;
    LowRoundTrip(len7);
    MaskBit(Low(len7));
  }

  lemma MaskBit(b: byte)
    requires b as int < 128
    ensures b & 0x80 == 0 && (b | 0x80) & 0x80 != 0
    ensures b & 0x7F == b && (b | 0x80) & 0x7F == b
  {
  }

  lemma LengthRoundTrip(n: nat)
    requires n < UINT64
    ensures var (len7, ext) := LengthField(n);
            len7 < 128 && |ext| == Extension(len7) && Announced(len7, ext) == n
  {
    hide Be, FromBe, Pow256;
    Pow256Values();
    if 125 < n <= 65535 {
      BeRoundTrip(n, 2);
    } else if n > 65535 {
      BeRoundTrip(n, 8);
    }
  }

  /**
   The length is written in the shortest of the three forms: no header that announces `n`, by
   whatever form, has fewer length bytes.
   */
  lemma ShortestForm(n: nat, len7: nat, ext: seq<byte>)
    requires len7 < 128 && |ext| == Extension(len7) && Announced(len7, ext) == n
    ensures |LengthField(n).1| <= |ext|
  {
    hide Be, FromBe, Pow256;
    Pow256Values();
    FromBeRoundTrip(ext);
  }

  /** The three forms of section 5.2 of RFC 6455, one length each. */
  lemma HeaderForms()
    ensures WsHeader(106) == [0x82, 106]
    ensures WsHeader(256) == [0x82, 126, 1, 0]
    ensures WsHeader(65536) == [0x82, 127, 0, 0, 0, 0, 0, 1, 0, 0]
  {
    hide Low, Be;
    FormBytes();
    TwoBytes(256);
    assert LengthField(65536) == (127, Be(65536, 8));
  }

  lemma EightForm()
    ensures Be(65536, 8) == [0, 0, 0, 0, 0, 1, 0, 0]
  {
    hide Be, Low;
    BeAt(65536, 8, 0);
    BeAt(65536, 8, 1);
    BeAt(65536, 8, 2);
    BeAt(65536, 8, 3);
    BeAt(65536, 8, 4);
    BeAt(65536, 8, 5);
    BeAt(65536, 8, 6);
    BeAt(65536, 8, 7);
    Pow256Values();
    EightLows();
  }

  lemma EightLows()
    ensures Low(0) == 0 && Low(1) == 1 && Low(256) == 0 && Low(65536) == 0
  {
  }

  lemma FormBytes()
    ensures Low(106) == 106 && Low(126) == 126 && Low(127) == 127
    ensures Low(256 / 256) == 1 && Low(256) == 0 && Be(65536, 8) == [0, 0, 0, 0, 0, 1, 0, 0]
  {
    hide Be, Low;
    FormLows();
    EightForm();
    EightLows();
  }

  lemma FormLows()
    ensures Low(106) == 106 && Low(126) == 126 && Low(127) == 127
  {
    hide Low;
    ByteRoundTrip(106);
    ByteRoundTrip(126);
    ByteRoundTrip(127);
  }

  // ---------------------------------------------------------------- masking

  function Masked(data: seq<byte>, key: MaskKey): (r: seq<byte>)
    ensures |r| == |data|
  {
    seq(|data|, i requires 0 <= i < |data| => data[i] ^ key[i % 4])
  }

  lemma MaskByteTwice(a: byte, k: byte)
    ensures (a ^ k) ^ k == a
  {
  }

  lemma MaskTwice(data: seq<byte>, key: MaskKey)
    ensures Masked(Masked(data, key), key) == data
  {
    forall i | 0 <= i < |data| ensures Masked(Masked(data, key), key)[i] == data[i] {
      MaskByteTwice(data[i], key[i % 4]);
    }
  }

  /** The example of section 5.7 of RFC 6455: "Hello" masked with 37 fa 21 3d. */
  lemma MaskedHello()
    ensures Masked([0x48, 0x65, 0x6C, 0x6C, 0x6F], [0x37, 0xFA, 0x21, 0x3D]) == [0x7F, 0x9F, 0x4D, 0x51, 0x58]
  {
  }

  // ---------------------------------------------------------------- the stream

  /** A frame of `data` with the given first byte, masked when a key is given. */
  function FrameOf(first: byte, key: Option<MaskKey>, data: seq<byte>): seq<byte>
  {
    var (len7, ext) := LengthField(|data|);
    [first, SecondByte(len7, key.Some?)] + ext
    + (if key.Some? then key.value + Masked(data, key.value) else data)
  }

  /** What koe_transport_ws_send puts on the wire. */
  function WsFrame(p: Packet): seq<byte>
    requires Canonical(p)
  {
    FrameOf(0x82, None, Encode(p))
  }

  /** The payload of a frame whose length and mask bit are known. */
  function Payload(n: nat, masked: bool, rest: seq<byte>): (r: (Option<Packet>, seq<byte>))
    ensures |r.1| <= |rest|
  {
    var skip := if masked then 4 else 0;
    if |rest| < skip then
      (None, [])
    else
      var body := rest[skip..];
      if n > HEADER_SIZE + MAX_PAYLOAD then (None, body)
      else if |body| < n then (None, [])
      else (Decode(if masked then Masked(body[..n], rest[..4]) else body[..n]), body[n..])
  }

  /** What one koe_transport_ws_recv makes of a stream, and what it leaves of it. */
  function Receive(stream: seq<byte>): (r: (Option<Packet>, seq<byte>))
    ensures r.0.Some? ==> |r.1| < |stream|
  {
    if |stream| < 2 then
      (None, [])
    else
      var len7, rest := SevenBits(stream[1]), stream[2..];
      var k := Extension(len7);
      if |rest| < k then (None, [])
      else Payload(Announced(len7, rest[..k]), IsMasked(stream[1]), rest[k..])
  }

  /**
   A frame round-trips, unmasked or masked under any key, exactly when its packet is within the
   payload cap.
   */
  lemma FrameReceived(first: byte, key: Option<MaskKey>, p: Packet, rest: seq<byte>)
    requires Canonical(p)
    ensures var r := Receive(FrameOf(first, key, Encode(p)) + rest);
            if p.header.length <= MAX_PAYLOAD then r == (Some(p), rest) else r.0 == None
  {
    hide Encode, Masked, SecondByte, Payload, Receive, LengthField, Announced, Extension;
    var data := Encode(p);
    var (len7, ext) := LengthField(|data|);
    var body := if key.Some? then key.value + Masked(data, key.value) else data;
    LengthRoundTrip(|data|);
    HeaderRead(first, len7, ext, key.Some?, body + rest);
    assert FrameOf(first, key, data) + rest == [first, SecondByte(len7, key.Some?)] + ext + (body + rest);
    PayloadReceived(key, p, rest);
  }

  /** A frame that announces more than a header and a mebibyte is refused, whatever it holds. */
  lemma OverCapRefused(n: nat, masked: bool, rest: seq<byte>)
    requires n > 106 + 1048576
    ensures Payload(n, masked, rest).0 == None
  {
    hide Decode, Masked;
  }

  /** A well-formed header is read back and what follows it is the payload. */
  lemma HeaderRead(first: byte, len7: nat, ext: seq<byte>, masked: bool, body: seq<byte>)
    requires len7 < 128 && |ext| == Extension(len7)
    ensures Receive([first, SecondByte(len7, masked)] + ext + body) == Payload(Announced(len7, ext), masked, body)
  {
    hide SecondByte, IsMasked, SevenBits, Payload, Announced;
    var stream := [first, SecondByte(len7, masked)] + ext + body;
    SecondByteParts(len7, masked);
    assert stream[1] == SecondByte(len7, masked);
    assert stream[2..] == ext + body;
    assert (ext + body)[..|ext|] == ext && (ext + body)[|ext|..] == body;
  }

  lemma PayloadReceived(key: Option<MaskKey>, p: Packet, rest: seq<byte>)
    requires Canonical(p)
    ensures var data := Encode(p);
            var body := (if key.Some? then key.value + Masked(data, key.value) else data) + rest;
            var r := Payload(|data|, key.Some?, body);
            if p.header.length <= MAX_PAYLOAD then r == (Some(p), rest) else r.0 == None
  {
    hide Encode, Decode, Masked;
    var data := Encode(p);
    DecodeEncode(p, []);
    assert data + [] == data;
    if key.Some? {
      var body := key.value + Masked(data, key.value) + rest;
      assert body[..4] == key.value;
      assert body[4..][..|data|] == Masked(data, key.value);
      assert body[4..][|data|..] == rest;
      MaskTwice(data, key.value);
    } else {
      assert (data + rest)[..|data|] == data && (data + rest)[|data|..] == rest;
    }
  }

  /** The header of a frame that carries `n` bytes. */
  function WsHeader(n: nat): seq<byte>
  {
    [0x82, SecondByte(LengthField(n).0, false)] + LengthField(n).1
  }

  lemma FrameParts(p: Packet)
    requires Canonical(p)
    ensures WsFrame(p) == WsHeader(HEADER_SIZE + p.header.length) + Encode(p)
  {
    hide Encode, LengthField, SecondByte;
  }

  function WsFrames(ps: seq<SendablePacket>): seq<byte>
  {
    if ps == [] then [] else WsFrame(ps[0]) + WsFrames(ps[1..])
  }

  /** Successive receives up to the first error. */
  function WsReceiveAll(stream: seq<byte>): seq<Packet>
    decreases |stream|
  {
    var r := Receive(stream);
    if r.0.None? then [] else [r.0.value] + WsReceiveAll(r.1)
  }

  /** A frame cut short anywhere is an error. */
  lemma CutRefused(p: SendablePacket, k: nat)
    requires k < |WsFrame(p)|
    ensures Receive(WsFrame(p)[..k]).0 == None
  {
    hide Encode, SecondByte, LengthField, Announced, Receive, Payload;
    var data := Encode(p);
    var (len7, ext) := LengthField(|data|);
    LengthRoundTrip(|data|);
    var stream := WsFrame(p)[..k];
    assert WsFrame(p) == [0x82, SecondByte(len7, false)] + ext + data;
    if k < 2 + |ext| {
      if k >= 2 {
        assert stream[1] == SecondByte(len7, false);
      }
      HeaderCut(stream, len7);
    } else {
      var body := data[..k - 2 - |ext|];
      assert stream == [0x82, SecondByte(len7, false)] + ext + body;
      HeaderRead(0x82, len7, ext, false, body);
      PayloadCut(|data|, body);
    }
  }

  lemma HeaderCut(stream: seq<byte>, len7: nat)
    requires len7 < 128 && |stream| < 2 + Extension(len7)
    requires |stream| >= 2 ==> stream[1] == SecondByte(len7, false)
    ensures Receive(stream).0 == None
  {
    hide SecondByte, SevenBits, IsMasked, Payload, Announced;
    SecondByteParts(len7, false);
  }

  lemma PayloadCut(n: nat, body: seq<byte>)
    requires |body| < n
    ensures Payload(n, false, body).0 == None
  {
    hide Decode;
    assert body[0..] == body;
  }

  /** After any frames and any cut-off beginning of one more, exactly those packets, in order, then an error. */
  lemma {:induction false} SelfDelimiting(ps: seq<SendablePacket>, last: SendablePacket, k: nat)
    requires k < |WsFrame(last)|
    ensures WsReceiveAll(WsFrames(ps) + WsFrame(last)[..k]) == ps
    decreases |ps|
  {
    hide WsFrame, Receive;
    var cut := WsFrame(last)[..k];
    if ps == [] {
      assert WsFrames(ps) + cut == cut;
      CutRefused(last, k);
    } else {
      assert WsFrames(ps) + cut == WsFrame(ps[0]) + (WsFrames(ps[1..]) + cut);
      OwnFrameReceived(ps[0], WsFrames(ps[1..]) + cut);
      SelfDelimiting(ps[1..], last, k);
    }
  }

  lemma OwnFrameReceived(p: SendablePacket, rest: seq<byte>)
    ensures Receive(WsFrame(p) + rest) == (Some(p), rest)
  {
    hide FrameOf, Receive, Encode;
    FrameReceived(0x82, None, p, rest);
  }

  // ---------------------------------------------------------------- the C functions

  /** The frame header of koe_transport_ws_send. */
  method WriteHeader(n: nat) returns (hdr: seq<byte>)
    requires n < UINT64
    ensures hdr == [0x82, SecondByte(LengthField(n).0, false)] + LengthField(n).1
  {
    hide Low, Be;
    var frame := new byte[10];
    frame[0] := 0x82;
    if n <= 125 {
      frame[1] := Low(n);
      hdr := frame[..2];
    } else if n <= 65535 {
      frame[1], frame[2], frame[3] := Low(126), Low(n / 256), Low(n);
      hdr := frame[..4];
      TwoBytes(n);
    } else {
      frame[1] := Low(127);
      EightBytes(frame, n);
      hdr := frame[..10];
      assert hdr == frame[..2] + frame[2..10];
    }
  }

  lemma TwoBytes(n: nat)
    ensures Be(n, 2) == [Low(n / 256), Low(n)]
  {
    BeAt(n, 2, 0);
    BeAt(n, 2, 1);
  }

  /** The shift loop of the long form. */
  method EightBytes(frame: array<byte>, n: nat)
    requires frame.Length == 10
    modifies frame
    ensures frame[..2] == old(frame[..2]) && frame[2..10] == Be(n, 8)
  {
    hide Low, Be, Pow256;
    for i := 0 to 8
      invariant frame[..2] == old(frame[..2])
      invariant frame[2..2 + i] == Be(n, 8)[..i]
    {
      BeAt(n, 8, i);
      frame[2 + i] := Low(n / Pow256(7 - i));
    }
  }

  /**
   Write errors are not reported, and the payload is written even after the header failed: a beginning of the
   header is followed by a beginning of the payload.  Over a socket without errors the whole frame is sent.
   */
  method Send(s: Socket, p: Packet) returns (rc: int, ghost stale: seq<byte>)
    requires Owned(p)
    modifies s`outbox
    ensures rc == 0 && |stale| == p.header.length
    ensures var hdr, data := WsHeader(HEADER_SIZE + p.header.length), Encode(OnWire(p, stale));
            exists j, k :: 0 <= j <= |hdr| && 0 <= k <= |data| && s.outbox == old(s.outbox) + hdr[..j] + data[..k]
    ensures s.reliable ==> s.outbox == old(s.outbox) + WsFrame(OnWire(p, stale))
  {
    hide Encode, HeaderBytes, LengthField, SecondByte, Body, WsFrame;
    var total := HEADER_SIZE + p.header.length;
    var buf := new byte[total];
    stale := buf[HEADER_SIZE..total];
    var _ := Serialise(p, buf);
    OnWireBytes(p, stale);
    ghost var data := Encode(OnWire(p, stale));
    assert buf[..] == buf[..total] == data;
    var hdr := WriteHeader(total);
    ghost var before := s.outbox;
    var rc1 := s.WriteExact(hdr);
    ghost var j := WrittenPart(before, hdr, s.outbox, rc1);
    ghost var between := s.outbox;
    var rc2 := s.WriteExact(buf[..]);
    ghost var k := WrittenPart(between, data, s.outbox, rc2);
    assert s.outbox == before + hdr[..j] + data[..k];
    FrameParts(OnWire(p, stale));
    if s.reliable {
      assert s.outbox == before + hdr + data == before + (hdr + data);
    }
    rc := 0;
  }

  /** How much of `bytes` a write put out. */
  lemma WrittenPart(before: seq<byte>, bytes: seq<byte>, after: seq<byte>, rc: int) returns (k: nat)
    requires rc == 0 || rc == -1
    requires rc == 0 ==> after == before + bytes
    requires rc == -1 ==> exists k :: 0 <= k < |bytes| && after == before + bytes[..k]
    ensures k <= |bytes| && after == before + bytes[..k]
  {
    if rc == 0 {
      k := |bytes|;
      assert bytes[..k] == bytes;
    } else {
      k :| 0 <= k < |bytes| && after == before + bytes[..k];
    }
  }

  /** The in-place unmasking loop. */
  method Unmask(buf: array<byte>, key: MaskKey)
    modifies buf
    ensures buf[..] == Masked(old(buf[..]), key)
  {
    for i := 0 to buf.Length
      invariant forall k :: 0 <= k < i ==> buf[k] == old(buf[k]) ^ key[k % 4]
      invariant forall k :: i <= k < buf.Length ==> buf[k] == old(buf[k])
    {
      buf[i] := buf[i] ^ key[i % 4];
    }
  }

  /** The length of a frame, read in one of the three forms. */
  method ReadLength(s: Socket, second: byte) returns (n: Option<nat>)
    modifies s`inbox
    ensures var len7 := SevenBits(second);
            var k := Extension(len7);
            && (n.Some? ==> k <= |old(s.inbox)| && n.value == Announced(len7, old(s.inbox)[..k])
                            && s.inbox == old(s.inbox)[k..])
            && (s.reliable ==> (n.Some? <==> k <= |old(s.inbox)|))
            && (s.reliable && n.None? ==> s.inbox == [])
  {
    hide SevenBits, FromBe;
    var len := SevenBits(second);
    if len == 126 || len == 127 {
      var rc, ext := s.ReadExact(if len == 126 then 2 else 8);
      if rc != 0 {
        return None;
      }
      len := 0;
      FromBeStep(ext, 0);
      for i := 0 to |ext|
        invariant len == FromBe(ext[..i])
        modifies {}
      {
        FromBeStep(ext, i);
        len := len * 256 + ext[i] as int;
      }
      assert ext[..|ext|] == ext;
    }
    return Some(len);
  }

  lemma FromBeStep(s: seq<byte>, i: nat)
    requires i < |s|
    ensures FromBe(s[..i + 1]) == FromBe(s[..i]) * 256 + s[i] as int
    ensures FromBe(s[..0]) == 0
  {
    assert s[..i + 1][..i] == s[..i];
  }

  method ReceivePacket(s: Socket) returns (r: Option<Packet>)
    modifies s`inbox
    ensures s.reliable ==> (r, s.inbox) == Receive(old(s.inbox))
    ensures r.Some? ==> (r, s.inbox) == Receive(old(s.inbox))
  {
    hide Decode, SevenBits, IsMasked, Announced, Extension, Masked;
    var rc, hdr := s.ReadExact(2);
    if rc != 0 {
      return None;
    }
    var masked := IsMasked(hdr[1]);
    var len := ReadLength(s, hdr[1]);
    if len.None? {
      return None;
    }
    r := ReadPayload(s, len.value, masked);
  }

  method ReadPayload(s: Socket, n: nat, masked: bool) returns (r: Option<Packet>)
    modifies s`inbox
    ensures s.reliable ==> (r, s.inbox) == Payload(n, masked, old(s.inbox))
    ensures r.Some? ==> (r, s.inbox) == Payload(n, masked, old(s.inbox))
  {
    hide Decode, Masked;
    var key: seq<byte> := [0, 0, 0, 0];
    var rc := 0;
    if masked {
      rc, key := s.ReadExact(4);
      if rc != 0 {
        return None;
      }
    }
    if n > HEADER_SIZE + MAX_PAYLOAD {
      return None;
    }
    var bytes;
    rc, bytes := s.ReadExact(n);
    if rc != 0 {
      return None;
    }
    var buf := new byte[n](i requires 0 <= i < n => bytes[i]);
    assert buf[..] == bytes;
    if masked {
      Unmask(buf, key);
    }
    assert buf[..n] == buf[..];
    r := Deserialise(buf, n);
  }

  // ---------------------------------------------------------------- whole streams over splitting sockets

  lemma {:induction false} WsFramesSnoc(ps: seq<SendablePacket>, p: SendablePacket)
    ensures WsFrames(ps + [p]) == WsFrames(ps) + WsFrame(p)
  {
    hide WsFrame;
    if ps == [] {
      assert ps + [p] == [p];
      assert WsFrames([p]) == WsFrame(p) + WsFrames([]);
    } else {
      WsFramesSnoc(ps[1..], p);
      assert (ps + [p])[1..] == ps[1..] + [p];
    }
  }

  lemma WsFramesNone()
    ensures WsFrames([]) == []
  {
  }

  method SendAll(s: Socket, ps: seq<SendablePacket>)
    requires s.reliable
    modifies s`outbox
    ensures s.outbox == old(s.outbox) + WsFrames(ps)
  {
    hide WsFrames, WsFrame, WsHeader;
    WsFramesNone();
    for n := 0 to |ps|
      invariant s.outbox == old(s.outbox) + WsFrames(ps[..n])
    {
      var _, stale := Send(s, ps[n]);
      assert ps[..n + 1] == ps[..n] + [ps[n]];
      WsFramesSnoc(ps[..n], ps[n]);
    }
    assert ps[..|ps|] == ps;
  }

  method ReceiveUntilError(s: Socket) returns (ps: seq<Packet>)
    modifies s`inbox
    ensures ps <= WsReceiveAll(old(s.inbox))
    ensures s.reliable ==> ps == WsReceiveAll(old(s.inbox))
  {
    hide Receive;
    ps := [];
    while true
      invariant ps + WsReceiveAll(s.inbox) == WsReceiveAll(old(s.inbox))
      decreases |s.inbox|
    {
      ghost var stream := s.inbox;
      var r := ReceivePacket(s);
      if r.None? {
        assert s.reliable ==> WsReceiveAll(stream) == [];
        return;
      }
      assert WsReceiveAll(stream) == [r.value] + WsReceiveAll(s.inbox);
      assert ps + ([r.value] + WsReceiveAll(s.inbox)) == (ps + [r.value]) + WsReceiveAll(s.inbox);
      ps := ps + [r.value];
    }
  }

  /** Over sockets without errors exactly the packets sent arrive, in order, for every way both split the bytes. */
  method Exchange(a: Socket, b: Socket, ps: seq<SendablePacket>) returns (received: seq<Packet>)
    requires a != b && a.reliable && b.reliable && b.inbox == []
    modifies a`outbox, b`inbox
    ensures received == ps
  {
    hide WsFrames, WsFrame, WsReceiveAll;
    var sent := |a.outbox|;
    SendAll(a, ps);
    b.inbox := a.outbox[sent..];
    ghost var none: SendablePacket := Packet(EMPTY_HEADER, None);
    FrameNotEmpty(none);
    assert b.inbox == WsFrames(ps) + WsFrame(none)[..0];
    SelfDelimiting(ps, none, 0);
    received := ReceiveUntilError(b);
  }

  lemma FrameNotEmpty(p: SendablePacket)
    ensures |WsFrame(p)| > 0
  {
  }
}
