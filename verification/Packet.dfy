/** The wire packet of src/koe_packet.c: header layout, encoder, decoder, checksum and validation. */
module Packet {
  import opened Bytes
  import opened Version
  import Crc32

  const HEADER_SIZE := 106
  const CHECKED := 100
  const MAX_PAYLOAD := 1024 * 1024
  const MAGIC: seq<byte> := [0x4B, 0x4F, 0x45, 0x01]

  const FLAG_ENCRYPTED: byte := 0x01
  const FLAG_SIGNED: byte := 0x02
  const FLAG_FRAGMENTED: byte := 0x04
  const FLAG_LAST_FRAG: byte := 0x08

  type uint32 = n: nat | n < UINT32

  /** The cast to `uint32_t`. */
  function Length32(n: nat): (r: uint32)
    ensures r <= n && (n - r) % 0x1_0000_0000 == 0
    ensures n < UINT32 ==> r == n
  {
    n % UINT32
  }

  type Magic = s: seq<byte> | |s| == 4 witness [0, 0, 0, 0]
  type Key = s: seq<byte> | |s| == 32 witness Zeros(32)
  type Nonce = s: seq<byte> | |s| == 24 witness Zeros(24)

  datatype Header = Header(
    magic: Magic, major: byte, minor: byte, kind: byte, flags: byte, length: uint32,
    from: Key, to: Key, nonce: Nonce, checksum: bv32)

  /** `payload` is None for the null pointer. */
  datatype Packet = Packet(header: Header, payload: Option<seq<byte>>)

  /** The payload allocation holds at least the bytes the header counts. */
  predicate Owned(p: Packet)
  {
    p.payload.Some? ==> |p.payload.value| >= p.header.length
  }

  const EMPTY_HEADER := Header(MAGIC, 0, 1, 0, 0, 0, Zeros(32), Zeros(32), Zeros(24), 0)

  type OwnedPacket = p: Packet | Owned(p) witness Packet(EMPTY_HEADER, None)

  /** What the decoder produces: exactly those bytes, and a null payload exactly when there are none. */
  predicate Canonical(p: Packet)
  {
    && (p.payload.Some? ==> |p.payload.value| == p.header.length)
    && (p.payload.None? <==> p.header.length == 0)
  }

  // ---------------------------------------------------------------- layout

  /** The 100 bytes before the checksum. */
  function Prefix(h: Header): (s: seq<byte>)
    ensures |s| == CHECKED
  {
    h.magic + [h.major, h.minor, h.kind, h.flags] + Be(h.length, 4) + h.from + h.to + h.nonce
  }

  function Word32(x: bv32): (s: seq<byte>)
    ensures |s| == 4
  {
    [((x >> 24) & 0xFF) as bv8, ((x >> 16) & 0xFF) as bv8, ((x >> 8) & 0xFF) as bv8, (x & 0xFF) as bv8]
  }

  function FromWord32(s: seq<byte>): bv32
    requires |s| == 4
  {
    ((s[0] as bv32) << 24) | ((s[1] as bv32) << 16) | ((s[2] as bv32) << 8) | (s[3] as bv32)
  }

  function HeaderBytes(h: Header): (s: seq<byte>)
    ensures |s| == HEADER_SIZE
  {
    Prefix(h) + Word32(h.checksum) + [0, 0]
  }

  /** The bytes after the header; a null payload leaves what the buffer held. */
  function Body(p: Packet, stale: seq<byte>): (s: seq<byte>)
    requires Owned(p)
  {
    if p.header.length > 0 && p.payload.Some? then p.payload.value[..p.header.length] else stale
  }

  /** The serialised packet. */
  function Encode(p: Packet): (s: seq<byte>)
    requires Canonical(p)
    ensures |s| == HEADER_SIZE + p.header.length
  {
    HeaderBytes(p.header) + Body(p, [])
  }

  /** The packet a receiver will see: a null payload is filled with what the sending buffer held. */
  function OnWire(p: Packet, stale: seq<byte>): (r: Packet)
    requires Owned(p) && |stale| == p.header.length
    ensures Canonical(r) && r.header == p.header
    ensures p.payload.Some? && p.header.length > 0 ==> r.payload == Some(p.payload.value[..p.header.length])
    ensures Canonical(p) ==> r == p
  {
    assert p.payload.Some? && |p.payload.value| == p.header.length ==>
        p.payload.value[..p.header.length] == p.payload.value;
    Packet(p.header, if p.header.length == 0 then None else Some(Body(p, stale)))
  }

  lemma OnWireBytes(p: Packet, stale: seq<byte>)
    requires Owned(p) && |stale| == p.header.length
    ensures Encode(OnWire(p, stale)) == HeaderBytes(p.header) + Body(p, stale)
  {
    hide HeaderBytes;
  }

  function HeaderAt(b: seq<byte>): Header
    requires |b| >= HEADER_SIZE
  {
    Pow256Values();
    FromBeRoundTrip(b[8..12]);
    Header(b[0..4], b[4], b[5], b[6], b[7], FromBe(b[8..12]), b[12..44], b[44..76], b[76..100], FromWord32(b[100..104]))
  }

  function Decode(b: seq<byte>): (r: Option<Packet>)
  {
    if |b| < HEADER_SIZE then
      None
    else
      var h := HeaderAt(b);
      if h.length == 0 then
        Some(Packet(h, None))
      else if |b| < HEADER_SIZE + h.length || h.length > MAX_PAYLOAD then
        None
      else
        Some(Packet(h, Some(b[HEADER_SIZE..HEADER_SIZE + h.length])))
  }

  // ---------------------------------------------------------------- round trips

  lemma Word32RoundTrip(x: bv32)
    ensures FromWord32(Word32(x)) == x
  {
  }

  lemma FromWord32RoundTrip(s: seq<byte>)
    requires |s| == 4
    ensures Word32(FromWord32(s)) == s
  {
  }

  lemma HeaderRoundTrip(h: Header, rest: seq<byte>)
    ensures HeaderAt(HeaderBytes(h) + rest) == h
  {
    hide Word32, FromWord32;
    var b := HeaderBytes(h) + rest;
    assert b[0..4] == h.magic;
    assert b[8..12] == Be(h.length, 4);
    assert b[12..44] == h.from;
    assert b[44..76] == h.to;
    assert b[76..100] == h.nonce;
    assert b[100..104] == Word32(h.checksum);
    Pow256Values();
    BeRoundTrip(h.length, 4);
    Word32RoundTrip(h.checksum);
  }

  lemma HeaderAtRoundTrip(b: seq<byte>)
    requires |b| >= HEADER_SIZE
    ensures Prefix(HeaderAt(b)) == b[..CHECKED]
    ensures Word32(HeaderAt(b).checksum) == b[100..104]
  {
    hide Word32, FromWord32;
    FromBeRoundTrip(b[8..12]);
    FromWord32RoundTrip(b[100..104]);
    assert b[..CHECKED] == b[0..4] + [b[4], b[5], b[6], b[7]] + b[8..12] + b[12..44] + b[44..76] + b[76..100];
  }

  /** The layout table of include/koe_packet.h:6-20, field by field. */
  lemma Layout(h: Header)
    ensures var b := HeaderBytes(h);
            && |b| == 106 && b[0..4] == h.magic
            && b[4] == h.major && b[5] == h.minor && b[6] == h.kind && b[7] == h.flags
            && b[8..12] == Be(h.length, 4) && b[12..44] == h.from && b[44..76] == h.to && b[76..100] == h.nonce
            && b[100..104] == Word32(h.checksum) && b[104] == 0 && b[105] == 0
  {
    hide Be, Word32;
  }

  lemma LayoutConstants()
    ensures MAGIC == [0x4B, 0x4F, 0x45, 0x01] && Word32(0xA1B2C3D4) == [0xA1, 0xB2, 0xC3, 0xD4]
    ensures MAX_PAYLOAD == 1048576
  {
  }

  /** Decoding gives back every canonical packet exactly when it is within the payload cap. */
  lemma DecodeEncode(p: Packet, rest: seq<byte>)
    requires Canonical(p)
    ensures Decode(Encode(p) + rest) == if p.header.length <= 1048576 then Some(p) else None
  {
    var body := Body(p, []);
    assert p.payload.Some? ==> body == p.payload.value;
    assert Encode(p) + rest == HeaderBytes(p.header) + (body + rest);
    HeaderRoundTrip(p.header, body + rest);
    assert (Encode(p) + rest)[HEADER_SIZE..HEADER_SIZE + p.header.length] == body;
  }

  /** Encoding gives back a decoded buffer exactly when it has no excess and zero reserved bytes. */
  lemma EncodeDecode(b: seq<byte>)
    requires Decode(b).Some?
    ensures Canonical(Decode(b).value)
    ensures Encode(Decode(b).value) == b
            <==> |b| == HEADER_SIZE + Decode(b).value.header.length && b[104] == 0 && b[105] == 0
  {
    hide Word32, HeaderAt, Prefix;
    var p := Decode(b).value;
    HeaderAtRoundTrip(b);
    var e := Encode(p);
    var body := b[HEADER_SIZE..HEADER_SIZE + p.header.length];
    assert Body(p, []) == body;
    assert e == b[..CHECKED] + b[100..104] + [0, 0] + body;
    assert e[104] == 0 && e[105] == 0;
    if |b| == HEADER_SIZE + p.header.length && b[104] == 0 && b[105] == 0 {
      assert b == b[..CHECKED] + b[100..104] + [b[104], b[105]] + body;
    }
  }

  // ---------------------------------------------------------------- validation

  /** What koe_packet_validate accepts. */
  predicate Validates(local: Version, h: Header)
  {
    && h.magic == MAGIC
    && Compatible(local, Version(h.major, h.minor))
    && h.checksum == Crc32.Crc(Prefix(h))
  }

  /** Another magic, an incompatible version or a checksum that is not that of bytes 0 to 100 is refused. */
  lemma RefusedHeader(local: Version, h: Header)
    ensures h.magic != [0x4B, 0x4F, 0x45, 0x01] ==> !Validates(local, h)
    ensures !Compatible(local, Version(h.major, h.minor)) ==> !Validates(local, h)
    ensures h.checksum != Crc32.Crc(HeaderBytes(h)[..100]) ==> !Validates(local, h)
    ensures Validates(local, h.(magic := [0x4B, 0x4F, 0x45, 0x01], major := local.major, minor := local.minor,
                                checksum := Crc32.Crc(HeaderBytes(h.(magic := [0x4B, 0x4F, 0x45, 0x01],
                                                                     major := local.major,
                                                                     minor := local.minor))[..100])))
  {
    hide Crc32.Crc, Compatible, Word32, Be, HeaderBytes, Prefix;
    HeaderPrefix(h);
    var h' := h.(magic := [0x4B, 0x4F, 0x45, 0x01], major := local.major, minor := local.minor);
    HeaderPrefix(h');
    PrefixIgnores(h', Crc32.Crc(Prefix(h')));
    WithSelf(local);
  }

  lemma PrefixIgnores(h: Header, x: bv32)
    ensures Prefix(h.(checksum := x)) == Prefix(h)
  {
  }

  /** A packet is valid after the wire exactly when it was valid before. */
  lemma ValiditySurvives(local: Version, p: Packet)
    requires Canonical(p) && p.header.length <= MAX_PAYLOAD
    ensures Decode(Encode(p)).Some?
    ensures Validates(local, Decode(Encode(p)).value.header) <==> Validates(local, p.header)
  {
    hide Encode, Decode, Validates;
    DecodeEncode(p, []);
    assert Encode(p) + [] == Encode(p);
  }

  /**
   Every change to a serialised valid packet that stays inside 32 consecutive bits of the first
   100 bytes is refused, by the decoder or by validation.
   */
  lemma BurstRefused(local: Version, p: Packet, received: seq<byte>, at: nat)
    requires Canonical(p) && Validates(local, p.header)
    requires |received| == |Encode(p)| && received != Encode(p)
    requires received[CHECKED..] == Encode(p)[CHECKED..]
    requires Crc32.DifferWithin(Encode(p)[..CHECKED], received[..CHECKED], at, 32)
    ensures Decode(received).Some? ==> !Validates(local, Decode(received).value.header)
  {
    hide Encode, Prefix, HeaderAt, Crc32.Crc, Crc32.DifferWithin, MAGIC;
    var sent := Encode(p);
    if Decode(received).Some? {
      assert sent == sent[..CHECKED] + sent[CHECKED..] && received == received[..CHECKED] + received[CHECKED..];
      EncodedParts(p);
      Crc32.BurstDetected(sent[..CHECKED], received[..CHECKED], at);
      HeaderAtRoundTrip(received);
      assert sent[100..104] == sent[CHECKED..][..4] == received[100..104];
      SameChecksum(sent, received);
    }
  }

  lemma EncodedParts(p: Packet)
    requires Canonical(p)
    ensures Encode(p)[..CHECKED] == Prefix(p.header)
    ensures HeaderAt(Encode(p)) == p.header
  {
    HeaderRoundTrip(p.header, Body(p, []));
  }

  lemma SameChecksum(a: seq<byte>, b: seq<byte>)
    requires |a| >= HEADER_SIZE && |b| >= HEADER_SIZE && a[100..104] == b[100..104]
    ensures HeaderAt(a).checksum == HeaderAt(b).checksum
  {
  }

  /** The nonce is the end of what the checksum covers. */
  lemma NonceLast(h: Header, nonce: Nonce)
    ensures Prefix(h.(nonce := nonce)) == Prefix(h)[..76] + nonce
  {
    hide Be;
  }

  /** In particular every change to at most four adjacent bytes. */
  lemma FourBytesRefused(local: Version, p: Packet, received: seq<byte>, i: nat)
    requires Canonical(p) && Validates(local, p.header)
    requires |received| == |Encode(p)| && received != Encode(p)
    requires i + 4 <= CHECKED
    requires forall k :: 0 <= k < |received| && !(i <= k < i + 4) ==> received[k] == Encode(p)[k]
    ensures Decode(received).Some? ==> !Validates(local, Decode(received).value.header)
  {
    hide Encode, Crc32.DifferWithin;
    Crc32.BytesWithin(Encode(p)[..CHECKED], received[..CHECKED], i, 4);
    BurstRefused(local, p, received, 8 * i);
  }

  // ---------------------------------------------------------------- the C functions

  /** A buffer that held `before` and now starts with `acc`. */
  ghost predicate Filled(s: seq<byte>, acc: seq<byte>, before: seq<byte>)
  {
    && |acc| <= |s| == |before|
    && s[..|acc|] == acc
    && s[|acc|..] == before[|acc|..]
  }

  /** memcpy into a buffer at a moving offset. */
  method Put(buf: array<byte>, off: nat, bytes: seq<byte>, ghost acc: seq<byte>, ghost before: seq<byte>)
    returns (next: nat, ghost acc': seq<byte>)
    requires off == |acc| && off + |bytes| <= buf.Length
    requires Filled(buf[..], acc, before)
    modifies buf
    ensures next == off + |bytes| && acc' == acc + bytes
    ensures Filled(buf[..], acc', before)
  {
    ghost var s0 := buf[..];
    for i := 0 to |bytes|
      invariant buf[..] == s0[..off] + bytes[..i] + s0[off + i..]
    {
      buf[off + i] := bytes[i];
    }
    next := off + |bytes|;
    acc' := acc + bytes;
    assert buf[..][next..] == s0[next..] == s0[off..][|bytes|..];
  }

  /** The value an `int` takes from a `size_t`. */
  function CInt(n: nat): (r: int)
    ensures -0x8000_0000 <= r < 0x8000_0000 && (n - r) % 0x1_0000_0000 == 0
  {
    var low := n % UINT32;
    if low < 0x8000_0000 then low else low - UINT32
  }

  /** The 106 header bytes, field by field. */
  method PutHeader(buf: array<byte>, h: Header)
    requires buf.Length >= HEADER_SIZE
    modifies buf
    ensures Filled(buf[..], HeaderBytes(h), old(buf[..]))
  {
    hide Word32, Be, Filled;
    ghost var before := buf[..];
    ghost var acc: seq<byte> := [];
    FilledAtStart(before);
    var off := 0;
    off, acc := Put(buf, off, h.magic, acc, before);
    assert acc == h.magic;
    off, acc := Put(buf, off, [h.major, h.minor, h.kind, h.flags], acc, before);
    off, acc := Put(buf, off, Be(h.length, 4), acc, before);
    off, acc := Put(buf, off, h.from, acc, before);
    off, acc := Put(buf, off, h.to, acc, before);
    off, acc := Put(buf, off, h.nonce, acc, before);
    off, acc := Put(buf, off, Word32(h.checksum), acc, before);
    off, acc := Put(buf, off, [0, 0], acc, before);
    assert acc == HeaderBytes(h);
  }

  method Serialise(p: Packet, buf: array<byte>) returns (rc: int)
    requires Owned(p)
    modifies buf
    ensures var total := HEADER_SIZE + p.header.length;
            if buf.Length < total then
              rc == -1 && buf[..] == old(buf[..])
            else
              && rc == CInt(total)
              && buf[..total] == HeaderBytes(p.header) + Body(p, old(buf[HEADER_SIZE..total]))
              && buf[total..] == old(buf[total..])
  {
    hide Filled, CInt, HeaderBytes;
    var h := p.header;
    var total := HEADER_SIZE + h.length;
    if buf.Length < total {
      return -1;
    }
    ghost var before := buf[..];
    ghost var acc := HeaderBytes(h);
    PutHeader(buf, h);
    var off := HEADER_SIZE;
    if h.length > 0 && p.payload.Some? {
      off, acc := Put(buf, off, p.payload.value[..h.length], acc, before);
    }
    FilledAtEnd(buf[..], acc, before, total);
    rc := CInt(total);
  }

  lemma FilledAtStart(s: seq<byte>)
    ensures Filled(s, [], s)
  {
  }

  lemma FilledAtEnd(s: seq<byte>, acc: seq<byte>, before: seq<byte>, total: nat)
    requires Filled(s, acc, before) && |acc| <= total <= |s|
    ensures s[..total] == acc + before[|acc|..total]
    ensures s[total..] == before[total..]
  {
    assert s[total..] == s[|acc|..][total - |acc|..];
    assert s[..total] == s[..|acc|] + s[|acc|..][..total - |acc|];
  }

  lemma HeaderPrefix(h: Header)
    ensures HeaderBytes(h)[..CHECKED] == Prefix(h)
  {
    hide Prefix, Word32;
  }

  /** The second encoder: the checksum is the CRC of the bytes koe_packet_serialise would send. */
  method Checksum(crc: Crc32.Table, h: Header) returns (r: bv32)
    requires crc.Valid()
    modifies crc, crc.entries
    ensures crc.Valid()
    ensures r == Crc32.Crc(HeaderBytes(h)[..CHECKED])
  {
    hide Be, Filled, HeaderBytes, Crc32.Crc;
    var buf := new byte[100];
    ghost var before := buf[..];
    ghost var acc: seq<byte> := [];
    FilledAtStart(before);
    var off := 0;
    off, acc := Put(buf, off, h.magic, acc, before);
    assert acc == h.magic;
    off, acc := Put(buf, off, [h.major, h.minor, h.kind, h.flags], acc, before);
    off, acc := Put(buf, off, Be(h.length, 4), acc, before);
    off, acc := Put(buf, off, h.from, acc, before);
    off, acc := Put(buf, off, h.to, acc, before);
    off, acc := Put(buf, off, h.nonce, acc, before);
    FilledAtEnd(buf[..], acc, before, CHECKED);
    HeaderPrefix(h);
    assert buf[..] == buf[..][..CHECKED] == Prefix(h);
    r := crc.Compute(buf[..]);
  }

  method Validate(crc: Crc32.Table, local: Version, p: Packet) returns (rc: int)
    requires crc.Valid()
    modifies crc, crc.entries
    ensures crc.Valid()
    ensures rc == if Validates(local, p.header) then 0 else -1
  {
    hide Prefix, HeaderBytes, Crc32.Crc, Compatible;
    if p.header.magic != MAGIC {
      return -1;
    }
    if !Compatible(local, Version(p.header.major, p.header.minor)) {
      return -1;
    }
    var expected := Checksum(crc, p.header);
    HeaderPrefix(p.header);
    if expected != p.header.checksum {
      return -1;
    }
    return 0;
  }

  function Field(b: seq<byte>, off: nat, n: nat): (s: seq<byte>)
    requires off + n <= |b|
    ensures |s| == n
  {
    b[off..off + n]
  }

  method Deserialise(buf: array<byte>, len: nat) returns (r: Option<Packet>)
    requires len <= buf.Length
    ensures r == Decode(buf[..len])
  {
    hide FromBe, FromWord32, Be, Pow256;
    if len < HEADER_SIZE {
      return None;
    }
    var b := buf[..len];
    var off := 0;
    var magic: Magic := Field(b, off, 4);
    off := off + 4;
    var major, minor, kind, flags := b[off], b[off + 1], b[off + 2], b[off + 3];
    off := off + 4;
    Pow256Values();
    FromBeRoundTrip(b[off..off + 4]);
    var length := FromBe(b[off..off + 4]);
    off := off + 4;
    var from: Key := Field(b, off, 32);
    off := off + 32;
    var to: Key := Field(b, off, 32);
    off := off + 32;
    var nonce: Nonce := Field(b, off, 24);
    off := off + 24;
    var checksum := FromWord32(b[off..off + 4]);
    off := off + 4;
    off := off + 2;
    var payload := None;
    if length > 0 {
      if len < off + length {
        return None;
      }
      if length > MAX_PAYLOAD {
        return None;
      }
      payload := Some(b[off..off + length]);
    }
    return Some(Packet(Header(magic, major, minor, kind, flags, length, from, to, nonce, checksum), payload));
  }
}
