/** File transfer in chunks (src/koe_media.c:81-173 and 278-317). */
module Media {
  import opened Bytes
  import opened Version
  import opened Packet
  import opened Crypto
  import Crc32

  const CHUNK_SIZE := 64 * 1024
  const READ_SIZE := 8192
  const MAX_FILE := 512 * 1024 * 1024

  const TYPE_MEDIA_CHUNK: byte := 0x11

  type Hash = s: seq<byte> | |s| == 32 witness Zeros(32)

  datatype Offer = Offer(fileSize: nat, chunkCount: uint32, sha256: Hash, sender: Key, recipient: Key)

  // ---------------------------------------------------------------- the sender

  /** What koe_media_offer_build says about a file; None when it is too large. */
  function OfferFor(sha: seq<byte> -> Hash, file: seq<byte>, recipient: Key): Option<Offer>
  {
    if |file| > MAX_FILE then None
    else Some(Offer(|file|, Length32((|file| + CHUNK_SIZE - 1) / CHUNK_SIZE), sha(file), ZERO_KEY, recipient))
  }

  /** lseek and read: at most `n` bytes from an offset, none past the end. */
  function ReadAt(file: seq<byte>, offset: nat, n: nat): seq<byte>
  {
    if offset >= |file| then [] else if offset + n <= |file| then file[offset..offset + n] else file[offset..]
  }

  /** The bytes of a chunk; None when the file does not have them.  The remainder is unsigned. */
  function ChunkData(file: seq<byte>, offer: Offer, index: uint32): Option<seq<byte>>
  {
    var offset := index * CHUNK_SIZE;
    var remaining := (offer.fileSize - offset) % UINT64;
    var n := if remaining < CHUNK_SIZE then remaining else CHUNK_SIZE;
    var data := ReadAt(file, offset, n);
    if |data| != n then None else Some(data)
  }

  /** The bytes of a chunk the file has. */
  function ChunkOf(file: seq<byte>, offer: Offer, index: uint32): seq<byte>
  {
    var data := ChunkData(file, offer, index);
    if data.Some? then data.value else []
  }

  /** `chunk_index == chunk_count - 1` in 32 bits. */
  predicate IsLast(offer: Offer, index: uint32)
  {
    index == (offer.chunkCount - 1) % UINT32
  }

  function ChunkFlags(last: bool): byte
  {
    if last then FLAG_ENCRYPTED | FLAG_FRAGMENTED | FLAG_LAST_FRAG else FLAG_ENCRYPTED | FLAG_FRAGMENTED
  }

  function ChunkHeader(offer: Offer, last: bool, nonce: Nonce, length: nat): Header
  {
    var h := Header(MAGIC, LOCAL.major, LOCAL.minor, TYPE_MEDIA_CHUNK, ChunkFlags(last), Length32(length),
                    offer.sender, offer.recipient, nonce, 0);
    h.(checksum := Crc32.Crc(Prefix(h)))
  }

  function ChunkPacket(c: Suite, offer: Offer, sess: Session, index: uint32, data: seq<byte>, nonce: Nonce): Packet
  {
    var plain := Be(index, 4) + data;
    Packet(ChunkHeader(offer, IsLast(offer, index), nonce, |plain| + TAG_LEN), Some(c.seal(plain, nonce, sess.tx)))
  }

  // ---------------------------------------------------------------- the receiver

  datatype Transfer = Transfer(offer: Offer, written: seq<byte>, received: uint32)

  /** koe_media_chunk_receive; None is the error return. */
  function Received(c: Suite, t: Transfer, p: Packet, sess: Session): Option<Transfer>
    requires Owned(p)
  {
    if p.payload.None? || p.header.length <= TAG_LEN then None
    else
      var plain := c.unseal(p.payload.value[..p.header.length], p.header.nonce, sess.rx);
      if plain.None? || |plain.value| < 4 then None
      else Some(t.(written := t.written + plain.value[4..], received := Length32(t.received + 1)))
  }

  predicate Accepted(sha: seq<byte> -> Hash, t: Transfer)
  {
    sha(t.written) == t.offer.sha256
  }

  /** The incremental hash sha256_file uses: an initial state, absorbing bytes, and finishing. */
  datatype Hasher = Hasher(init: seq<byte>, update: (seq<byte>, seq<byte>) -> seq<byte>, finish: seq<byte> -> Hash)

  /** Absorbing in pieces is absorbing at once, and the result is the hash. */
  ghost predicate Computes(h: Hasher, sha: seq<byte> -> Hash)
  {
    && (forall s :: h.update(s, []) == s)
    && (forall s, a, b :: h.update(h.update(s, a), b) == h.update(s, a + b))
    && (forall m :: h.finish(h.update(h.init, m)) == sha(m))
  }

  /** Every hash has such a form: keep the bytes and hash them at the end. */
  lemma EveryHashComputes(sha: seq<byte> -> Hash)
    ensures Computes(Hasher([], (s, a) => s + a, sha), sha)
  {
    var h := Hasher([], (s, a) => s + a, sha);
    forall s, a, b ensures h.update(h.update(s, a), b) == h.update(s, a + b) {
      assert s + a + b == s + (a + b);
    }
    forall s ensures h.update(s, []) == s {
      assert s + [] == s;
    }
    forall m ensures h.finish(h.update(h.init, m)) == sha(m) {
      assert [] + m == m;
    }
  }

  lemma Absorbed(h: Hasher, sha: seq<byte> -> Hash, m: seq<byte>, more: seq<byte>)
    requires Computes(h, sha)
    ensures h.update(h.init, []) == h.init
    ensures h.update(h.update(h.init, m), more) == h.update(h.init, m + more)
  {
  }

  lemma HashOf(h: Hasher, sha: seq<byte> -> Hash, m: seq<byte>)
    requires Computes(h, sha)
    ensures h.finish(h.update(h.init, m)) == sha(m)
  {
  }

  /** Encrypted fragments of type 0x11 that pass validation; the mark of the last is on the last chunk only. */
  lemma ChunkOnWire(offer: Offer, last: bool, nonce: Nonce, length: nat, local: Version)
    requires Compatible(local, LOCAL)
    ensures var h := ChunkHeader(offer, last, nonce, length);
            && Prefix(h)[..8] == [0x4B, 0x4F, 0x45, 0x01, 0, 1, 0x11, if last then 0x0D else 0x05]
            && Prefix(h)[12..44] == offer.sender && Prefix(h)[44..76] == offer.recipient && Validates(local, h)
  {
    hide Crc32.Crc, Compatible, Be;
    PrefixIgnores(ChunkHeader(offer, last, nonce, length), 0);
  }

  /** The ciphertext opens to the chunk index in four bytes, then the data. */
  lemma ChunkOpens(c: Suite, offer: Offer, sess: Session, index: uint32, data: seq<byte>, nonce: Nonce)
    requires Lawful(c)
    ensures c.unseal(ChunkPacket(c, offer, sess, index, data, nonce).payload.value, nonce, sess.tx)
            == Some(Be(index, 4) + data)
  {
    hide Be, Crc32.Crc, Prefix, ChunkFlags;
  }

  /** A chunk is written exactly when its ciphertext is authentic and holds an index; then all that follows it is. */
  lemma OnlyAuthentic(c: Suite, t: Transfer, p: Packet, sess: Session)
    requires Owned(p)
    ensures Received(c, t, p, sess).Some?
            <==> && p.payload.Some? && p.header.length > 16
                 && var plain := c.unseal(p.payload.value[..p.header.length], p.header.nonce, sess.rx);
                    plain.Some? && |plain.value| >= 4
    ensures Received(c, t, p, sess).Some? ==> Received(c, t, p, sess).value.offer == t.offer
  {
  }

  // ---------------------------------------------------------------- the partition

  lemma ChunkCount(n: nat)
    requires n <= MAX_FILE
    ensures var k := (n + CHUNK_SIZE - 1) / CHUNK_SIZE;
            && k < UINT32 && k * CHUNK_SIZE >= n
            && (n > 0 ==> k > 0 && (k - 1) * CHUNK_SIZE < n) && (n == 0 ==> k == 0)
  {
  }

  /** The offer is about this file, unchanged since. */
  predicate Describes(offer: Offer, file: seq<byte>)
  {
    && |file| <= MAX_FILE && offer.fileSize == |file|
    && offer.chunkCount == (|file| + CHUNK_SIZE - 1) / CHUNK_SIZE
  }

  lemma OfferDescribes(sha: seq<byte> -> Hash, file: seq<byte>, recipient: Key)
    ensures OfferFor(sha, file, recipient).Some? <==> |file| <= 536870912
    ensures |file| <= MAX_FILE ==>
              var offer := OfferFor(sha, file, recipient).value;
              offer.sha256 == sha(file) && offer.recipient == recipient && offer.sender == Zeros(32)
    ensures |file| <= MAX_FILE ==> Describes(OfferFor(sha, file, recipient).value, file)
  {
    if |file| <= MAX_FILE {
      ChunkCount(|file|);
    }
  }

  /** The first `n` chunks' worth of the file. */
  function Beginning(file: seq<byte>, n: nat): seq<byte>
  {
    file[..Min(|file|, n * CHUNK_SIZE)]
  }

  /**
   The chunks the offer counts partition the file: chunk `i` takes it from `i` pieces of 64 KiB to
   `i + 1`, none is empty or above the chunk size, and only the last is marked as such.
   */
  lemma ChunkIs(file: seq<byte>, offer: Offer, i: uint32)
    requires Describes(offer, file) && i < offer.chunkCount
    ensures ChunkData(file, offer, i) == Some(ChunkOf(file, offer, i))
    ensures Beginning(file, i + 1) == Beginning(file, i) + ChunkOf(file, offer, i)
    ensures 0 < |ChunkOf(file, offer, i)| <= CHUNK_SIZE
    ensures IsLast(offer, i) <==> i == offer.chunkCount - 1
    ensures IsLast(offer, i) <==> Beginning(file, i + 1) == file
  {
    ChunkCount(|file|);
  }

  /** Of the packets of a file, those of all chunks are marked as fragments and that of the last chunk alone as last. */
  lemma ChunkMarks(c: Suite, file: seq<byte>, offer: Offer, sess: Session, i: uint32, nonce: Nonce)
    requires Describes(offer, file) && i < offer.chunkCount
    ensures var flags := ChunkPacket(c, offer, sess, i, ChunkOf(file, offer, i), nonce).header.flags;
            flags & 0x04 != 0 && (flags & 0x08 != 0 <==> i == offer.chunkCount - 1)
  {
    hide Crc32.Crc, Prefix, Be, ChunkOf, Describes, ChunkFlags, Beginning;
    ChunkIs(file, offer, i);
    ChunkBits(IsLast(offer, i));
  }

  lemma ChunkBits(last: bool)
    ensures ChunkFlags(last) & 0x04 != 0 && (ChunkFlags(last) & 0x08 != 0 <==> last)
  {
  }

  lemma NothingLeft(file: seq<byte>, offer: Offer)
    requires Describes(offer, file)
    ensures Beginning(file, offer.chunkCount) == file
  {
    ChunkCount(|file|);
  }

  /** The chunks received so far, in the order they arrived. */
  function Pieces(file: seq<byte>, offer: Offer, order: seq<uint32>): seq<byte>
  {
    if order == [] then []
    else
      var n := |order| - 1;
      Pieces(file, offer, order[..n]) + ChunkOf(file, offer, order[n])
  }

  function Upto(n: uint32): (s: seq<uint32>)
    ensures |s| == n && forall k :: 0 <= k < n ==> s[k] == k
  {
    seq(n, i requires 0 <= i < n => i)
  }

  /** Chunks 0 to n-1 are the beginning of the file. */
  lemma {:induction false} PiecesInOrder(file: seq<byte>, offer: Offer, n: uint32)
    requires Describes(offer, file) && n <= offer.chunkCount
    ensures Pieces(file, offer, Upto(n)) == Beginning(file, n)
  {
    if n == 0 {
    } else {
      hide ChunkOf, Beginning, Describes, Upto;
      PiecesInOrder(file, offer, n - 1);
      ChunkIs(file, offer, n - 1);
      assert Upto(n)[..n - 1] == Upto(n - 1);
    }
  }

  // ---------------------------------------------------------------- transfers

  lemma {:induction false} ReceiveOne(c: Suite, t: Transfer, offer: Offer, a: Session, b: Session,
                                      index: uint32, data: seq<byte>, nonce: Nonce)
    requires Lawful(c) && a.tx == b.rx && |data| <= CHUNK_SIZE
    ensures var p := ChunkPacket(c, offer, a, index, data, nonce);
            && Owned(p)
            && Received(c, t, p, b) == Some(t.(written := t.written + data, received := Length32(t.received + 1)))
  {
    hide Be, Crc32.Crc, Prefix, ChunkFlags;
    var plain := Be(index, 4) + data;
    var ct := c.seal(plain, nonce, a.tx);
    assert |ct| == |plain| + TAG_LEN && ct[..|ct|] == ct;
    assert plain[4..] == data;
  }

  /** The packets of the chunks of `order`, with the nonces drawn for them. */
  function Sent(c: Suite, file: seq<byte>, offer: Offer, sess: Session, order: seq<uint32>, nonces: seq<Nonce>)
    : (ps: seq<Packet>)
    requires |nonces| == |order|
    ensures |ps| == |order|
    decreases |order|
  {
    if order == [] then []
    else
      var n := |order| - 1;
      Sent(c, file, offer, sess, order[..n], nonces[..n])
      + [ChunkPacket(c, offer, sess, order[n], ChunkOf(file, offer, order[n]), nonces[n])]
  }

  /** The receiver after these packets; None once one of them is refused. */
  function ReceivedAll(c: Suite, offer: Offer, sess: Session, ps: seq<Packet>): Option<Transfer>
  {
    if ps == [] then Some(Transfer(offer, [], 0))
    else
      var n := |ps| - 1;
      var t := ReceivedAll(c, offer, sess, ps[..n]);
      if t.None? || !Owned(ps[n]) then None else Received(c, t.value, ps[n], sess)
  }

  /** Chunks arriving in any order, with any repetitions: the file holds them in the order of arrival. */
  lemma {:induction false} AnyArrival(c: Suite, file: seq<byte>, offer: Offer, a: Session, b: Session,
                                      order: seq<uint32>, nonces: seq<Nonce>)
    requires Lawful(c) && a.tx == b.rx && Describes(offer, file) && |nonces| == |order|
    requires forall k :: 0 <= k < |order| ==> order[k] < offer.chunkCount
    ensures ReceivedAll(c, offer, b, Sent(c, file, offer, a, order, nonces))
            == Some(Transfer(offer, Pieces(file, offer, order), Length32(|order|)))
    decreases |order|
  {
    hide ChunkOf, Received, Lawful, Describes, Length32, ChunkPacket, ReceivedAll, Sent, Pieces;
    if order == [] {
      NothingSent(c, file, offer, a, b, order, nonces);
    } else {
      var n := |order| - 1;
      var before, data := order[..n], ChunkOf(file, offer, order[n]);
      AnyArrival(c, file, offer, a, b, before, nonces[..n]);
      ChunkFits(file, offer, order[n]);
      ReceiveOne(c, Transfer(offer, Pieces(file, offer, before), Length32(n)), offer, a, b, order[n], data, nonces[n]);
      NextCount(n);
      OneMoreSent(c, file, offer, a, order, nonces);
      OneMoreReceived(c, offer, b, Sent(c, file, offer, a, before, nonces[..n]),
                      ChunkPacket(c, offer, a, order[n], data, nonces[n]));
    }
  }

  lemma NothingSent(c: Suite, file: seq<byte>, offer: Offer, a: Session, b: Session,
                    order: seq<uint32>, nonces: seq<Nonce>)
    requires |nonces| == |order| == 0
    ensures ReceivedAll(c, offer, b, Sent(c, file, offer, a, order, nonces))
            == Some(Transfer(offer, Pieces(file, offer, order), Length32(0)))
  {
  }

  lemma OneMoreSent(c: Suite, file: seq<byte>, offer: Offer, sess: Session, order: seq<uint32>, nonces: seq<Nonce>)
    requires |nonces| == |order| > 0
    ensures var n := |order| - 1;
            var data := ChunkOf(file, offer, order[n]);
            && Sent(c, file, offer, sess, order, nonces)
               == Sent(c, file, offer, sess, order[..n], nonces[..n])
                  + [ChunkPacket(c, offer, sess, order[n], data, nonces[n])]
            && Pieces(file, offer, order) == Pieces(file, offer, order[..n]) + data
  {
    hide ChunkOf, ChunkPacket;
  }

  lemma ChunkFits(file: seq<byte>, offer: Offer, i: uint32)
    requires Describes(offer, file) && i < offer.chunkCount
    ensures 0 < |ChunkOf(file, offer, i)| <= CHUNK_SIZE
  {
    hide ChunkOf, Describes;
    ChunkIs(file, offer, i);
  }

  lemma OneMoreReceived(c: Suite, offer: Offer, sess: Session, ps: seq<Packet>, p: Packet)
    requires Owned(p)
    ensures var t := ReceivedAll(c, offer, sess, ps);
            ReceivedAll(c, offer, sess, ps + [p]) == if t.None? then None else Received(c, t.value, p, sess)
  {
    hide Received;
    assert (ps + [p])[..|ps|] == ps;
  }

  lemma NextCount(n: nat)
    ensures Length32(Length32(n) + 1) == Length32(n + 1)
  {
  }

  /**
   For every file up to 512 MiB: its chunks received in order rebuild it byte for byte, as many
   as the offer counts, and the hash is accepted.
   */
  lemma TransferCompletes(c: Suite, sha: seq<byte> -> Hash, file: seq<byte>, recipient: Key,
                          a: Session, b: Session, nonces: seq<Nonce>)
    requires Lawful(c) && a.tx == b.rx && |file| <= MAX_FILE
    requires |nonces| == OfferFor(sha, file, recipient).value.chunkCount
    ensures var offer := OfferFor(sha, file, recipient).value;
            Describes(offer, file) &&
            var t := ReceivedAll(c, offer, b, Sent(c, file, offer, a, Upto(offer.chunkCount), nonces));
            && t == Some(Transfer(offer, file, offer.chunkCount))
            && Accepted(sha, t.value)
  {
    hide ReceivedAll, Sent, Pieces, Beginning, Lawful;
    var offer := OfferFor(sha, file, recipient).value;
    OfferDescribes(sha, file, recipient);
    AnyArrival(c, file, offer, a, b, Upto(offer.chunkCount), nonces);
    PiecesInOrder(file, offer, offer.chunkCount);
    NothingLeft(file, offer);
  }

  // ---------------------------------------------------------------- out of order

  /** As many arrivals as the offer counts, each of the size that belongs in its place. */
  ghost predicate SizesFit(file: seq<byte>, offer: Offer, order: seq<uint32>)
  {
    && |order| == offer.chunkCount
    && forall k {:trigger order[k]} :: 0 <= k < |order| ==>
         order[k] < offer.chunkCount && |ChunkOf(file, offer, order[k])| == |ChunkOf(file, offer, k)|
  }

  /** Every place among the first `m` gets bytes equal to its own chunk. */
  ghost predicate RightBytes(file: seq<byte>, offer: Offer, order: seq<uint32>, m: nat)
    requires m <= |order|
  {
    forall k {:trigger order[k]} :: 0 <= k < m ==>
      k < UINT32 && ChunkOf(file, offer, order[k]) == ChunkOf(file, offer, k)
  }

  lemma ChunkSize(file: seq<byte>, offer: Offer, i: uint32)
    requires Describes(offer, file) && i < offer.chunkCount - 1
    ensures |ChunkOf(file, offer, i)| == 65536
  {
    ChunkCount(|file|);
  }

  /** An order that keeps the last chunk last, and repeats it nowhere else, fits. */
  lemma LastKeptFits(file: seq<byte>, offer: Offer, order: seq<uint32>)
    requires Describes(offer, file) && |order| == offer.chunkCount > 0 && order[|order| - 1] == offer.chunkCount - 1
    requires forall k :: 0 <= k < |order| - 1 ==> order[k] < offer.chunkCount - 1
    ensures SizesFit(file, offer, order)
  {
    hide ChunkOf, Describes;
    forall k | 0 <= k < |order| ensures |ChunkOf(file, offer, order[k])| == |ChunkOf(file, offer, k)| {
      if k < |order| - 1 {
        ChunkSize(file, offer, order[k]);
        ChunkSize(file, offer, k);
      }
    }
  }

  lemma SameConcat(a: seq<byte>, b: seq<byte>, x: seq<byte>, y: seq<byte>)
    requires |a| == |x| && |b| == |y|
    ensures a + b == x + y <==> a == x && b == y
  {
    assert (a + b)[..|a|] == a && (a + b)[|a|..] == b;
    assert (x + y)[..|x|] == x && (x + y)[|x|..] == y;
  }

  lemma {:induction false} PlaceByPlace(file: seq<byte>, offer: Offer, order: seq<uint32>, m: uint32)
    requires Describes(offer, file) && SizesFit(file, offer, order) && m <= |order|
    ensures |Pieces(file, offer, order[..m])| == |Beginning(file, m)|
    ensures Pieces(file, offer, order[..m]) == Beginning(file, m)
            <==> RightBytes(file, offer, order, m)
  {
    hide Describes, Beginning, ChunkOf, Pieces;
    if m == 0 {
      NoPlace(file, offer, order);
    } else {
      var n := m - 1;
      PlaceByPlace(file, offer, order, n);
      PiecesStep(file, offer, order, n);
      NextPlace(file, offer, n);
      SameConcat(Pieces(file, offer, order[..n]), ChunkOf(file, offer, order[n]),
                 Beginning(file, n), ChunkOf(file, offer, n));
    }
  }

  lemma NoPlace(file: seq<byte>, offer: Offer, order: seq<uint32>)
    ensures Pieces(file, offer, order[..0]) == Beginning(file, 0) == []
  {
  }

  lemma PiecesStep(file: seq<byte>, offer: Offer, order: seq<uint32>, n: nat)
    requires n < |order|
    ensures Pieces(file, offer, order[..n + 1]) == Pieces(file, offer, order[..n]) + ChunkOf(file, offer, order[n])
  {
    hide ChunkOf;
    assert order[..n + 1][..n] == order[..n] && order[..n + 1][n] == order[n];
  }

  lemma NextPlace(file: seq<byte>, offer: Offer, i: uint32)
    requires Describes(offer, file) && i < offer.chunkCount
    ensures Beginning(file, i + 1) == Beginning(file, i) + ChunkOf(file, offer, i)
  {
    hide ChunkOf, Describes, Beginning;
    ChunkIs(file, offer, i);
  }

  /** Where sizes fit, landing right means: every place gets bytes equal to its own chunk. */
  lemma RebuiltPieces(file: seq<byte>, offer: Offer, order: seq<uint32>)
    requires Describes(offer, file) && SizesFit(file, offer, order)
    ensures Pieces(file, offer, order) == file <==> RightBytes(file, offer, order, |order|)
  {
    hide Pieces, Beginning, ChunkOf, Describes, RightBytes;
    PlaceByPlace(file, offer, order, |order|);
    assert order[..|order|] == order;
    NothingLeft(file, offer);
  }

  /** How many bytes the chunks of `order` have together. */
  function Reach(file: seq<byte>, offer: Offer, order: seq<uint32>): nat
  {
    if order == [] then 0
    else Reach(file, offer, order[..|order| - 1]) + |ChunkOf(file, offer, order[|order| - 1])|
  }

  /** Arrival `k` is written where the file has the same bytes. */
  ghost predicate Lands(file: seq<byte>, offer: Offer, order: seq<uint32>, k: nat)
    requires k < |order|
  {
    var at, data := Reach(file, offer, order[..k]), ChunkOf(file, offer, order[k]);
    at + |data| <= |file| && file[at..at + |data|] == data
  }

  ghost predicate AllLand(file: seq<byte>, offer: Offer, order: seq<uint32>, m: nat)
    requires m <= |order|
  {
    forall k :: 0 <= k < m ==> Lands(file, offer, order, k)
  }

  lemma {:induction false} PiecesReach(file: seq<byte>, offer: Offer, order: seq<uint32>)
    ensures |Pieces(file, offer, order)| == Reach(file, offer, order)
  {
    hide ChunkOf;
    if order == [] {
    } else {
      PiecesReach(file, offer, order[..|order| - 1]);
    }
  }

  lemma PrefixGrows(p: seq<byte>, d: seq<byte>, file: seq<byte>)
    ensures p + d <= file <==> p <= file && |p| + |d| <= |file| && file[|p|..|p| + |d|] == d
  {
    if p + d <= file {
      assert file[..|p| + |d|] == p + d;
      assert file[..|p|] == file[..|p| + |d|][..|p|] == p;
      assert file[|p|..|p| + |d|] == file[..|p| + |d|][|p|..] == d;
    }
    if p <= file && |p| + |d| <= |file| && file[|p|..|p| + |d|] == d {
      assert file[..|p| + |d|] == file[..|p|] + file[|p|..|p| + |d|];
    }
  }

  lemma {:induction false} LandsInTurn(file: seq<byte>, offer: Offer, order: seq<uint32>, m: nat)
    requires m <= |order|
    ensures Pieces(file, offer, order[..m]) <= file <==> AllLand(file, offer, order, m)
  {
    hide ChunkOf, Pieces, Reach, Lands;
    if m == 0 {
      NoPlace(file, offer, order);
    } else {
      var n := m - 1;
      LandsInTurn(file, offer, order, n);
      LandsNext(file, offer, order, n);
      assert AllLand(file, offer, order, m) <==> AllLand(file, offer, order, n) && Lands(file, offer, order, n);
    }
  }

  lemma LandsNext(file: seq<byte>, offer: Offer, order: seq<uint32>, n: nat)
    requires n < |order|
    ensures Pieces(file, offer, order[..n + 1]) <= file
            <==> Pieces(file, offer, order[..n]) <= file && Lands(file, offer, order, n)
  {
    hide ChunkOf, Pieces, Reach;
    PiecesStep(file, offer, order, n);
    PiecesReach(file, offer, order[..n]);
    PrefixGrows(Pieces(file, offer, order[..n]), ChunkOf(file, offer, order[n]), file);
  }

  /** For every order: as many bytes as the file has, and each arrival on bytes equal to its own. */
  lemma LandsExactly(file: seq<byte>, offer: Offer, order: seq<uint32>)
    ensures Pieces(file, offer, order) == file
            <==> Reach(file, offer, order) == |file| && AllLand(file, offer, order, |order|)
  {
    hide ChunkOf, Pieces, Reach, Lands, AllLand;
    LandsInTurn(file, offer, order, |order|);
    PiecesReach(file, offer, order);
    assert order[..|order|] == order;
  }

  /** Only chunks that the offer counts. */
  predicate Counted(offer: Offer, order: seq<uint32>)
  {
    forall k :: 0 <= k < |order| ==> order[k] < offer.chunkCount
  }

  lemma CountedArrival(c: Suite, file: seq<byte>, offer: Offer, a: Session, b: Session,
                       order: seq<uint32>, nonces: seq<Nonce>)
    requires Lawful(c) && a.tx == b.rx && Describes(offer, file) && |nonces| == |order| && Counted(offer, order)
    ensures var t := ReceivedAll(c, offer, b, Sent(c, file, offer, a, order, nonces));
            t.Some? && t.value.written == Pieces(file, offer, order) && t.value.offer == offer
  {
    hide ReceivedAll, Sent, Pieces, Lawful, Describes;
    AnyArrival(c, file, offer, a, b, order, nonces);
  }

  /**
   The receiver ignores the chunk index.  In whatever order chunks arrive, and however often, the file is rebuilt
   exactly when they have as many bytes as it and each lands on file bytes equal to its own; a hash without a
   collision here is accepted in just those cases.
   */
  lemma RebuiltExactly(c: Suite, sha: seq<byte> -> Hash, file: seq<byte>, offer: Offer, a: Session, b: Session,
                       order: seq<uint32>, nonces: seq<Nonce>)
    requires Lawful(c) && a.tx == b.rx && |nonces| == |order|
    requires Describes(offer, file) && offer.sha256 == sha(file)
    requires Counted(offer, order)
    ensures var t := ReceivedAll(c, offer, b, Sent(c, file, offer, a, order, nonces));
            && t.Some?
            && (t.value.written == file
                <==> Reach(file, offer, order) == |file| && AllLand(file, offer, order, |order|))
            && ((sha(t.value.written) == sha(file) ==> t.value.written == file) ==>
                  (Accepted(sha, t.value) <==> t.value.written == file))
  {
    hide ReceivedAll, Sent, Pieces, Lawful, ChunkOf, Describes, Reach, AllLand, Counted;
    CountedArrival(c, file, offer, a, b, order, nonces);
    LandsExactly(file, offer, order);
  }

  function Fill(n: nat, b: byte): (s: seq<byte>)
    ensures |s| == n && forall k :: 0 <= k < n ==> s[k] == b
  {
    seq(n, _ => b)
  }

  /** Three chunks, the first two swapped: the result is not the file. */
  lemma SwappedChunks(sha: seq<byte> -> Hash, recipient: Key)
    ensures var file := Fill(CHUNK_SIZE, 0) + Fill(CHUNK_SIZE, 1) + [0];
            var offer := OfferFor(sha, file, recipient).value;
            Describes(offer, file) && SizesFit(file, offer, [1, 0, 2]) && Pieces(file, offer, [1, 0, 2]) != file
  {
    hide Fill, ChunkOf, Pieces, SizesFit, Describes;
    var file := Fill(CHUNK_SIZE, 0) + Fill(CHUNK_SIZE, 1) + [0];
    var offer := OfferFor(sha, file, recipient).value;
    var order: seq<uint32> := [1, 0, 2];
    OfferDescribes(sha, file, recipient);
    LastKeptFits(file, offer, order);
    RebuiltPieces(file, offer, order);
    ChunkStarts(file, offer, 0);
    ChunkStarts(file, offer, 1);
    assert order[0] == 1 && file[0] == 0 && file[CHUNK_SIZE] == 1;
  }

  /** Two chunks, the shorter last one first: the result is not the file. */
  lemma EarlyLast(sha: seq<byte> -> Hash, recipient: Key)
    ensures var file := Fill(CHUNK_SIZE, 0) + [1];
            var offer := OfferFor(sha, file, recipient).value;
            Describes(offer, file) && offer.chunkCount == 2 && Pieces(file, offer, [1, 0]) != file
  {
    hide Fill, ChunkOf, Pieces, Describes, Reach;
    var file := Fill(CHUNK_SIZE, 0) + [1];
    var offer := OfferFor(sha, file, recipient).value;
    var order: seq<uint32> := [1, 0];
    OfferDescribes(sha, file, recipient);
    ChunkStarts(file, offer, 1);
    LandsExactly(file, offer, order);
    NoReach(file, offer, order);
    assert file[CHUNK_SIZE] == 1 && file[0] == 0;
    assert !Lands(file, offer, order, 0);
  }

  lemma NoReach(file: seq<byte>, offer: Offer, order: seq<uint32>)
    ensures Reach(file, offer, order[..0]) == 0
  {
  }

  lemma ChunkStarts(file: seq<byte>, offer: Offer, i: uint32)
    requires Describes(offer, file) && i < offer.chunkCount
    ensures ChunkOf(file, offer, i) != [] && i * CHUNK_SIZE < |file|
    ensures ChunkOf(file, offer, i)[0] == file[i * CHUNK_SIZE]
  {
    ChunkCount(|file|);
  }

  // ---------------------------------------------------------------- the C functions

  /** koe_media_chunk_build: the packet and 1 for the last chunk, 0 for another; None is the error return. */
  method ChunkBuild(c: Suite, crc: Crc32.Table, file: seq<byte>, index: uint32, offer: Offer, sess: Session,
                    nonce: Nonce)
    returns (r: Option<(Packet, int)>)
    requires crc.Valid()
    modifies crc, crc.entries
    ensures crc.Valid()
    ensures var data := ChunkData(file, offer, index);
            r == if data.None? then None
                 else Some((ChunkPacket(c, offer, sess, index, data.value, nonce),
                            if IsLast(offer, index) then 1 else 0))
  {
    hide Crc32.Crc, Prefix, Be, ReadAt;
    var offset := index * CHUNK_SIZE;
    var remaining := (offer.fileSize - offset) % UINT64;
    var chunkBytes := if remaining < CHUNK_SIZE then remaining else CHUNK_SIZE;
    var data := ReadAt(file, offset, chunkBytes);
    if |data| != chunkBytes {
      return None;
    }
    var plain := Be(index, 4) + data;
    var ct := c.seal(plain, nonce, sess.tx);
    var last := index == (offer.chunkCount - 1) % UINT32;
    var h := Header(MAGIC, LOCAL.major, LOCAL.minor, TYPE_MEDIA_CHUNK, ChunkFlags(last),
                    Length32(4 + chunkBytes + TAG_LEN), offer.sender, offer.recipient, nonce, 0);
    var checksum := Checksum(crc, h);
    assert HeaderBytes(h)[..CHECKED] == Prefix(h);
    return Some((Packet(h.(checksum := checksum), Some(ct)), if last then 1 else 0));
  }

  /** sha256_file: the file is absorbed in pieces of at most 8 KiB; None for one that cannot be handle. */
  method HashFile(h: Hasher, ghost sha: seq<byte> -> Hash, handle: Option<seq<byte>>) returns (hash: Option<Hash>)
    requires Computes(h, sha)
    ensures hash == if handle.Some? then Some(sha(handle.value)) else None
  {
    hide Computes;
    if handle.None? {
      return None;
    }
    var file := handle.value;
    var state, off := h.init, 0;
    Absorbed(h, sha, [], []);
    while off < |file|
      invariant 0 <= off <= |file| && state == h.update(h.init, file[..off])
    {
      var n := Min(|file| - off, READ_SIZE);
      Absorbed(h, sha, file[..off], file[off..off + n]);
      state := h.update(state, file[off..off + n]);
      assert file[..off] + file[off..off + n] == file[..off + n];
      off := off + n;
    }
    assert file[..off] == file;
    HashOf(h, sha, file);
    return Some(h.finish(state));
  }

  /** koe_media_transfer_t on the receiving side. */
  class Receiver {
    const offer: Offer
    var written: seq<byte>
    var received: uint32

    function Value(): Transfer
      reads this
    {
      Transfer(offer, written, received)
    }

    constructor (offer: Offer)
      ensures Value() == Transfer(offer, [], 0)
    {
      this.offer, written, received := offer, [], 0;
    }

    /** `takes` is how many bytes the file takes; a short or failing write leaves what it took. */
    method ChunkReceive(c: Suite, p: Packet, sess: Session, takes: nat) returns (rc: int)
      requires Owned(p)
      modifies this`written, this`received
      ensures var t := Received(c, old(Value()), p, sess);
              if t.None? then rc == -1 && Value() == old(Value())
              else if |t.value.written| <= |old(written)| + takes then rc == 0 && Value() == t.value
              else && rc == -1 && received == old(received)
                   && written == t.value.written[..|old(written)| + takes]
    {
      if p.payload.None? || p.header.length <= TAG_LEN {
        return -1;
      }
      var plain := c.unseal(p.payload.value[..p.header.length], p.header.nonce, sess.rx);
      if plain.None? {
        return -1;
      }
      if |plain.value| < 4 {
        return -1;
      }
      var data := plain.value[4..];
      var wrote := Min(takes, |data|);
      written := written + data[..wrote];
      if wrote != |data| {
        assert written == (old(written) + data)[..|old(written)| + takes];
        return -1;
      }
      assert data[..wrote] == data;
      received := Length32(received + 1);
      return 0;
    }

    /** `sha` is the hash that `h` computes; `opens` says whether the file can be opened again. */
    method Finalise(h: Hasher, ghost sha: seq<byte> -> Hash, opens: bool) returns (rc: int)
      requires Computes(h, sha)
      ensures rc == if opens && Accepted(sha, Value()) then 0 else -1
    {
      var actual := HashFile(h, sha, if opens then Some(written) else None);
      rc := if actual == Some(offer.sha256) then 0 else -1;
    }
  }
}
