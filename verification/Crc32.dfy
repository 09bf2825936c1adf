/**
 The checksum of src/koe_packet.c: the reflected CRC-32 of ISO 3309.  The reference feeds the
 message to the register one bit at a time; the implementation goes a byte at a time through a
 table that is filled on first use.
 */
module Crc32 {
  import opened Bytes

  const POLY: bv32 := 0xEDB88320

  const ONES: bv32 := 0xFFFFFFFF

  // The word operations carry names so that the inductions below can hide their bits.

  function Xor(x: bv32, y: bv32): bv32 { x ^ y }

  function Half(x: bv32): bv32 { x >> 1 }

  predicate Odd(x: bv32) { x & 1 == 1 }

  function Feedback(b: bool): bv32 { if b then POLY else 0 }

  predicate Small(x: bv32) { x < 0x80000000 }

  function Push(bit: bool, rest: bv32): bv32 { (rest << 1) | (if bit then 1 else 0) }

  function Low8(x: bv32): bv32 { x & 0xFF }

  function Shr8(x: bv32): bv32 { x >> 8 }

  function Word(b: byte): bv32 { b as bv32 }

  // ---------------------------------------------------------------- the reference, bit by bit

  /** The register moves down one place; the bit leaving it, xor the message bit, is fed back. */
  function FeedBit(c: bv32, bit: bool): bv32
  {
    Xor(Half(c), Feedback(Odd(c) != bit))
  }

  function FeedBits(c: bv32, bits: seq<bool>): bv32
    decreases |bits|
  {
    if bits == [] then c else FeedBits(FeedBit(c, bits[0]), bits[1..])
  }

  /** The low `n` bits of a word, lowest first. */
  function Unpack(w: bv32, n: nat): (bits: seq<bool>)
    ensures |bits| == n
    decreases n
  {
    if n == 0 then [] else [Odd(w)] + Unpack(Half(w), n - 1)
  }

  /** The bits of a byte in transmission order, least significant first. */
  function Bits(b: byte): (bits: seq<bool>)
    ensures |bits| == 8
  {
    Unpack(Word(b), 8)
  }

  function BitsOf(s: seq<byte>): (bits: seq<bool>)
    ensures |bits| == 8 * |s|
  {
    if s == [] then [] else Bits(s[0]) + BitsOf(s[1..])
  }

  function Crc(s: seq<byte>): bv32
  {
    Xor(FeedBits(ONES, BitsOf(s)), ONES)
  }

  // ---------------------------------------------------------------- one step of the register

  function Shift(c: bv32): bv32
  {
    Xor(Half(c), Feedback(Odd(c)))
  }

  function Shifts(c: bv32, n: nat): bv32
    decreases n
  {
    if n == 0 then c else Shifts(Shift(c), n - 1)
  }

  function Halves(x: bv32, n: nat): bv32
    decreases n
  {
    if n == 0 then x else Halves(Half(x), n - 1)
  }

  lemma OddXor(x: bv32, y: bv32)
    ensures Odd(Xor(x, y)) == (Odd(x) != Odd(y))
  {
  }

  lemma HalfXor(x: bv32, y: bv32)
    ensures Half(Xor(x, y)) == Xor(Half(x), Half(y))
  {
  }

  lemma XorAssoc(a: bv32, b: bv32, c: bv32)
    ensures Xor(Xor(a, b), c) == Xor(a, Xor(b, c))
  {
  }

  lemma XorCommutes(a: bv32, b: bv32)
    ensures Xor(a, b) == Xor(b, a)
  {
  }

  lemma XorSwap(a: bv32, b: bv32, c: bv32)
    ensures Xor(Xor(a, b), c) == Xor(Xor(a, c), b)
  {
    hide Xor;
    XorAssoc(a, b, c);
    XorCommutes(b, c);
    XorAssoc(a, c, b);
  }

  lemma XorZero(c: bv32)
    ensures Xor(c, 0) == c
  {
  }

  lemma XorCancel(x: bv32, y: bv32, c: bv32)
    requires Xor(x, c) == Xor(y, c) || Xor(c, x) == Xor(c, y)
    ensures x == y
  {
  }

  /** The polynomial has its top bit set, so the bit shifted out can be recovered. */
  lemma FeedbackVisible(x: bv32, b: bool)
    ensures Small(Xor(Half(x), Feedback(b))) <==> !b
  {
  }

  lemma HalfOdd(x: bv32, y: bv32)
    requires Half(x) == Half(y) && Odd(x) == Odd(y)
    ensures x == y
  {
  }

  lemma FeedBitInjective(c: bv32, d: bv32, bit: bool)
    requires FeedBit(c, bit) == FeedBit(d, bit)
    ensures c == d
  {
    hide Odd, Feedback, Xor, Half, Small;
    FeedbackVisible(c, Odd(c) != bit);
    FeedbackVisible(d, Odd(d) != bit);
    XorCancel(Half(c), Half(d), Feedback(Odd(c) != bit));
    HalfOdd(c, d);
  }

  lemma {:induction false} ShiftsInjective(x: bv32, y: bv32, n: nat)
    requires Shifts(x, n) == Shifts(y, n)
    ensures x == y
    decreases n
  {
    hide Odd, Feedback, Xor, Half;
    if n == 0 {
    } else {
      ShiftsInjective(Shift(x), Shift(y), n - 1);
      FeedBitInjective(x, y, false);
    }
  }

  // ---------------------------------------------------------------- a word of bits as one linear map

  /** Shifting the register xor a word is feeding the bits of the word; what is not yet fed stays. */
  lemma {:induction false} ShiftsFeed(c: bv32, w: bv32, n: nat)
    ensures Shifts(Xor(c, w), n) == Xor(FeedBits(c, Unpack(w, n)), Halves(w, n))
    decreases n
  {
    hide Odd, Feedback, Xor, Half;
    if n == 0 {
    } else {
      OddXor(c, w);
      HalfXor(c, w);
      XorSwap(Half(c), Half(w), Feedback(Odd(c) != Odd(w)));
      ShiftsFeed(FeedBit(c, Odd(w)), Half(w), n - 1);
      assert Unpack(w, n)[1..] == Unpack(Half(w), n - 1);
    }
  }

  lemma {:induction false} HalvesSplit(x: bv32, m: nat, n: nat)
    ensures Halves(x, m + n) == Halves(Halves(x, m), n)
    decreases m
  {
    hide Half;
    if m == 0 {
    } else {
      HalvesSplit(Half(x), m - 1, n);
    }
  }

  lemma {:induction false} HalvesZero(n: nat)
    ensures Halves(0, n) == 0
  {
    if n == 0 {
    } else {
      HalvesZero(n - 1);
    }
  }

  lemma HalfEight(x: bv32)
    ensures Half(Half(Half(Half(Half(Half(Half(Half(x)))))))) == Shr8(x)
  {
  }

  lemma HalvesStep(x: bv32, n: nat)
    ensures Halves(x, n + 1) == Halves(Half(x), n)
    ensures Halves(x, 0) == x
  {
  }

  lemma HalvesEight(x: bv32)
    ensures Halves(x, 8) == Shr8(x)
  {
    hide Half, Halves, Shr8;
    var x2 := Half(Half(x));
    var x4 := Half(Half(x2));
    var x6 := Half(Half(x4));
    HalvesStep(x, 7);
    HalvesStep(Half(x), 6);
    HalvesStep(x2, 5);
    HalvesStep(Half(x2), 4);
    HalvesStep(x4, 3);
    HalvesStep(Half(x4), 2);
    HalvesStep(x6, 1);
    HalvesStep(Half(x6), 0);
    HalvesStep(Half(Half(x6)), 0);
    HalfEight(x);
  }

  lemma HalvesSeven(x: bv32)
    ensures Halves(x, 7) == Half(Half(Half(Half(Half(Half(Half(x)))))))
  {
    hide Half, Halves;
    var x3 := Half(Half(Half(x)));
    HalvesStep(x, 6);
    HalvesStep(Half(x), 5);
    HalvesStep(Half(Half(x)), 4);
    HalvesStep(x3, 3);
    HalvesStep(Half(x3), 2);
    HalvesStep(Half(Half(x3)), 1);
    HalvesStep(Half(Half(Half(x3))), 0);
    HalvesStep(Half(Half(Half(Half(x3)))), 0);
  }

  lemma SevenBits(x: bv32)
    requires var y := Shr8(Shr8(Shr8(x))); Half(Half(Half(Half(Half(Half(Half(y))))))) == 0
    ensures Small(x)
  {
  }

  /** A word of which `n` bits leave nothing has no bit above them. */
  lemma SmallWhenConsumed(x: bv32, n: nat)
    requires n <= 31 && Halves(x, n) == 0
    ensures Small(x)
  {
    hide Halves, Half, Shr8, Small;
    HalvesSplit(x, n, 31 - n);
    HalvesZero(31 - n);
    HalvesSplit(x, 24, 7);
    HalvesSplit(x, 8, 16);
    HalvesSplit(Halves(x, 8), 8, 8);
    HalvesEight(x);
    HalvesEight(Shr8(x));
    HalvesEight(Shr8(Shr8(x)));
    var y := Shr8(Shr8(Shr8(x)));
    HalvesSeven(y);
    SevenBits(x);
  }

  lemma PushParts(bit: bool, rest: bv32)
    requires Small(rest)
    ensures Half(Push(bit, rest)) == rest
    ensures Odd(Push(bit, rest)) == bit
  {
  }

  /** Any 32 bits fit in a word. */
  lemma {:induction false} Pack(bits: seq<bool>) returns (w: bv32)
    requires |bits| <= 32
    ensures Unpack(w, |bits|) == bits && Halves(w, |bits|) == 0
  {
    hide Half, Odd, Small, Push;
    if bits == [] {
      w := 0;
    } else {
      var rest := Pack(bits[1..]);
      SmallWhenConsumed(rest, |bits| - 1);
      w := Push(bits[0], rest);
      PushParts(bits[0], rest);
      assert bits == [bits[0]] + bits[1..];
    }
  }

  // ---------------------------------------------------------------- composition and burst detection

  lemma {:induction false} FeedBitsConcat(c: bv32, x: seq<bool>, y: seq<bool>)
    ensures FeedBits(c, x + y) == FeedBits(FeedBits(c, x), y)
    decreases |x|
  {
    hide FeedBit;
    if x == [] {
      assert x + y == y;
    } else {
      FeedBitsConcat(FeedBit(c, x[0]), x[1..], y);
      assert (x + y)[1..] == x[1..] + y;
    }
  }

  lemma SeqAssoc(a: seq<bool>, b: seq<bool>, c: seq<bool>)
    ensures (a + b) + c == a + (b + c)
  {
  }

  lemma {:induction false} BitsOfConcat(x: seq<byte>, y: seq<byte>)
    ensures BitsOf(x + y) == BitsOf(x) + BitsOf(y)
  {
    hide Bits;
    if x == [] {
      assert x + y == y;
    } else {
      BitsOfConcat(x[1..], y);
      assert (x + y)[1..] == x[1..] + y;
      SeqAssoc(Bits(x[0]), BitsOf(x[1..]), BitsOf(y));
    }
  }

  lemma XorTwice(x: bv32)
    ensures Xor(Xor(x, ONES), ONES) == x
  {
  }

  /** The CRC of a concatenation continues from the CRC of its first part. */
  lemma CrcConcat(x: seq<byte>, y: seq<byte>)
    ensures Crc(x + y) == Xor(FeedBits(Xor(Crc(x), ONES), BitsOf(y)), ONES)
  {
    hide Xor, FeedBits, BitsOf;
    BitsOfConcat(x, y);
    FeedBitsConcat(ONES, BitsOf(x), BitsOf(y));
    XorTwice(FeedBits(ONES, BitsOf(x)));
  }

  lemma {:induction false} FeedBitsInjective(c: bv32, d: bv32, bits: seq<bool>)
    requires FeedBits(c, bits) == FeedBits(d, bits)
    ensures c == d
    decreases |bits|
  {
    hide FeedBit;
    if bits == [] {
    } else {
      FeedBitsInjective(FeedBit(c, bits[0]), FeedBit(d, bits[0]), bits[1..]);
      FeedBitInjective(c, d, bits[0]);
    }
  }

  lemma SmallFeedback(r: bv32)
    ensures Small(Xor(r, Feedback(!Small(r))))
  {
  }

  lemma XorBack(x: bv32, y: bv32)
    ensures Xor(Xor(x, y), y) == x && Xor(y, Xor(y, x)) == x
  {
  }

  lemma FeedBitOnto(r: bv32, bit: bool) returns (c: bv32)
    ensures FeedBit(c, bit) == r
  {
    hide Odd, Feedback, Xor, Half, Small, Push;
    var fed := !Small(r);
    var half := Xor(r, Feedback(fed));
    SmallFeedback(r);
    c := Push(fed != bit, half);
    PushParts(fed != bit, half);
    XorBack(r, Feedback(fed));
  }

  /** For a fixed message the register map is a bijection: every final state has exactly one initial state. */
  lemma {:induction false} FeedBitsBijective(r: bv32, bits: seq<bool>) returns (c: bv32)
    ensures FeedBits(c, bits) == r
    ensures forall d :: FeedBits(d, bits) == r ==> d == c
    decreases |bits|
  {
    hide FeedBit;
    if bits == [] {
      c := r;
    } else {
      var next := FeedBitsBijective(r, bits[1..]);
      c := FeedBitOnto(next, bits[0]);
    }
    forall d | FeedBits(d, bits) == r ensures d == c {
      FeedBitsInjective(d, c, bits);
    }
  }

  lemma BitWindow(c: bv32, w: seq<bool>, w': seq<bool>)
    requires |w| == |w'| <= 32 && FeedBits(c, w) == FeedBits(c, w')
    ensures w == w'
  {
    hide Xor, FeedBits, Shifts, Halves, Unpack;
    var x := Pack(w);
    var y := Pack(w');
    ShiftsFeed(c, x, |w|);
    ShiftsFeed(c, y, |w|);
    ShiftsInjective(Xor(c, x), Xor(c, y), |w|);
    XorCancel(x, y, c);
  }

  /** Two bit strings that differ only inside 32 consecutive bits leave different registers. */
  lemma BurstInBits(c: bv32, p: seq<bool>, w: seq<bool>, w': seq<bool>, s: seq<bool>)
    requires |w| == |w'| <= 32 && FeedBits(c, p + w + s) == FeedBits(c, p + w' + s)
    ensures w == w'
  {
    hide FeedBits;
    var r := FeedBits(c, p);
    FeedBitsConcat(c, p + w, s);
    FeedBitsConcat(c, p, w);
    FeedBitsConcat(c, p + w', s);
    FeedBitsConcat(c, p, w');
    FeedBitsInjective(FeedBits(r, w), FeedBits(r, w'), s);
    BitWindow(r, w, w');
  }

  /** `x` and `y` agree in every bit outside the `n` bits that start at bit `at`. */
  ghost predicate DifferWithin(x: seq<byte>, y: seq<byte>, at: nat, n: nat)
  {
    && |x| == |y|
    && forall i :: 0 <= i < 8 * |x| && !(at <= i < at + n) ==> BitsOf(x)[i] == BitsOf(y)[i]
  }

  /** Every burst error of at most 32 bits changes the CRC, wherever it falls in the message. */
  lemma BurstDetected(x: seq<byte>, y: seq<byte>, at: nat)
    requires x != y && DifferWithin(x, y, at, 32)
    ensures Crc(x) != Crc(y)
  {
    hide Xor, FeedBits, BitsOf;
    var xs, ys := BitsOf(x), BitsOf(y);
    var i := if at <= |xs| then at else |xs|;
    var j := if at + 32 <= |xs| then at + 32 else |xs|;
    assert xs == xs[..i] + xs[i..j] + xs[j..];
    assert ys == xs[..i] + ys[i..j] + xs[j..];
    if Crc(x) == Crc(y) {
      XorCancel(FeedBits(ONES, xs), FeedBits(ONES, ys), ONES);
      BurstInBits(ONES, xs[..i], xs[i..j], ys[i..j], xs[j..]);
      BitsOfInjective(x, y);
    }
  }

  lemma {:induction false} UnpackInjective(x: bv32, y: bv32, n: nat)
    requires Unpack(x, n) == Unpack(y, n) && Halves(x, n) == Halves(y, n)
    ensures x == y
    decreases n
  {
    hide Odd, Half;
    if n == 0 {
    } else {
      assert Unpack(x, n)[0] == Unpack(y, n)[0];
      assert Unpack(x, n)[1..] == Unpack(Half(x), n - 1);
      assert Unpack(y, n)[1..] == Unpack(Half(y), n - 1);
      UnpackInjective(Half(x), Half(y), n - 1);
      HalfOdd(x, y);
    }
  }

  lemma WordByte(b: byte)
    ensures Shr8(Word(b)) == 0 && Low8(Word(b)) == Word(b)
  {
  }

  lemma WordInjective(a: byte, b: byte)
    requires Word(a) == Word(b)
    ensures a == b
  {
  }

  lemma BitsInjective(a: byte, b: byte)
    requires Bits(a) == Bits(b)
    ensures a == b
  {
    hide Unpack, Halves, Shr8, Low8, Word;
    HalvesEight(Word(a));
    HalvesEight(Word(b));
    WordByte(a);
    WordByte(b);
    UnpackInjective(Word(a), Word(b), 8);
    WordInjective(a, b);
  }

  lemma {:induction false} BitsOfInjective(x: seq<byte>, y: seq<byte>)
    requires |x| == |y| && BitsOf(x) == BitsOf(y)
    ensures x == y
  {
    hide Bits;
    if x == [] {
    } else {
      assert BitsOf(x)[..8] == Bits(x[0]) && BitsOf(x)[8..] == BitsOf(x[1..]);
      assert BitsOf(y)[..8] == Bits(y[0]) && BitsOf(y)[8..] == BitsOf(y[1..]);
      BitsInjective(x[0], y[0]);
      BitsOfInjective(x[1..], y[1..]);
      assert x == [x[0]] + x[1..];
      assert y == [y[0]] + y[1..];
    }
  }

  lemma {:induction false} BitOfByte(s: seq<byte>, k: nat, j: nat)
    requires k < |s| && j < 8
    ensures BitsOf(s)[8 * k + j] == Bits(s[k])[j]
  {
    hide Bits;
    if k == 0 {
    } else {
      BitOfByte(s[1..], k - 1, j);
      assert BitsOf(s)[8 * k + j] == BitsOf(s[1..])[8 * (k - 1) + j];
    }
  }

  /** A change of `n` adjacent bytes is a burst of 8n bits. */
  lemma BytesWithin(x: seq<byte>, y: seq<byte>, i: nat, n: nat)
    requires |x| == |y|
    requires forall k :: 0 <= k < |x| && !(i <= k < i + n) ==> x[k] == y[k]
    ensures DifferWithin(x, y, 8 * i, 8 * n)
  {
    hide Bits, BitsOf;
    forall b | 0 <= b < 8 * |x| && !(8 * i <= b < 8 * i + 8 * n)
      ensures BitsOf(x)[b] == BitsOf(y)[b]
    {
      var k, j := b / 8, b % 8;
      assert b == 8 * k + j;
      BitOfByte(x, k, j);
      BitOfByte(y, k, j);
    }
  }

  // ---------------------------------------------------------------- the table

  /** The low `n` bits are zero. */
  predicate LowClear(w: bv32, n: nat)
    decreases n
  {
    n == 0 || (!Odd(w) && LowClear(Half(w), n - 1))
  }

  /** Bits above the ones shifted out only move down. */
  lemma {:induction false} ShiftsAbove(c: bv32, w: bv32, n: nat)
    requires LowClear(w, n)
    ensures Shifts(Xor(c, w), n) == Xor(Shifts(c, n), Halves(w, n))
    decreases n
  {
    hide Odd, Feedback, Xor, Half;
    if n == 0 {
    } else {
      OddXor(c, w);
      HalfXor(c, w);
      XorSwap(Half(c), Half(w), Feedback(Odd(c)));
      ShiftsAbove(Shift(c), Half(w), n - 1);
    }
  }

  /** A word without its low byte. */
  function High24(x: bv32): bv32 { x & 0xFFFFFF00 }

  lemma High24Chain(x: bv32)
    ensures var y := High24(x);
            && !Odd(y) && !Odd(Half(y)) && !Odd(Half(Half(y))) && !Odd(Half(Half(Half(y))))
            && !Odd(Half(Half(Half(Half(y))))) && !Odd(Half(Half(Half(Half(Half(y))))))
            && !Odd(Half(Half(Half(Half(Half(Half(y)))))))
            && !Odd(Half(Half(Half(Half(Half(Half(Half(y))))))))
  {
  }

  lemma High24Clear(x: bv32)
    ensures LowClear(High24(x), 8)
  {
    hide Odd, Half, High24;
    High24Chain(x);
    var y2 := Half(Half(High24(x)));
    var y4 := Half(Half(y2));
    var y6 := Half(Half(y4));
    assert LowClear(y6, 2);
    assert LowClear(y4, 4);
    assert LowClear(y2, 6);
  }

  lemma SplitLowByte(x: bv32)
    ensures Xor(Low8(x), High24(x)) == x && Shr8(High24(x)) == Shr8(x)
  {
  }

  lemma ByteAbove(c: bv32, b: byte)
    ensures Shr8(Xor(c, Word(b))) == Shr8(c)
  {
  }

  /** One table look-up does the work of feeding eight bits. */
  lemma TableStep(c: bv32, b: byte)
    ensures FeedBits(c, Bits(b)) == Xor(Shifts(Low8(Xor(c, Word(b))), 8), Shr8(c))
  {
    hide Xor, Shifts, FeedBits, Unpack, Halves, LowClear, Word, Shr8, Low8, High24;
    var x := Xor(c, Word(b));
    ShiftsFeed(c, Word(b), 8);
    HalvesEight(Word(b));
    WordByte(b);
    XorZero(FeedBits(c, Bits(b)));
    SplitLowByte(x);
    High24Clear(x);
    ShiftsAbove(Low8(x), High24(x), 8);
    HalvesEight(High24(x));
    ByteAbove(c, b);
  }

  /** The low byte of a word, the index into the table. */
  function ByteOf(x: bv32): byte { (x & 0xFF) as bv8 }

  lemma WordOfByte(x: bv32)
    ensures Word(ByteOf(x)) == Low8(x)
  {
  }

  lemma XorName(x: bv32, y: bv32)
    ensures Xor(x, y) == x ^ y
  {
  }

  lemma HalfName(x: bv32)
    ensures Half(x) == x >> 1
  {
  }

  lemma OddName(x: bv32)
    ensures Odd(x) <==> x & 1 == 1
  {
  }

  lemma ShiftAsWritten(c: bv32)
    ensures Shift(c) == if c & 1 == 1 then POLY ^ (c >> 1) else c >> 1
  {
    hide Xor, Half, Odd;
    OddName(c);
    HalfName(c);
    XorName(POLY, Half(c));
    XorCommutes(POLY, Half(c));
    XorZero(Half(c));
  }

  // ---------------------------------------------------------------- reaching every checksum

  lemma {:induction false} ShiftsOnto(r: bv32, n: nat) returns (x: bv32)
    ensures Shifts(x, n) == r
    decreases n
  {
    hide Odd, Feedback, Xor, Half;
    if n == 0 {
      x := r;
    } else {
      var next := ShiftsOnto(r, n - 1);
      x := FeedBitOnto(next, false);
    }
  }

  lemma {:induction false} UnpackSplit(w: bv32, m: nat, n: nat)
    ensures Unpack(w, m + n) == Unpack(w, m) + Unpack(Halves(w, m), n)
    decreases m
  {
    hide Odd, Half;
    if m == 0 {
    } else {
      UnpackSplit(Half(w), m - 1, n);
      SeqAssoc([Odd(w)], Unpack(Half(w), m - 1), Unpack(Halves(w, m), n));
    }
  }

  lemma {:induction false} UnpackAbove(c: bv32, w: bv32, n: nat)
    requires LowClear(w, n)
    ensures Unpack(Xor(c, w), n) == Unpack(c, n)
    decreases n
  {
    hide Odd, Xor, Half;
    if n == 0 {
    } else {
      OddXor(c, w);
      HalfXor(c, w);
      UnpackAbove(Half(c), Half(w), n - 1);
    }
  }

  lemma UnpackByte(w: bv32)
    ensures Unpack(w, 8) == Bits(ByteOf(w))
  {
    hide Unpack, Xor, Low8, High24, LowClear, Word, ByteOf;
    WordOfByte(w);
    SplitLowByte(w);
    High24Clear(w);
    UnpackAbove(Low8(w), High24(w), 8);
  }

  lemma FourShifts(w: bv32)
    ensures Shr8(Shr8(Shr8(Shr8(w)))) == 0
  {
  }

  lemma {:induction false} BitsOfOne(b: byte)
    ensures BitsOf([b]) == Bits(b)
  {
    hide Bits;
    assert BitsOf([b]) == Bits(b) + BitsOf([]);
  }

  /** The four bytes of a word, lowest first. */
  function WordBytes(w: bv32): (s: seq<byte>)
    ensures |s| == 4
  {
    [ByteOf(w)] + ([ByteOf(Shr8(w))] + ([ByteOf(Shr8(Shr8(w)))] + [ByteOf(Shr8(Shr8(Shr8(w))))]))
  }

  /** A word is the bits of its four bytes. */
  lemma UnpackWord(w: bv32)
    ensures Unpack(w, 32) == BitsOf(WordBytes(w)) && Halves(w, 32) == 0
  {
    hide Unpack, Halves, Bits, BitsOf, ByteOf, Shr8;
    var w1 := Shr8(w);
    var w2 := Shr8(w1);
    var w3 := Shr8(w2);
    HalvesEight(w);
    HalvesEight(w1);
    HalvesEight(w2);
    HalvesEight(w3);
    FourShifts(w);
    HalvesSplit(w, 8, 24);
    HalvesSplit(w1, 8, 16);
    HalvesSplit(w2, 8, 8);
    UnpackSplit(w, 8, 24);
    UnpackSplit(w1, 8, 16);
    UnpackSplit(w2, 8, 8);
    BytesOfWord(w, w1, w2, w3);
  }

  lemma BytesOfWord(w: bv32, w1: bv32, w2: bv32, w3: bv32)
    ensures BitsOf([ByteOf(w)] + ([ByteOf(w1)] + ([ByteOf(w2)] + [ByteOf(w3)])))
            == Unpack(w, 8) + (Unpack(w1, 8) + (Unpack(w2, 8) + Unpack(w3, 8)))
  {
    hide Unpack, Bits, BitsOf, ByteOf;
    BitsOfConcat([ByteOf(w)], [ByteOf(w1)] + ([ByteOf(w2)] + [ByteOf(w3)]));
    BitsOfConcat([ByteOf(w1)], [ByteOf(w2)] + [ByteOf(w3)]);
    BitsOfConcat([ByteOf(w2)], [ByteOf(w3)]);
    BitsOfOne(ByteOf(w));
    BitsOfOne(ByteOf(w1));
    BitsOfOne(ByteOf(w2));
    BitsOfOne(ByteOf(w3));
    UnpackByte(w);
    UnpackByte(w1);
    UnpackByte(w2);
    UnpackByte(w3);
  }

  lemma FourBytesReach(c: bv32, r: bv32) returns (s: seq<byte>)
    ensures |s| == 4 && FeedBits(c, BitsOf(s)) == r
  {
    hide Xor, FeedBits, Shifts, Unpack, Halves, BitsOf;
    var x := ShiftsOnto(r, 32);
    var w := Xor(c, x);
    XorBack(x, c);
    ShiftsFeed(c, w, 32);
    UnpackWord(w);
    s := WordBytes(w);
    XorZero(FeedBits(c, BitsOf(s)));
  }

  /** Whatever comes before, exactly one choice of four last bytes gives a message any wanted CRC. */
  lemma OneEnding(start: seq<byte>, crc: bv32) returns (s: seq<byte>)
    ensures |s| == 4 && Crc(start + s) == crc
    ensures forall t: seq<byte> :: |t| == 4 && Crc(start + t) == crc ==> t == s
  {
    hide Xor, FeedBits, BitsOf, Crc;
    s := FourBytesReach(Xor(Crc(start), ONES), Xor(crc, ONES));
    CrcConcat(start, s);
    XorBack(crc, ONES);
    forall t: seq<byte> | |t| == 4 && Crc(start + t) == crc ensures t == s {
      if t != s {
        EndingsDiffer(start, s, t);
      }
    }
  }

  lemma EndingsDiffer(start: seq<byte>, s: seq<byte>, t: seq<byte>)
    requires |s| == |t| == 4 && s != t
    ensures Crc(start + s) != Crc(start + t)
  {
    hide Crc, DifferWithin;
    assert (start + s)[|start|..] == s && (start + t)[|start|..] == t;
    BytesWithin(start + s, start + t, |start|, 4);
    BurstDetected(start + s, start + t, 8 * |start|);
  }

  lemma ExtendPrefix(c: bv32, s: seq<byte>, i: nat)
    requires i < |s|
    ensures FeedBits(c, BitsOf(s[..i + 1])) == FeedBits(FeedBits(c, BitsOf(s[..i])), Bits(s[i]))
  {
    hide FeedBits, Bits;
    assert s[..i + 1] == s[..i] + [s[i]];
    BitsOfConcat(s[..i], [s[i]]);
    assert BitsOf([s[i]]) == Bits(s[i]) + BitsOf([]);
    assert BitsOf([s[i]]) == Bits(s[i]);
    FeedBitsConcat(c, BitsOf(s[..i]), Bits(s[i]));
  }

  // ---------------------------------------------------------------- known answers

  lemma {:induction false} ShiftsSplit(x: bv32, m: nat, n: nat)
    ensures Shifts(x, m + n) == Shifts(Shifts(x, m), n)
    decreases m
  {
    hide Shift;
    if m == 0 {
    } else {
      ShiftsSplit(Shift(x), m - 1, n);
    }
  }

  /** Eight steps of the register, written out. */
  lemma EightShifts(r: seq<bv32>)
    requires |r| == 9
    requires Shift(r[0]) == r[1] && Shift(r[1]) == r[2] && Shift(r[2]) == r[3] && Shift(r[3]) == r[4]
    requires Shift(r[4]) == r[5] && Shift(r[5]) == r[6] && Shift(r[6]) == r[7] && Shift(r[7]) == r[8]
    ensures Shifts(r[0], 8) == r[8]
  {
    hide Shift;
    assert Shifts(r[4], 4) == r[8];
    assert Shifts(r[2], 6) == r[8];
  }

  lemma OnesShifted8()
    ensures Shifts(0xFFFFFFFF, 8) == 0x2DFD1072
  {
    EightShifts([0xFFFFFFFF, 0x92477CDF, 0xA49B3D4F, 0xBFF51D87, 0xB2420DE3,
                 0xB49985D1, 0xB7F441C8, 0x5BFA20E4, 0x2DFD1072]);
  }

  lemma OnesShifted16()
    ensures Shifts(0x2DFD1072, 8) == 0xBE26ED00
  {
    EightShifts([0x2DFD1072, 0x16FE8839, 0xE6C7C73C, 0x7363E39E, 0x39B1F1CF,
                 0xF1607BC7, 0x9508BEC3, 0xA73CDC41, 0xBE26ED00]);
  }

  lemma OnesShifted24()
    ensures Shifts(0xBE26ED00, 8) == 0x00BE26ED
  {
    EightShifts([0xBE26ED00, 0x5F137680, 0x2F89BB40, 0x17C4DDA0, 0x0BE26ED0,
                 0x05F13768, 0x02F89BB4, 0x017C4DDA, 0x00BE26ED]);
  }

  lemma OnesShifted32()
    ensures Shifts(0x00BE26ED, 8) == 0xDEBB20E3
  {
    EightShifts([0x00BE26ED, 0xEDE79056, 0x76F3C82B, 0xD6C16735, 0x86D830BA,
                 0x436C185D, 0xCC0E8F0E, 0x66074787, 0xDEBB20E3]);
  }

  lemma OnesShifted()
    ensures Shifts(ONES, 32) == 0xDEBB20E3
  {
    hide Shifts;
    OnesShifted8();
    OnesShifted16();
    OnesShifted24();
    OnesShifted32();
    ShiftsSplit(ONES, 8, 24);
    ShiftsSplit(0x2DFD1072, 8, 16);
    ShiftsSplit(0xBE26ED00, 8, 8);
  }

  /** The residue of ISO 3309: every message followed by its own CRC, lowest byte first, has the same CRC. */
  lemma Residue(s: seq<byte>)
    ensures Crc(s + WordBytes(Crc(s))) == 0x2144DF1C
  {
    hide Xor, FeedBits, BitsOf, Crc, Shifts, Unpack, Halves, WordBytes;
    var crc := Crc(s);
    var c := Xor(crc, ONES);
    CrcConcat(s, WordBytes(crc));
    UnpackWord(crc);
    ShiftsFeed(c, crc, 32);
    XorCommutes(c, crc);
    XorBack(ONES, crc);
    XorZero(FeedBits(c, BitsOf(WordBytes(crc))));
    OnesShifted();
    ResidueWord();
  }

  lemma ResidueWord()
    ensures Xor(0xDEBB20E3, ONES) == 0x2144DF1C
  {
  }

  lemma ByteFed(c: bv32, b: byte, index: bv32, entry: bv32, next: bv32)
    requires Low8(Xor(c, Word(b))) == index && Shifts(index, 8) == entry && Xor(entry, Shr8(c)) == next
    ensures FeedBits(c, Bits(b)) == next
  {
    hide Xor, Low8, Word, Shr8, Shifts, FeedBits, Bits;
    TableStep(c, b);
  }

  lemma LetterEntry()
    ensures Shifts(0x0000009E, 8) == 0x17B7BE43
  {
    EightShifts([0x0000009E, 0x0000004F, 0xEDB88307, 0x9B64C2A3, 0xA00AE271,
                 0xBDBDF218, 0x5EDEF90C, 0x2F6F7C86, 0x17B7BE43]);
  }

  lemma LetterWords()
    ensures Low8(Xor(ONES, Word(0x61))) == 0x0000009E && Xor(0x17B7BE43, Shr8(ONES)) == 0x174841BC
    ensures Xor(0x174841BC, ONES) == 0xE8B7BE43
  {
  }

  /** A known answer: the CRC of the letter "a". */
  lemma KnownAnswer()
    ensures Crc([0x61]) == 0xE8B7BE43
  {
    hide FeedBits, BitsOf, Bits, Shifts, Xor, Low8, Shr8, Word;
    LetterEntry();
    LetterWords();
    ByteFed(ONES, 0x61, 0x0000009E, 0x17B7BE43, 0x174841BC);
    BitsOfOne(0x61);
  }

  /** The file-level table of src/koe_packet.c with its `crc32_ready` flag. */
  class Table {
    const entries: array<bv32>
    var ready: bool

    ghost predicate Valid()
      reads this, entries
    {
      && entries.Length == 256
      && (ready ==> forall i :: 0 <= i < 256 ==> entries[i] == Shifts(Word(Low(i)), 8))
    }

    constructor ()
      ensures Valid() && !ready && fresh(entries)
    {
      entries := new bv32[256];
      ready := false;
    }

    /** The inner loop of crc32_init. */
    static method Entry(i: bv32) returns (c: bv32)
      ensures c == Shifts(i, 8)
    {
      hide Shift;
      c := i;
      for j := 0 to 8
        invariant Shifts(c, 8 - j) == Shifts(i, 8)
      {
        ShiftAsWritten(c);
        c := if c & 1 == 1 then POLY ^ (c >> 1) else c >> 1;
      }
    }

    method Init()
      requires Valid()
      modifies this, entries
      ensures Valid() && ready
    {
      hide Shifts, Word, Low;
      if ready {
        return;
      }
      for i := 0 to 256
        invariant !ready
        invariant forall k :: 0 <= k < i ==> entries[k] == Shifts(Word(Low(k)), 8)
      {
        entries[i] := Entry(Word(Low(i)));
      }
      ready := true;
    }

    /** The table-driven loop computes the bit-at-a-time CRC, for every buffer of every length. */
    method Compute(buf: seq<byte>) returns (r: bv32)
      requires Valid()
      modifies this, entries
      ensures Valid() && ready
      ensures r == Crc(buf)
    {
      hide FeedBits, Bits, Shifts, Xor, Shr8, Low8, Word, ByteOf, Low;
      Init();
      var c := ONES;
      FeedNothing(ONES);
      var i := 0;
      while i < |buf|
        invariant 0 <= i <= |buf|
        invariant Valid() && ready
        invariant c == FeedBits(ONES, BitsOf(buf[..i]))
      {
        ExtendPrefix(ONES, buf, i);
        TableStep(c, buf[i]);
        var index := ByteOf(Xor(c, Word(buf[i])));
        WordOfByte(Xor(c, Word(buf[i])));
        ByteRoundTrip(index);
        ByteIntByte(index);
        c := Xor(entries[index as int], Shr8(c));
        i := i + 1;
      }
      assert buf[..i] == buf;
      r := Xor(c, ONES);
    }
  }

  lemma FeedNothing(c: bv32)
    ensures FeedBits(c, []) == c
  {
  }
}
