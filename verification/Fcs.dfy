/** The frame check sequence of src/smanet.cpp: the table-driven loop over bytes, proved to be the
    bit-serial register, and the frames `validateFrame` accepts (RFC 1662, Appendix C.2). */
module Fcs {
  import opened FcsTable
  import opened Register
  import Crc

  const PPP_INIT_FCS: bv16 := 0xffff
  const PPP_GOOD_FCS: bv16 := 0xf0b8
  const FRAME_SIZE := 528

  /** Feeds one byte into the register. */
  function Serial(fcs: bv16, b: bv8): bv16 {
    Bits8(fcs ^ (b as bv16))
  }

  /** The checksum register after the bytes of `s`. */
  function Over(fcs: bv16, s: seq<bv8>): bv16 {
    Run(Serial, fcs, s)
  }

  /** The table-driven loop computes the checksum of `len` bytes. */
  method FcsCalc(init: bv16, buf: array<bv8>, from: nat, len: nat) returns (fcs: bv16)
    requires from + len <= buf.Length
    ensures fcs == Over(init, buf[from..from + len])
  {
    fcs := init;
    var i := 0;
    while i < len
      invariant 0 <= i <= len
      invariant fcs == Over(init, buf[from..from + i])
    {
      TableStepIsBitSerial(fcs, buf[from + i]);
      RunSnoc(Serial, init, buf[from..from + i], buf[from + i]);
      assert buf[from..from + i] + [buf[from + i]] == buf[from..from + i + 1];
      fcs := TableStep(fcs, buf[from + i]);
      i := i + 1;
    }
  }

  lemma OverConcat(fcs: bv16, a: seq<bv8>, b: seq<bv8>)
    ensures Over(fcs, a + b) == Over(Over(fcs, a), b)
  {
    RunConcat(Serial, fcs, a, b);
  }

  lemma OverCons(fcs: bv16, s: seq<bv8>)
    requires s != []
    ensures Over(fcs, s) == Over(Serial(fcs, s[0]), s[1..])
  {
  }

  lemma OverTwo(c: bv16, a: bv8, b: bv8)
    ensures Over(c, [a, b]) == Serial(Serial(c, a), b)
  {
    RunOne(Serial, c, a);
    RunSnoc(Serial, c, [a], b);
    assert [a] + [b] == [a, b];
  }

  // ---- words as bits ----

  /** Word `c` holds the register contents `r`. */
  predicate Holds(c: bv16, r: Crc.Reg) {
    && r[0] == (c & 0x1 != 0) && r[1] == (c & 0x2 != 0) && r[2] == (c & 0x4 != 0) && r[3] == (c & 0x8 != 0)
    && r[4] == (c & 0x10 != 0) && r[5] == (c & 0x20 != 0) && r[6] == (c & 0x40 != 0) && r[7] == (c & 0x80 != 0)
    && r[8] == (c & 0x100 != 0) && r[9] == (c & 0x200 != 0) && r[10] == (c & 0x400 != 0) && r[11] == (c & 0x800 != 0)
    && r[12] == (c & 0x1000 != 0) && r[13] == (c & 0x2000 != 0) && r[14] == (c & 0x4000 != 0) && r[15] == (c & 0x8000 != 0)
  }

  function Four(a: bool, b: bool, c: bool, d: bool): (w: seq<bool>)
    ensures |w| == 4 && w[0] == a && w[1] == b && w[2] == c && w[3] == d
  {
    [a, b, c, d]
  }

  lemma HoldsInjective(c: bv16, d: bv16, r: Crc.Reg)
    requires Holds(c, r) && Holds(d, r)
    ensures c == d
  {
  }

  lemma HoldsUnique(c: bv16, r: Crc.Reg, q: Crc.Reg)
    requires Holds(c, r) && Holds(c, q)
    ensures r == q
  {
  }

  /** Byte `b` has the bits `w`, least significant first. */
  predicate ByteHolds(b: bv8, w: seq<bool>)
    requires |w| == 8
  {
    && w[0] == (b & 0x1 != 0) && w[1] == (b & 0x2 != 0) && w[2] == (b & 0x4 != 0) && w[3] == (b & 0x8 != 0)
    && w[4] == (b & 0x10 != 0) && w[5] == (b & 0x20 != 0) && w[6] == (b & 0x40 != 0) && w[7] == (b & 0x80 != 0)
  }

  function ByteBits(b: bv8): (w: seq<bool>)
    ensures |w| == 8
  {
    Four(b & 0x1 != 0, b & 0x2 != 0, b & 0x4 != 0, b & 0x8 != 0)
    + Four(b & 0x10 != 0, b & 0x20 != 0, b & 0x40 != 0, b & 0x80 != 0)
  }

  lemma ByteHoldsItsBits(b: bv8)
    ensures ByteHolds(b, ByteBits(b))
  {
  }

  lemma ByteHoldsInjective(a: bv8, b: bv8, w: seq<bool>)
    requires |w| == 8 && ByteHolds(a, w) && ByteHolds(b, w)
    ensures a == b
  {
  }

  function Low(f: bv16): bv8 { (f & 0xff) as bv8 }

  function High(f: bv16): bv8 { ((f >> 8) & 0xff) as bv8 }

  lemma HalvesHold(c: bv16, v: seq<bool>, w: seq<bool>, r: Crc.Reg)
    requires |v| == |w| == 8 && ByteHolds(Low(c), v) && ByteHolds(High(c), w)
    requires forall i :: 0 <= i < 8 ==> r[i] == v[i] && r[i + 8] == w[i]
    ensures Holds(c, r)
  {
  }

  /** Every word holds some register contents. */
  lemma Held(c: bv16) returns (r: Crc.Reg)
    ensures Holds(c, r)
  {
    var v, w := ByteBits(Low(c)), ByteBits(High(c));
    ByteHoldsItsBits(Low(c));
    ByteHoldsItsBits(High(c));
    r := v + w;
    HalvesHold(c, v, w, r);
  }

  /** The bits of a buffer in transmission order. */
  function ToBits(s: seq<bv8>): (w: seq<bool>)
    ensures |w| == 8 * |s|
  {
    if s == [] then [] else ByteBits(s[0]) + ToBits(s[1..])
  }

  lemma {:induction false} ToBitsInjective(x: seq<bv8>, y: seq<bv8>)
    requires |x| == |y| && ToBits(x) == ToBits(y)
    ensures x == y
  {
    if x != [] {
      assert ToBits(x)[..8] == ByteBits(x[0]) && ToBits(x)[8..] == ToBits(x[1..]);
      assert ToBits(y)[..8] == ByteBits(y[0]) && ToBits(y)[8..] == ToBits(y[1..]);
      ByteHoldsItsBits(x[0]);
      ByteHoldsItsBits(y[0]);
      ByteHoldsInjective(x[0], y[0], ByteBits(x[0]));
      ToBitsInjective(x[1..], y[1..]);
      assert x == [x[0]] + x[1..] && y == [y[0]] + y[1..];
    }
  }

  // ---- the loop computes the bit-serial checksum ----

  /** The bits of a word after one step, in terms of the bits before it. */
  lemma BitMasks(c: bv16, d: bv16)
    requires d == Bit(c)
    ensures (d & 0x1 != 0) == (c & 0x2 != 0)
    ensures (d & 0x2 != 0) == (c & 0x4 != 0)
    ensures (d & 0x4 != 0) == (c & 0x8 != 0)
    ensures (d & 0x8 != 0) == ((c & 0x10 != 0) != (c & 0x1 != 0))
    ensures (d & 0x10 != 0) == (c & 0x20 != 0)
    ensures (d & 0x20 != 0) == (c & 0x40 != 0)
    ensures (d & 0x40 != 0) == (c & 0x80 != 0)
    ensures (d & 0x80 != 0) == (c & 0x100 != 0)
    ensures (d & 0x100 != 0) == (c & 0x200 != 0)
    ensures (d & 0x200 != 0) == (c & 0x400 != 0)
    ensures (d & 0x400 != 0) == ((c & 0x800 != 0) != (c & 0x1 != 0))
    ensures (d & 0x800 != 0) == (c & 0x1000 != 0)
    ensures (d & 0x1000 != 0) == (c & 0x2000 != 0)
    ensures (d & 0x2000 != 0) == (c & 0x4000 != 0)
    ensures (d & 0x4000 != 0) == (c & 0x8000 != 0)
    ensures (d & 0x8000 != 0) == (c & 0x1 != 0)
  {
  }

  predicate Stepped(r: Crc.Reg, n: Crc.Reg) {
    && n[0] == r[1] && n[1] == r[2] && n[2] == r[3] && n[3] == (r[4] != r[0])
    && n[4] == r[5] && n[5] == r[6] && n[6] == r[7] && n[7] == r[8]
    && n[8] == r[9] && n[9] == r[10] && n[10] == (r[11] != r[0]) && n[11] == r[12]
    && n[12] == r[13] && n[13] == r[14] && n[14] == r[15] && n[15] == r[0]
  }

  lemma BitStepEntries(r: Crc.Reg)
    ensures Stepped(r, Crc.BitStep(r, false))
  {
  }

  lemma HeldBitSteps(c: bv16, r: Crc.Reg, n: Crc.Reg)
    requires Holds(c, r) && Stepped(r, n)
    ensures Holds(Bit(c), n)
  {
    BitMasks(c, Bit(c));
  }

  lemma BitIsBitStep(c: bv16, r: Crc.Reg)
    requires Holds(c, r)
    ensures Holds(Bit(c), Crc.BitStep(r, false))
  {
    BitStepEntries(r);
    HeldBitSteps(c, r, Crc.BitStep(r, false));
  }

  lemma InputMasks(f: bv16, b: bv8, d: bv16)
    requires d == f ^ (b as bv16)
    ensures (d & 0x1 != 0) == ((f & 0x1 != 0) != (b & 0x1 != 0))
    ensures (d & 0x2 != 0) == ((f & 0x2 != 0) != (b & 0x2 != 0))
    ensures (d & 0x4 != 0) == ((f & 0x4 != 0) != (b & 0x4 != 0))
    ensures (d & 0x8 != 0) == ((f & 0x8 != 0) != (b & 0x8 != 0))
    ensures (d & 0x10 != 0) == ((f & 0x10 != 0) != (b & 0x10 != 0))
    ensures (d & 0x20 != 0) == ((f & 0x20 != 0) != (b & 0x20 != 0))
    ensures (d & 0x40 != 0) == ((f & 0x40 != 0) != (b & 0x40 != 0))
    ensures (d & 0x80 != 0) == ((f & 0x80 != 0) != (b & 0x80 != 0))
    ensures (d & 0x100 != 0) == (f & 0x100 != 0)
    ensures (d & 0x200 != 0) == (f & 0x200 != 0)
    ensures (d & 0x400 != 0) == (f & 0x400 != 0)
    ensures (d & 0x800 != 0) == (f & 0x800 != 0)
    ensures (d & 0x1000 != 0) == (f & 0x1000 != 0)
    ensures (d & 0x2000 != 0) == (f & 0x2000 != 0)
    ensures (d & 0x4000 != 0) == (f & 0x4000 != 0)
    ensures (d & 0x8000 != 0) == (f & 0x8000 != 0)
  {
  }

  predicate Added(r: Crc.Reg, w: seq<bool>, n: Crc.Reg)
    requires |w| == 8
  {
    && n[0] == (r[0] != w[0]) && n[1] == (r[1] != w[1]) && n[2] == (r[2] != w[2]) && n[3] == (r[3] != w[3])
    && n[4] == (r[4] != w[4]) && n[5] == (r[5] != w[5]) && n[6] == (r[6] != w[6]) && n[7] == (r[7] != w[7])
    && n[8] == r[8] && n[9] == r[9] && n[10] == r[10] && n[11] == r[11]
    && n[12] == r[12] && n[13] == r[13] && n[14] == r[14] && n[15] == r[15]
  }

  lemma PadEntries(r: Crc.Reg, w: seq<bool>)
    requires |w| == 8
    ensures Added(r, w, Crc.Xor(r, Crc.Pad(w)))
  {
  }

  lemma HeldInput(f: bv16, b: bv8, r: Crc.Reg, w: seq<bool>, n: Crc.Reg)
    requires |w| == 8 && Holds(f, r) && ByteHolds(b, w) && Added(r, w, n)
    ensures Holds(f ^ (b as bv16), n)
  {
    InputMasks(f, b, f ^ (b as bv16));
  }

  lemma InputIsPad(f: bv16, b: bv8, r: Crc.Reg, w: seq<bool>)
    requires |w| == 8 && Holds(f, r) && ByteHolds(b, w)
    ensures Holds(f ^ (b as bv16), Crc.Xor(r, Crc.Pad(w)))
  {
    PadEntries(r, w);
    HeldInput(f, b, r, w, Crc.Xor(r, Crc.Pad(w)));
  }

  lemma FeedZero(r: Crc.Reg, n: nat)
    requires n >= 1
    ensures Crc.Feed(r, Repeat(false, n)) == Crc.Feed(Crc.BitStep(r, false), Repeat(false, n - 1))
  {
    assert Repeat(false, n)[1..] == Repeat(false, n - 1);
  }

  lemma Bits2IsTwoSteps(c: bv16, r: Crc.Reg, n: nat) returns (q: Crc.Reg)
    requires Holds(c, r) && n >= 2
    ensures Holds(Bits2(c), q)
    ensures Crc.Feed(r, Repeat(false, n)) == Crc.Feed(q, Repeat(false, n - 2))
  {
    var p := Crc.BitStep(r, false);
    BitIsBitStep(c, r);
    BitIsBitStep(Bit(c), p);
    FeedZero(r, n);
    FeedZero(p, n - 1);
    q := Crc.BitStep(p, false);
  }

  lemma Bits4IsFourSteps(c: bv16, r: Crc.Reg, n: nat) returns (q: Crc.Reg)
    requires Holds(c, r) && n >= 4
    ensures Holds(Bits4(c), q)
    ensures Crc.Feed(r, Repeat(false, n)) == Crc.Feed(q, Repeat(false, n - 4))
  {
    q := Bits2IsTwoSteps(c, r, n);
    q := Bits2IsTwoSteps(Bits2(c), q, n - 2);
  }

  lemma Bits8IsEightSteps(c: bv16, r: Crc.Reg) returns (q: Crc.Reg)
    requires Holds(c, r)
    ensures Holds(Bits8(c), q) && q == Crc.Feed(r, Repeat(false, 8))
  {
    q := Bits4IsFourSteps(c, r, 8);
    q := Bits4IsFourSteps(Bits4(c), q, 4);
  }

  lemma SerialIsFeed(f: bv16, b: bv8, r: Crc.Reg)
    requires Holds(f, r)
    ensures Holds(Serial(f, b), Crc.Feed(r, ByteBits(b)))
  {
    var w := ByteBits(b);
    ByteHoldsItsBits(b);
    InputIsPad(f, b, r, w);
    var q := Bits8IsEightSteps(f ^ (b as bv16), Crc.Xor(r, Crc.Pad(w)));
    Crc.Absorb(r, w);
  }

  /** The checksum of every buffer is the bit-serial checksum of its bits. */
  lemma {:induction false} OverIsFeed(f: bv16, s: seq<bv8>, r: Crc.Reg)
    requires Holds(f, r)
    ensures Holds(Over(f, s), Crc.Feed(r, ToBits(s)))
    decreases |s|
  {
    if s != [] {
      SerialIsFeed(f, s[0], r);
      OverIsFeed(Serial(f, s[0]), s[1..], Crc.Feed(r, ByteBits(s[0])));
      RunConcat(Crc.BitStep, r, ByteBits(s[0]), ToBits(s[1..]));
    }
  }

  /** So two buffers have the same checksum exactly when their bits reach the same state. */
  lemma SameChecksumIff(f: bv16, r: Crc.Reg, x: seq<bv8>, y: seq<bv8>)
    requires Holds(f, r)
    ensures Over(f, x) == Over(f, y) <==> Crc.Feed(r, ToBits(x)) == Crc.Feed(r, ToBits(y))
  {
    OverIsFeed(f, x, r);
    OverIsFeed(f, y, r);
    if Over(f, x) == Over(f, y) {
      HoldsUnique(Over(f, x), Crc.Feed(r, ToBits(x)), Crc.Feed(r, ToBits(y)));
    }
    if Crc.Feed(r, ToBits(x)) == Crc.Feed(r, ToBits(y)) {
      HoldsInjective(Over(f, x), Over(f, y), Crc.Feed(r, ToBits(x)));
    }
  }

  // ---- acceptance ----

  /** A frame `validateFrame` accepts. */
  predicate Good(frame: seq<bv8>) {
    |frame| <= FRAME_SIZE && Over(PPP_INIT_FCS, frame) == PPP_GOOD_FCS
  }

  method ValidateFrame(frame: array<bv8>, len: nat) returns (r: int)
    requires len <= frame.Length
    ensures r == 0 || r == -1
    ensures r == 0 <==> Good(frame[..len])
  {
    if len > FRAME_SIZE {
      return -1;
    }
    var fcs := FcsCalc(PPP_INIT_FCS, frame, 0, len);
    assert frame[0..0 + len] == frame[..len];
    if fcs != PPP_GOOD_FCS {
      return -1;
    }
    return 0;
  }

  /** The complemented checksum a sender appends, low byte first. */
  function Trailer(content: seq<bv8>): (t: seq<bv8>)
    ensures |t| == 2
  {
    var f := Over(PPP_INIT_FCS, content) ^ 0xffff;
    [Low(f), High(f)]
  }

  lemma LowHolds(f: bv16, r: Crc.Reg, w: seq<bool>)
    requires Holds(f, r) && |w| == 8 && forall i :: 0 <= i < 8 ==> w[i] == r[i]
    ensures ByteHolds(Low(f), w)
  {
  }

  lemma HighHolds(f: bv16, r: Crc.Reg, w: seq<bool>)
    requires Holds(f, r) && |w| == 8 && forall i :: 0 <= i < 8 ==> w[i] == r[i + 8]
    ensures ByteHolds(High(f), w)
  {
  }

  lemma ByteHoldsUnique(b: bv8, v: seq<bool>, w: seq<bool>)
    requires |v| == |w| == 8 && ByteHolds(b, v) && ByteHolds(b, w)
    ensures v == w
  {
  }

  lemma ToBitsOfTwo(a: bv8, b: bv8)
    ensures ToBits([a, b]) == ByteBits(a) + ByteBits(b)
  {
    assert [a, b][1..] == [b];
    assert ToBits([b]) == ByteBits(b) + ToBits([]);
  }

  /** Sent low byte first, a word goes out in register order. */
  lemma WordBits(f: bv16, r: Crc.Reg)
    requires Holds(f, r)
    ensures ToBits([Low(f), High(f)]) == r
  {
    LowHolds(f, r, r[..8]);
    HighHolds(f, r, r[8..]);
    ByteHoldsItsBits(Low(f));
    ByteHoldsItsBits(High(f));
    ByteHoldsUnique(Low(f), ByteBits(Low(f)), r[..8]);
    ByteHoldsUnique(High(f), ByteBits(High(f)), r[8..]);
    ToBitsOfTwo(Low(f), High(f));
    assert r == r[..8] + r[8..];
  }

  function Not(r: Crc.Reg): (n: Crc.Reg)
    ensures forall i :: 0 <= i < 16 ==> n[i] == !r[i]
  {
    seq(16, i requires 0 <= i < 16 => !r[i])
  }

  lemma ComplementMasks(f: bv16, d: bv16)
    requires d == f ^ 0xffff
    ensures (d & 0x1 != 0) == (f & 0x1 == 0)
    ensures (d & 0x2 != 0) == (f & 0x2 == 0)
    ensures (d & 0x4 != 0) == (f & 0x4 == 0)
    ensures (d & 0x8 != 0) == (f & 0x8 == 0)
    ensures (d & 0x10 != 0) == (f & 0x10 == 0)
    ensures (d & 0x20 != 0) == (f & 0x20 == 0)
    ensures (d & 0x40 != 0) == (f & 0x40 == 0)
    ensures (d & 0x80 != 0) == (f & 0x80 == 0)
    ensures (d & 0x100 != 0) == (f & 0x100 == 0)
    ensures (d & 0x200 != 0) == (f & 0x200 == 0)
    ensures (d & 0x400 != 0) == (f & 0x400 == 0)
    ensures (d & 0x800 != 0) == (f & 0x800 == 0)
    ensures (d & 0x1000 != 0) == (f & 0x1000 == 0)
    ensures (d & 0x2000 != 0) == (f & 0x2000 == 0)
    ensures (d & 0x4000 != 0) == (f & 0x4000 == 0)
    ensures (d & 0x8000 != 0) == (f & 0x8000 == 0)
  {
  }

  lemma ComplementHolds(f: bv16, r: Crc.Reg)
    requires Holds(f, r)
    ensures Holds(f ^ 0xffff, Not(r))
  {
    ComplementMasks(f, f ^ 0xffff);
  }

  lemma OnesAreComplement(r: Crc.Reg)
    ensures Crc.Xor(r, Crc.Pad(Not(r))) == Not(Crc.ZERO)
  {
  }

  lemma ZeroHolds()
    ensures Holds(0, Crc.ZERO)
  {
  }

  lemma GoodResidue()
    ensures Over(0xffff, [Low(0), High(0)]) == PPP_GOOD_FCS
  {
    OverTwo(0xffff, 0, 0);
  }

  /** A register fed its own complement always ends in the good residue. */
  lemma ResidueOfComplement(f: bv16)
    ensures Over(f, [Low(f ^ 0xffff), High(f ^ 0xffff)]) == PPP_GOOD_FCS
  {
    var r := Held(f);
    ComplementHolds(f, r);
    WordBits(f ^ 0xffff, Not(r));
    OverIsFeed(f, [Low(f ^ 0xffff), High(f ^ 0xffff)], r);
    ZeroHolds();
    ComplementHolds(0, Crc.ZERO);
    WordBits(0, Crc.ZERO);
    assert (0 as bv16) ^ 0xffff == 0xffff;
    OverIsFeed(0xffff, [Low(0), High(0)], Not(Crc.ZERO));
    FeedComplement(r);
    GoodResidue();
    HoldsInjective(Over(f, [Low(f ^ 0xffff), High(f ^ 0xffff)]), PPP_GOOD_FCS, Crc.Feed(r, Not(r)));
  }

  lemma FeedComplement(r: Crc.Reg)
    ensures Crc.Feed(r, Not(r)) == Crc.Feed(Not(Crc.ZERO), Crc.ZERO)
  {
    Crc.Absorb(r, Not(r));
    OnesAreComplement(r);
    assert Crc.ZERO == Repeat(false, 16);
  }

  lemma ResidueOnlyOfComplement(f: bv16, t: seq<bv8>)
    requires |t| == 2 && Over(f, t) == PPP_GOOD_FCS
    ensures t == [Low(f ^ 0xffff), High(f ^ 0xffff)]
  {
    var u := [Low(f ^ 0xffff), High(f ^ 0xffff)];
    ResidueOfComplement(f);
    var r := Held(f);
    SameChecksumIff(f, r, t, u);
    Crc.ShortInputsInjective(r, ToBits(t), ToBits(u));
    ToBitsInjective(t, u);
  }

  lemma ResidueNeedsTwoBytes(a: bv8)
    ensures Serial(PPP_INIT_FCS, a) != PPP_GOOD_FCS
  {
  }

  lemma OneByteRejected(frame: seq<bv8>)
    requires |frame| == 1
    ensures !Good(frame)
  {
    ResidueNeedsTwoBytes(frame[0]);
    RunOne(Serial, PPP_INIT_FCS, frame[0]);
    assert frame == [frame[0]];
  }

  lemma TrailerDecides(content: seq<bv8>, t: seq<bv8>)
    requires |t| == 2
    ensures Over(PPP_INIT_FCS, content + t) == PPP_GOOD_FCS <==> t == Trailer(content)
  {
    var f := Over(PPP_INIT_FCS, content);
    OverConcat(PPP_INIT_FCS, content, t);
    ResidueOfComplement(f);
    if Over(f, t) == PPP_GOOD_FCS {
      ResidueOnlyOfComplement(f, t);
    }
  }

  /** The residue test accepts exactly the frames that end in their own checksum. */
  lemma ExactAcceptance(frame: seq<bv8>)
    ensures Good(frame) <==>
      && 2 <= |frame| <= 528
      && frame[|frame| - 2..] == Trailer(frame[..|frame| - 2])
  {
    if |frame| >= 2 {
      var n := |frame| - 2;
      assert frame[..n] + frame[n..] == frame;
      TrailerDecides(frame[..n], frame[n..]);
    } else if |frame| == 1 {
      OneByteRejected(frame);
    }
  }

  // ---- error detection ----

  /** If a frame is accepted, no other frame of its length that differs from it only inside sixteen
      consecutive bits, wherever they start, is accepted too. */
  lemma BurstDetected(frame: seq<bv8>, other: seq<bv8>, at: nat)
    requires Good(frame) && other != frame && |other| == |frame|
    requires Crc.DifferInBurst(ToBits(frame), ToBits(other), at)
    ensures !Good(other)
  {
    var r := Held(PPP_INIT_FCS);
    SameChecksumIff(PPP_INIT_FCS, r, frame, other);
    if ToBits(frame) == ToBits(other) {
      ToBitsInjective(frame, other);
    }
    Crc.BurstChangesChecksum(r, ToBits(frame), ToBits(other), at);
  }

  /** Nor is a frame that differs from an accepted one in an odd number of bits. */
  lemma OddDamageDetected(frame: seq<bv8>, other: seq<bv8>)
    requires Good(frame) && |other| == |frame|
    requires OddCount(Crc.Id, Zip(Crc.XorBit, ToBits(frame), ToBits(other)))
    ensures !Good(other)
  {
    var r := Held(PPP_INIT_FCS);
    SameChecksumIff(PPP_INIT_FCS, r, frame, other);
    Crc.OddDamageChangesChecksum(r, ToBits(frame), ToBits(other));
  }

  lemma {:induction false} ToBitsAt(x: seq<bv8>, k: nat, j: nat)
    requires k < |x| && j < 8
    ensures ToBits(x)[8 * k + j] == ByteBits(x[k])[j]
  {
    if k > 0 {
      ToBitsAt(x[1..], k - 1, j);
      assert ToBits(x)[8 * k + j] == ToBits(x[1..])[8 * (k - 1) + j];
    }
  }

  /** In particular two adjacent bytes can be damaged in any way without going unnoticed. */
  lemma AdjacentBytesDetected(frame: seq<bv8>, other: seq<bv8>, at: nat)
    requires Good(frame) && other != frame && |other| == |frame|
    requires forall k :: 0 <= k < |frame| && frame[k] != other[k] ==> at <= k < at + 2
    ensures !Good(other)
  {
    var x, y := ToBits(frame), ToBits(other);
    forall j | 0 <= j < |x| && x[j] != y[j] ensures 8 * at <= j < 8 * at + 16 {
      BitOfByte(frame, other, j);
    }
    BurstDetected(frame, other, 8 * at);
  }

  lemma BitOfByte(frame: seq<bv8>, other: seq<bv8>, j: nat)
    requires |other| == |frame| && j < |ToBits(frame)| && ToBits(frame)[j] != ToBits(other)[j]
    ensures frame[j / 8] != other[j / 8]
  {
    var k, i := j / 8, j % 8;
    assert j == 8 * k + i;
    ToBitsAt(frame, k, i);
    ToBitsAt(other, k, i);
  }
}
