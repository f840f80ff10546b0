/** The checksum is linear: a sum of buffers has the sum of their checksums. */
module FcsLinear {
  import opened Fcs
  import opened Register
  import Crc

  /** The masks of a word that is the sum of two. */
  lemma SumMasks(f: bv16, g: bv16, d: bv16)
    requires d == f ^ g
    ensures (d & 0x1 != 0) == ((f & 0x1 != 0) != (g & 0x1 != 0))
    ensures (d & 0x2 != 0) == ((f & 0x2 != 0) != (g & 0x2 != 0))
    ensures (d & 0x4 != 0) == ((f & 0x4 != 0) != (g & 0x4 != 0))
    ensures (d & 0x8 != 0) == ((f & 0x8 != 0) != (g & 0x8 != 0))
    ensures (d & 0x10 != 0) == ((f & 0x10 != 0) != (g & 0x10 != 0))
    ensures (d & 0x20 != 0) == ((f & 0x20 != 0) != (g & 0x20 != 0))
    ensures (d & 0x40 != 0) == ((f & 0x40 != 0) != (g & 0x40 != 0))
    ensures (d & 0x80 != 0) == ((f & 0x80 != 0) != (g & 0x80 != 0))
    ensures (d & 0x100 != 0) == ((f & 0x100 != 0) != (g & 0x100 != 0))
    ensures (d & 0x200 != 0) == ((f & 0x200 != 0) != (g & 0x200 != 0))
    ensures (d & 0x400 != 0) == ((f & 0x400 != 0) != (g & 0x400 != 0))
    ensures (d & 0x800 != 0) == ((f & 0x800 != 0) != (g & 0x800 != 0))
    ensures (d & 0x1000 != 0) == ((f & 0x1000 != 0) != (g & 0x1000 != 0))
    ensures (d & 0x2000 != 0) == ((f & 0x2000 != 0) != (g & 0x2000 != 0))
    ensures (d & 0x4000 != 0) == ((f & 0x4000 != 0) != (g & 0x4000 != 0))
    ensures (d & 0x8000 != 0) == ((f & 0x8000 != 0) != (g & 0x8000 != 0))
  {
  }

  lemma SumHolds(f: bv16, g: bv16, d: bv16, r: Crc.Reg, q: Crc.Reg)
    requires d == f ^ g && Holds(f, r) && Holds(g, q)
    ensures Holds(d, Crc.Xor(r, q))
  {
    SumMasks(f, g, d);
  }

  lemma SumByteMasks(a: bv8, b: bv8, d: bv8)
    requires d == a ^ b
    ensures (d & 0x1 != 0) == ((a & 0x1 != 0) != (b & 0x1 != 0))
    ensures (d & 0x2 != 0) == ((a & 0x2 != 0) != (b & 0x2 != 0))
    ensures (d & 0x4 != 0) == ((a & 0x4 != 0) != (b & 0x4 != 0))
    ensures (d & 0x8 != 0) == ((a & 0x8 != 0) != (b & 0x8 != 0))
    ensures (d & 0x10 != 0) == ((a & 0x10 != 0) != (b & 0x10 != 0))
    ensures (d & 0x20 != 0) == ((a & 0x20 != 0) != (b & 0x20 != 0))
    ensures (d & 0x40 != 0) == ((a & 0x40 != 0) != (b & 0x40 != 0))
    ensures (d & 0x80 != 0) == ((a & 0x80 != 0) != (b & 0x80 != 0))
  {
  }

  predicate SumEntries(v: seq<bool>, w: seq<bool>, x: seq<bool>)
    requires |v| == |w| == |x| == 8
  {
    && x[0] == (v[0] != w[0]) && x[1] == (v[1] != w[1]) && x[2] == (v[2] != w[2]) && x[3] == (v[3] != w[3])
    && x[4] == (v[4] != w[4]) && x[5] == (v[5] != w[5]) && x[6] == (v[6] != w[6]) && x[7] == (v[7] != w[7])
  }

  lemma ByteSumEntries(a: bv8, b: bv8, d: bv8, v: seq<bool>, w: seq<bool>, x: seq<bool>)
    requires d == a ^ b && |v| == |w| == |x| == 8
    requires ByteHolds(a, v) && ByteHolds(b, w) && ByteHolds(d, x)
    ensures SumEntries(v, w, x)
  {
    SumByteMasks(a, b, d);
  }

  lemma SumByteHolds(a: bv8, b: bv8, d: bv8, v: seq<bool>, w: seq<bool>, x: seq<bool>)
    requires d == a ^ b && |v| == |w| == |x| == 8
    requires ByteHolds(a, v) && ByteHolds(b, w) && ByteHolds(d, x)
    ensures x == Zip(Crc.XorBit, v, w)
  {
    ByteSumEntries(a, b, d, v, w, x);
    SumOfEight(v, w, x);
  }

  lemma SumBits(a: bv8, b: bv8, d: bv8, v: seq<bool>, w: seq<bool>, x: seq<bool>)
    requires d == a ^ b && v == ByteBits(a) && w == ByteBits(b) && x == ByteBits(d)
    ensures x == Zip(Crc.XorBit, v, w)
  {
    ByteHoldsItsBits(a);
    ByteHoldsItsBits(b);
    ByteHoldsItsBits(d);
    SumByteHolds(a, b, d, v, w, x);
  }

  lemma SumOfEight(v: seq<bool>, w: seq<bool>, x: seq<bool>)
    requires |v| == |w| == |x| == 8 && SumEntries(v, w, x)
    ensures x == Zip(Crc.XorBit, v, w)
  {
  }

  function Sum(a: seq<bv8>, b: seq<bv8>): (s: seq<bv8>)
    requires |a| == |b|
    ensures |s| == |a|
  {
    if a == [] then [] else [a[0] ^ b[0]] + Sum(a[1..], b[1..])
  }

  lemma {:induction false} ZipConcat(v: seq<bool>, w: seq<bool>, x: seq<bool>, y: seq<bool>)
    requires |v| == |w| && |x| == |y|
    ensures Zip(Crc.XorBit, v + x, w + y) == Zip(Crc.XorBit, v, w) + Zip(Crc.XorBit, x, y)
  {
  }

  lemma SumParts(a: seq<bv8>, b: seq<bv8>, c: seq<bv8>)
    requires |a| == |b| && a != [] && c == Sum(a, b)
    ensures c != [] && c[0] == a[0] ^ b[0] && c[1..] == Sum(a[1..], b[1..])
  {
  }

  lemma BitsParts(s: seq<bv8>, v: seq<bool>)
    requires s != [] && v == ByteBits(s[0])
    ensures ToBits(s) == v + ToBits(s[1..])
  {
  }

  lemma {:induction false} BitsOfSum(a: seq<bv8>, b: seq<bv8>, c: seq<bv8>)
    requires |a| == |b| && c == Sum(a, b)
    ensures ToBits(c) == Zip(Crc.XorBit, ToBits(a), ToBits(b))
    decreases |a|
  {
    if a != [] {
      SumParts(a, b, c);
      BitsOfSum(a[1..], b[1..], c[1..]);
      OneMoreByte(a, b, c, ByteBits(a[0]), ByteBits(b[0]), ByteBits(c[0]));
    }
  }

  lemma OneMoreByte(a: seq<bv8>, b: seq<bv8>, c: seq<bv8>, v: seq<bool>, w: seq<bool>, x: seq<bool>)
    requires a != [] && b != [] && c != [] && |a| == |b| && c[0] == a[0] ^ b[0]
    requires v == ByteBits(a[0]) && w == ByteBits(b[0]) && x == ByteBits(c[0])
    requires ToBits(c[1..]) == Zip(Crc.XorBit, ToBits(a[1..]), ToBits(b[1..]))
    ensures ToBits(c) == Zip(Crc.XorBit, ToBits(a), ToBits(b))
  {
    BitsParts(a, v);
    BitsParts(b, w);
    BitsParts(c, x);
    SumBits(a[0], b[0], c[0], v, w, x);
    ZipConcat(v, w, ToBits(a[1..]), ToBits(b[1..]));
  }

  /** The checksum of a sum, started with a sum, is the sum of the checksums. */
  lemma ChecksumLinear(f: bv16, g: bv16, a: seq<bv8>, b: seq<bv8>)
    requires |a| == |b|
    ensures Over(f ^ g, Sum(a, b)) == Over(f, a) ^ Over(g, b)
  {
    var r := Held(f);
    var q := Held(g);
    SumHolds(f, g, f ^ g, r, q);
    OverIsFeed(f, a, r);
    OverIsFeed(g, b, q);
    OverIsFeed(f ^ g, Sum(a, b), Crc.Xor(r, q));
    BitsOfSum(a, b, Sum(a, b));
    Crc.FeedLinear(r, q, ToBits(a), ToBits(b));
    var r', q' := Crc.Feed(r, ToBits(a)), Crc.Feed(q, ToBits(b));
    SumHolds(Over(f, a), Over(g, b), Over(f, a) ^ Over(g, b), r', q');
    HoldsInjective(Over(f ^ g, Sum(a, b)), Over(f, a) ^ Over(g, b), Crc.Xor(r', q'));
  }
}
