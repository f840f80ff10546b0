/** Little-endian numbers and the cursors of src/byte.h. */
module ByteOrder {
  import opened Bytes
  import opened Common

  type u8 = n: nat | n < 0x100
  type u16 = n: nat | n < 0x1_0000
  type u32 = n: nat | n < 0x1_0000_0000
  type u64 = n: nat | n < 0x1_0000_0000_0000_0000

  // Numbers in the bytes of `s` from `at` on.

  /** The number in `n` bytes, lowest byte first. */
  function Number(s: seq<bv8>, at: nat, n: nat): nat
    requires at + n <= |s|
    decreases s, n
  {
    if n == 0 then 0 else Value(s[at]) + 0x100 * Number(s, at + 1, n - 1)
  }

  /** 256 to the power of `n`. */
  function Span(n: nat): nat { if n == 0 then 1 else 0x100 * Span(n - 1) }

  lemma {:induction false} NumberBelow(s: seq<bv8>, at: nat, n: nat)
    requires at + n <= |s|
    ensures Number(s, at, n) < Span(n)
    decreases n
  {
    if n > 0 {
      NumberBelow(s, at + 1, n - 1);
    }
  }

  lemma Spans()
    ensures Span(2) == 0x1_0000 && Span(4) == 0x1_0000_0000 && Span(8) == 0x1_0000_0000_0000_0000
  {
    assert Span(6) == 0x1_0000_0000_0000;
  }

  /** Equal bytes make equal numbers. */
  lemma {:induction false} SameNumber(a: seq<bv8>, i: nat, b: seq<bv8>, j: nat, n: nat)
    requires i + n <= |a| && j + n <= |b| && a[i..i + n] == b[j..j + n]
    ensures Number(a, i, n) == Number(b, j, n)
    decreases n
  {
    if n > 0 {
      assert a[i] == a[i..i + n][0] && b[j] == b[j..j + n][0];
      assert a[i + 1..i + n] == a[i..i + n][1..] && b[j + 1..j + n] == b[j..j + n][1..];
      SameNumber(a, i + 1, b, j + 1, n - 1);
    }
  }

  function U16(s: seq<bv8>, at: nat): u16
    requires at + 2 <= |s|
  {
    NumberBelow(s, at, 2);
    Spans();
    Number(s, at, 2)
  }

  function U32(s: seq<bv8>, at: nat): u32
    requires at + 4 <= |s|
  {
    NumberBelow(s, at, 4);
    Spans();
    Number(s, at, 4)
  }

  function U64(s: seq<bv8>, at: nat): u64
    requires at + 8 <= |s|
  {
    NumberBelow(s, at, 8);
    Spans();
    Number(s, at, 8)
  }

  lemma TwoBytes(s: seq<bv8>, at: nat)
    requires at + 2 <= |s|
    ensures U16(s, at) == Value(s[at]) + 0x100 * Value(s[at + 1])
  {
    assert Number(s, at + 1, 1) == Value(s[at + 1]) + 0x100 * Number(s, at + 2, 0);
  }

  lemma TwoMore(s: seq<bv8>, at: nat, n: nat)
    requires at + 2 + n <= |s|
    ensures Number(s, at, n + 2) == U16(s, at) + 0x1_0000 * Number(s, at + 2, n)
  {
    TwoBytes(s, at);
    assert Number(s, at, n + 2) == Value(s[at]) + 0x100 * Number(s, at + 1, n + 1);
    assert Number(s, at + 1, n + 1) == Value(s[at + 1]) + 0x100 * Number(s, at + 2, n);
  }

  lemma TwoWords(s: seq<bv8>, at: nat)
    requires at + 4 <= |s|
    ensures U32(s, at) == U16(s, at) + 0x1_0000 * U16(s, at + 2)
  {
    TwoMore(s, at, 2);
  }

  lemma TwoLongs(s: seq<bv8>, at: nat)
    requires at + 8 <= |s|
    ensures U64(s, at) == U32(s, at) + 0x1_0000_0000 * U32(s, at + 4)
  {
    TwoMore(s, at, 6);
    TwoMore(s, at + 2, 4);
    TwoWords(s, at);
  }

  // The bytes of numbers.

  function FromU16(n: u16): (s: seq<bv8>)
    ensures |s| == 2
  {
    [ToByte(n % 0x100), ToByte(n / 0x100)]
  }

  function FromU32(n: u32): (s: seq<bv8>)
    ensures |s| == 4
  {
    FromU16(n % 0x1_0000) + FromU16(n / 0x1_0000)
  }

  function FromU64(n: u64): (s: seq<bv8>)
    ensures |s| == 8
  {
    FromU32(n % 0x1_0000_0000) + FromU32(n / 0x1_0000_0000)
  }

  // Reading a stored number returns it, wherever it is stored.

  predicate At(s: seq<bv8>, at: nat, x: seq<bv8>) {
    at + |x| <= |s| && s[at..at + |x|] == x
  }

  lemma AtParts(s: seq<bv8>, at: nat, x: seq<bv8>, y: seq<bv8>)
    requires At(s, at, x + y)
    ensures At(s, at, x) && At(s, at + |x|, y)
  {
    assert s[at..at + |x|] == s[at..at + |x + y|][..|x|];
    assert s[at + |x|..at + |x + y|] == s[at..at + |x + y|][|x|..];
  }

  lemma AtJoin(s: seq<bv8>, at: nat, x: seq<bv8>, y: seq<bv8>)
    requires At(s, at, x) && At(s, at + |x|, y)
    ensures At(s, at, x + y)
  {
    assert s[at..at + |x + y|] == s[at..at + |x|] + s[at + |x|..at + |x| + |y|];
  }

  /** Of parts of equal size, one behind the other, each is found where it was put. */
  lemma {:induction false} PartsLength(size: nat, parts: seq<seq<bv8>>)
    requires forall k :: 0 <= k < |parts| ==> |parts[k]| == size
    ensures |Flat(parts)| == |parts| * size
  {
    if parts != [] {
      PartsLength(size, parts[1..]);
      OneMoreTime(|parts| - 1, size);
    }
  }

  lemma OneMoreTime(n: nat, size: nat)
    ensures (n + 1) * size == size + n * size
  {
  }

  lemma {:induction false} PartAt(size: nat, buf: seq<bv8>, at: nat, parts: seq<seq<bv8>>, k: nat)
    requires forall j :: 0 <= j < |parts| ==> |parts[j]| == size
    requires At(buf, at, Flat(parts)) && k < |parts|
    ensures At(buf, at + k * size, parts[k])
    decreases k
  {
    AtParts(buf, at, parts[0], Flat(parts[1..]));
    if k > 0 {
      PartAt(size, buf, at + size, parts[1..], k - 1);
      OneMoreTime(k - 1, size);
    }
  }

  lemma WordHalves(low: u16, high: u16)
    ensures (low + 0x1_0000 * high) % 0x1_0000 == low && (low + 0x1_0000 * high) / 0x1_0000 == high
  {
  }

  lemma LongHalves(low: u32, high: u32)
    ensures (low + 0x1_0000_0000 * high) % 0x1_0000_0000 == low
    ensures (low + 0x1_0000_0000 * high) / 0x1_0000_0000 == high
  {
  }

  lemma ReadU16(s: seq<bv8>, at: nat, n: u16)
    requires At(s, at, FromU16(n))
    ensures U16(s, at) == n
  {
    TwoBytes(s, at);
    assert s[at] == FromU16(n)[0] && s[at + 1] == FromU16(n)[1];
    ByteValue(n % 0x100);
    ByteValue(n / 0x100);
  }

  lemma ReadU32(s: seq<bv8>, at: nat, n: u32)
    requires At(s, at, FromU32(n))
    ensures U32(s, at) == n
  {
    TwoWords(s, at);
    AtParts(s, at, FromU16(n % 0x1_0000), FromU16(n / 0x1_0000));
    ReadU16(s, at, n % 0x1_0000);
    ReadU16(s, at + 2, n / 0x1_0000);
  }

  lemma ReadU64(s: seq<bv8>, at: nat, n: u64)
    requires At(s, at, FromU64(n))
    ensures U64(s, at) == n
  {
    TwoLongs(s, at);
    AtParts(s, at, FromU32(n % 0x1_0000_0000), FromU32(n / 0x1_0000_0000));
    ReadU32(s, at, n % 0x1_0000_0000);
    ReadU32(s, at + 4, n / 0x1_0000_0000);
  }

  // Storing a number that was read returns its bytes.

  lemma ByteHalves(low: u8, high: u8)
    ensures (low + 0x100 * high) % 0x100 == low && (low + 0x100 * high) / 0x100 == high
  {
  }

  lemma PairOfBytes(x: bv8, y: bv8, low: u8, high: u8)
    requires low == Value(x) && high == Value(y)
    ensures FromU16(low + 0x100 * high) == [x, y]
  {
    ByteHalves(low, high);
    ValueByte(x);
    ValueByte(y);
  }

  lemma AtPair(s: seq<bv8>, at: nat, x: bv8, y: bv8)
    requires at + 2 <= |s| && s[at] == x && s[at + 1] == y
    ensures At(s, at, [x, y])
  {
  }

  lemma StoreU16(s: seq<bv8>, at: nat)
    requires at + 2 <= |s|
    ensures At(s, at, FromU16(U16(s, at)))
  {
    var x, y := s[at], s[at + 1];
    TwoBytes(s, at);
    PairOfBytes(x, y, Value(x), Value(y));
    AtPair(s, at, x, y);
  }

  lemma StoreU32(s: seq<bv8>, at: nat)
    requires at + 4 <= |s|
    ensures At(s, at, FromU32(U32(s, at)))
  {
    StoreU16(s, at);
    StoreU16(s, at + 2);
    TwoWords(s, at);
    StoreWord(s, at, U32(s, at), U16(s, at), U16(s, at + 2));
  }

  lemma StoreWord(s: seq<bv8>, at: nat, n: u32, low: u16, high: u16)
    requires n == low + 0x1_0000 * high && At(s, at, FromU16(low)) && At(s, at + 2, FromU16(high))
    ensures At(s, at, FromU32(n))
  {
    WordHalves(low, high);
    AtJoin(s, at, FromU16(low), FromU16(high));
  }

  lemma StoreU64(s: seq<bv8>, at: nat)
    requires at + 8 <= |s|
    ensures At(s, at, FromU64(U64(s, at)))
  {
    StoreU32(s, at);
    StoreU32(s, at + 4);
    TwoLongs(s, at);
    StoreLong(s, at, U64(s, at), U32(s, at), U32(s, at + 4));
  }

  lemma StoreLong(s: seq<bv8>, at: nat, n: u64, low: u32, high: u32)
    requires n == low + 0x1_0000_0000 * high && At(s, at, FromU32(low)) && At(s, at + 4, FromU32(high))
    ensures At(s, at, FromU64(n))
  {
    LongHalves(low, high);
    AtJoin(s, at, FromU32(low), FromU32(high));
  }

  lemma ZeroByte()
    ensures ToByte(0) == 0
  {
  }

  /** Conversions to signed types keep the bits. */
  function Int16(n: u16): int { if n < 0x8000 then n else n - 0x1_0000 }
  function Int32(n: u32): int { if n < 0x8000_0000 then n else n - 0x1_0000_0000 }
  function Int64(n: u64): int { if n < 0x8000_0000_0000_0000 then n else n - 0x1_0000_0000_0000_0000 }

  /** So they give back what was stored of a signed number. */
  lemma SignedBack(n: int)
    ensures -0x8000 <= n < 0x8000 ==> Int16(n % 0x1_0000) == n
    ensures -0x8000_0000 <= n < 0x8000_0000 ==> Int32(n % 0x1_0000_0000) == n
    ensures -0x8000_0000_0000_0000 <= n < 0x8000_0000_0000_0000 ==> Int64(n % 0x1_0000_0000_0000_0000) == n
  {
  }

  // ---- cursors ----

  /** Writes numbers one behind the other. */
  class DataWriter {
    const buf: array<bv8>
    const end: nat
    var pos: nat

    ghost predicate Valid()
      reads this
    {
      pos <= end <= buf.Length
    }

    ghost function Written(): seq<bv8>
      requires Valid()
      reads this, buf
    {
      buf[..pos]
    }

    constructor (buf: array<bv8>, len: nat)
      requires len <= buf.Length
      ensures Valid() && this.buf == buf && end == len && Written() == [] && pos == 0
    {
      this.buf := buf;
      end := len;
      pos := 0;
    }

    /** Stores bytes at the cursor and moves it behind them. */
    method Put(bytes: seq<bv8>)
      requires Valid() && pos + |bytes| <= end
      modifies this`pos, buf
      ensures Valid() && pos == old(pos) + |bytes| && Written() == old(Written()) + bytes
      ensures forall k :: pos <= k < buf.Length ==> buf[k] == old(buf[k])
    {
      forall k | 0 <= k < |bytes| {
        buf[pos + k] := bytes[k];
      }
      pos := pos + |bytes|;
    }

    method U8(n: bv8)
      requires Valid() && pos + 1 <= end
      modifies this`pos, buf
      ensures Valid() && pos == old(pos) + 1 && Written() == old(Written()) + [n]
      ensures forall k :: pos <= k < buf.Length ==> buf[k] == old(buf[k])
    {
      Put([n]);
    }

    method U16le(n: u16)
      requires Valid() && pos + 2 <= end
      modifies this`pos, buf
      ensures Valid() && pos == old(pos) + 2 && Written() == old(Written()) + FromU16(n)
      ensures forall k :: pos <= k < buf.Length ==> buf[k] == old(buf[k])
    {
      Put(FromU16(n));
    }

    method U32le(n: u32)
      requires Valid() && pos + 4 <= end
      modifies this`pos, buf
      ensures Valid() && pos == old(pos) + 4 && Written() == old(Written()) + FromU32(n)
      ensures forall k :: pos <= k < buf.Length ==> buf[k] == old(buf[k])
    {
      Put(FromU32(n));
    }
  }

  /** Reads numbers one behind the other. Every read asserts that its bytes are there; the one of a
      single byte asks for one byte more than it takes. */
  class DataReader {
    const buf: seq<bv8>
    const end: nat
    var pos: nat

    ghost predicate Valid()
      reads this
    {
      pos <= end <= |buf|
    }

    constructor (buf: seq<bv8>, at: nat, len: nat)
      requires at + len <= |buf|
      ensures Valid() && this.buf == buf && pos == at && end == at + len
    {
      this.buf := buf;
      pos := at;
      end := at + len;
    }

    method U8() returns (n: u8)
      requires Valid() && pos + 1 < end
      modifies this`pos
      ensures Valid() && pos == old(pos) + 1 && n == Value(buf[old(pos)])
    {
      n := Value(buf[pos]);
      pos := pos + 1;
    }

    method U16le() returns (n: u16)
      requires Valid() && pos + 2 <= end
      modifies this`pos
      ensures Valid() && pos == old(pos) + 2 && n == U16(buf, old(pos))
    {
      n := U16(buf, pos);
      pos := pos + 2;
    }

    method U32le() returns (n: u32)
      requires Valid() && pos + 4 <= end
      modifies this`pos
      ensures Valid() && pos == old(pos) + 4 && n == U32(buf, old(pos))
    {
      n := U32(buf, pos);
      pos := pos + 4;
    }

    method U64le() returns (n: u64)
      requires Valid() && pos + 8 <= end
      modifies this`pos
      ensures Valid() && pos == old(pos) + 8 && n == U64(buf, old(pos))
    {
      n := U64(buf, pos);
      pos := pos + 8;
    }
  }
}
