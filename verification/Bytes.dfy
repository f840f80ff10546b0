/** Bytes as numbers. */
module Bytes {

  /** The number below 2 to the power of `k`, as a byte, lowest bit first. */
  function BitsOf(n: nat, k: nat): bv8 {
    if k == 0 then 0 else LowBit(n % 2 == 1) | (BitsOf(n / 2, k - 1) << 1)
  }

  function LowBit(on: bool): bv8 { if on then 0x01 else 0x00 }

  /** The value of the lowest `k` bits. */
  function ValueOf(b: bv8, k: nat): nat {
    if k == 0 then 0 else (if b & 0x01 == 0x01 then 1 else 0) + 2 * ValueOf(b >> 1, k - 1)
  }

  /** The byte with value `n`. */
  function ToByte(n: nat): bv8
    requires n < 256
  {
    BitsOf(n, 8)
  }

  /** The value of a byte. */
  function Value(b: bv8): (n: nat)
    ensures n < 256
  {
    b as nat
  }

  lemma LowestBit(b: bv8)
    ensures Value(b) == (if b & 0x01 == 0x01 then 1 else 0) + 2 * Value(b >> 1)
  {
  }

  lemma {:induction false} ValueIsValueOf(b: bv8, k: nat)
    requires Fits(b, k)
    ensures Value(b) == ValueOf(b, k)
  {
    if k > 0 {
      ValueIsValueOf(b >> 1, k - 1);
      LowestBit(b);
    }
  }

  function Pow2(k: nat): nat { if k == 0 then 1 else 2 * Pow2(k - 1) }

  lemma Powers()
    ensures Pow2(8) == 256
  {
    assert Pow2(2) == 4 && Pow2(4) == 16 && Pow2(6) == 64;
  }

  /** All but the lowest `k` bits are zero. */
  predicate Fits(b: bv8, k: nat) {
    if k == 0 then b == 0 else Fits(b >> 1, k - 1)
  }

  lemma {:induction false} FitsMore(b: bv8, k: nat)
    requires Fits(b, k)
    ensures Fits(b, k + 1)
  {
    if k > 0 {
      FitsMore(b >> 1, k - 1);
    } else {
      assert b >> 1 == 0;
    }
  }

  lemma {:induction false} FitsUpTo(b: bv8, j: nat, k: nat)
    requires j <= k && Fits(b, j)
    ensures Fits(b, k)
    decreases k - j
  {
    if j < k {
      FitsMore(b, j);
      FitsUpTo(b, j + 1, k);
    }
  }

  lemma FitsStep(b: bv8, k: nat)
    requires k > 0
    ensures Fits(b, k) <==> Fits(b >> 1, k - 1)
  {
  }

  lemma SevenShifts(b: bv8)
    ensures b >> 1 >> 1 >> 1 >> 1 >> 1 >> 1 >> 1 == 0 <==> b & 0x80 == 0
    ensures b >> 1 >> 1 >> 1 >> 1 >> 1 >> 1 >> 1 >> 1 == 0
  {
  }

  lemma SevenBits(b: bv8)
    ensures Fits(b, 7) <==> b & 0x80 == 0
    ensures Fits(b, 8)
  {
    SevenShifts(b);
    FitsDown(b, 7);
    FitsDown(b, 8);
    FitsStep(b >> 1 >> 1 >> 1 >> 1 >> 1 >> 1, 1);
    FitsStep(b >> 1 >> 1 >> 1 >> 1 >> 1 >> 1, 2);
    FitsStep(b >> 1 >> 1 >> 1 >> 1 >> 1 >> 1 >> 1, 1);
  }

  lemma FitsDown(b: bv8, k: nat)
    requires k >= 6
    ensures Fits(b, k) <==> Fits(b >> 1 >> 1 >> 1 >> 1 >> 1 >> 1, k - 6)
  {
    FitsStep(b, k);
    FitsStep(b >> 1, k - 1);
    FitsStep(b >> 1 >> 1, k - 2);
    FitsStep(b >> 1 >> 1 >> 1, k - 3);
    FitsStep(b >> 1 >> 1 >> 1 >> 1, k - 4);
    FitsStep(b >> 1 >> 1 >> 1 >> 1 >> 1, k - 5);
  }

  lemma Shifted(x: bv8, on: bool)
    requires x & 0x80 == 0
    ensures (LowBit(on) | (x << 1)) >> 1 == x
    ensures (LowBit(on) | (x << 1)) & 0x01 == LowBit(on)
  {
  }

  lemma Reassembled(b: bv8)
    ensures b == LowBit(b & 0x01 == 0x01) | ((b >> 1) << 1)
  {
  }

  lemma {:induction false} ValueOfBits(n: nat, k: nat)
    requires k <= 8 && n < Pow2(k)
    ensures ValueOf(BitsOf(n, k), k) == n && Fits(BitsOf(n, k), k)
  {
    if k > 0 {
      var x := BitsOf(n / 2, k - 1);
      ValueOfBits(n / 2, k - 1);
      FitsUpTo(x, k - 1, 7);
      SevenBits(x);
      Shifted(x, n % 2 == 1);
    }
  }

  lemma HalfAndRest(on: bool, m: nat)
    ensures var n := (if on then 1 else 0) + 2 * m; n / 2 == m && (n % 2 == 1 <==> on)
  {
  }

  lemma {:induction false} BitsOfValue(b: bv8, k: nat)
    requires Fits(b, k)
    ensures BitsOf(ValueOf(b, k), k) == b
  {
    if k > 0 {
      BitsOfValue(b >> 1, k - 1);
      Reassembled(b);
      HalfAndRest(b & 0x01 == 0x01, ValueOf(b >> 1, k - 1));
    }
  }

  lemma ByteValue(n: nat)
    requires n < 256
    ensures Value(ToByte(n)) == n
  {
    Powers();
    ValueOfBits(n, 8);
    ValueIsValueOf(ToByte(n), 8);
  }

  lemma ValueByte(b: bv8)
    ensures ToByte(Value(b)) == b
  {
    SevenBits(b);
    ValueIsValueOf(b, 8);
    BitsOfValue(b, 8);
  }
}
