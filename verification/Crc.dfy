/** The 16-bit checksum as a shift register fed one bit at a time, least significant bit first.
    This is the definition the byte-wise program is proved against; everything said about error
    detection is proved here. */
module Crc {
  import opened Register

  const ZERO: seq<bool> := [false, false, false, false, false, false, false, false,
                            false, false, false, false, false, false, false, false]

  /** Register contents, bit 0 first. */
  type Reg = r: seq<bool> | |r| == 16 witness ZERO

  /** The taps of the reflected polynomial 0x8408. */
  predicate Tap(i: int) { i == 3 || i == 10 || i == 15 }

  function Shifted(r: Reg, i: nat): bool { i < 15 && r[i + 1] }

  /** Shifts right; the bit that falls out, combined with the input, is fed back at the taps. */
  function BitStep(r: Reg, input: bool): (n: Reg)
    ensures forall i :: 0 <= i < 16 ==> n[i] == (Shifted(r, i) != (Tap(i) && r[0] != input))
  {
    seq(16, i requires 0 <= i < 16 => Shifted(r, i) != (Tap(i) && r[0] != input))
  }

  function Xor(r: Reg, q: Reg): (n: Reg)
    ensures forall i :: 0 <= i < 16 ==> n[i] == (r[i] != q[i])
  {
    seq(16, i requires 0 <= i < 16 => r[i] != q[i])
  }

  function XorBit(a: bool, b: bool): bool { a != b }

  /** The register after the bits of `w`. */
  function Feed(r: Reg, w: seq<bool>): Reg {
    Run(BitStep, r, w)
  }

  // ---- linear ----

  lemma BitStepLinear(r: Reg, q: Reg, a: bool, b: bool)
    ensures BitStep(Xor(r, q), XorBit(a, b)) == Xor(BitStep(r, a), BitStep(q, b))
  {
  }

  /** The register is linear: sums of states fed sums of inputs reach the sum of the results. */
  lemma FeedLinear(r: Reg, q: Reg, a: seq<bool>, b: seq<bool>)
    requires |a| == |b|
    ensures Feed(Xor(r, q), Zip(XorBit, a, b)) == Xor(Feed(r, a), Feed(q, b))
  {
    forall c, d, x, y ensures LinearAt(BitStep, Xor, XorBit, c, d, x, y) {
      BitStepLinear(c, d, x, y);
    }
    RunLinear(BitStep, Xor, XorBit, r, q, a, b);
  }

  // ---- reversible ----

  /** The last register bit shows what was fed back, so a step can be undone. */
  function BitBack(r: Reg, input: bool): (n: Reg) {
    seq(16, i requires 0 <= i < 16 =>
      if i == 0 then r[15] != input else r[i - 1] != (Tap(i - 1) && r[15]))
  }

  lemma BitBackInverts(r: Reg, input: bool)
    ensures BitBack(BitStep(r, input), input) == r
    ensures BitStep(BitBack(r, input), input) == r
  {
  }

  lemma BitStepReversible()
    ensures Inverse(BitStep, BitBack)
  {
    forall r, b ensures InverseAt(BitStep, BitBack, r, b) {
      BitBackInverts(r, b);
    }
  }

  lemma FeedInjective(r: Reg, q: Reg, w: seq<bool>)
    ensures Feed(r, w) == Feed(q, w) <==> r == q
  {
    BitStepReversible();
    RunInjective(BitStep, BitBack, r, q, w);
  }

  // ---- up to sixteen input bits can be added to the register beforehand ----

  function Pad(w: seq<bool>): (r: Reg)
    requires |w| <= 16
    ensures forall i :: 0 <= i < 16 ==> r[i] == (i < |w| && w[i])
  {
    seq(16, i requires 0 <= i < 16 => i < |w| && w[i])
  }

  /** Adding `w` up front, or its first bit now and the rest after the step, is the same. */
  lemma AbsorbOne(r: Reg, w: seq<bool>)
    requires 0 < |w| <= 16
    ensures BitStep(Xor(r, Pad(w)), false) == Xor(BitStep(r, w[0]), Pad(w[1..]))
  {
    var n, m := BitStep(Xor(r, Pad(w)), false), Xor(BitStep(r, w[0]), Pad(w[1..]));
    forall i | 0 <= i < 16 ensures n[i] == m[i] {
      if i < 15 {
        assert Pad(w)[i + 1] == Pad(w[1..])[i];
      }
    }
  }

  lemma {:induction false} Absorb(r: Reg, w: seq<bool>)
    requires |w| <= 16
    ensures Feed(r, w) == Feed(Xor(r, Pad(w)), Repeat(false, |w|))
    decreases |w|
  {
    if w == [] {
      assert Xor(r, Pad(w)) == r;
    } else {
      var z := Repeat(false, |w|);
      assert z[1..] == Repeat(false, |w| - 1);
      AbsorbOne(r, w);
      Absorb(BitStep(r, w[0]), w[1..]);
    }
  }

  /** Two different inputs of equal length, at most sixteen bits, never reach the same state. */
  lemma ShortInputsInjective(r: Reg, v: seq<bool>, w: seq<bool>)
    requires |v| == |w| <= 16 && Feed(r, v) == Feed(r, w)
    ensures v == w
  {
    Absorb(r, v);
    Absorb(r, w);
    FeedInjective(Xor(r, Pad(v)), Xor(r, Pad(w)), Repeat(false, |v|));
    forall i | 0 <= i < |v| ensures v[i] == w[i] {
      assert Xor(r, Pad(v))[i] == Xor(r, Pad(w))[i];
    }
  }

  // ---- error detection ----

  /** All differences between `x` and `y` lie in the sixteen bits from `at` on. */
  ghost predicate DifferInBurst(x: seq<bool>, y: seq<bool>, at: nat) {
    && |x| == |y|
    && forall j :: 0 <= j < |x| && x[j] != y[j] ==> at <= j < at + 16
  }

  /** A burst error of at most sixteen bits always changes the checksum. */
  lemma BurstChangesChecksum(r: Reg, x: seq<bool>, y: seq<bool>, at: nat)
    requires DifferInBurst(x, y, at) && x != y
    ensures Feed(r, x) != Feed(r, y)
  {
    var lo := if at <= |x| then at else |x|;
    var hi := if at + 16 <= |x| then at + 16 else |x|;
    assert x[..lo] == y[..lo] && x[hi..] == y[hi..];
    assert x == x[..lo] + (x[lo..hi] + x[hi..]) && y == y[..lo] + (y[lo..hi] + y[hi..]);
    RunConcat(BitStep, r, x[..lo], x[lo..hi] + x[hi..]);
    RunConcat(BitStep, r, y[..lo], y[lo..hi] + y[hi..]);
    var q := Feed(r, x[..lo]);
    RunConcat(BitStep, q, x[lo..hi], x[hi..]);
    RunConcat(BitStep, q, y[lo..hi], y[hi..]);
    FeedInjective(Feed(q, x[lo..hi]), Feed(q, y[lo..hi]), x[hi..]);
    if Feed(r, x) == Feed(r, y) {
      ShortInputsInjective(q, x[lo..hi], y[lo..hi]);
    }
  }

  predicate OddReg(r: Reg) { OddCount(Id, r) }

  predicate Id(b: bool) { b }

  lemma {:induction false} OddXor(a: seq<bool>, b: seq<bool>)
    requires |a| == |b|
    ensures OddCount(Id, Zip(XorBit, a, b)) == (OddCount(Id, a) != OddCount(Id, b))
  {
    if a != [] {
      assert Zip(XorBit, a, b)[1..] == Zip(XorBit, a[1..], b[1..]);
      OddXor(a[1..], b[1..]);
    }
  }

  lemma {:induction false} OddConcat(a: seq<bool>, b: seq<bool>)
    ensures OddCount(Id, a + b) == (OddCount(Id, a) != OddCount(Id, b))
  {
    if a == [] {
      assert a + b == b;
    } else {
      assert (a + b)[1..] == a[1..] + b;
      OddConcat(a[1..], b);
    }
  }

  /** What is fed back: the taps when the outgoing bit is set. */
  function Taps(out: bool): (t: Reg) {
    [false, false, false, out, false, false, false, false, false, false, out, false, false, false, false, out]
  }

  lemma {:induction false} TapsOdd(out: bool)
    ensures OddCount(Id, Taps(out)) == out
  {
    OddConcat([false, false, false, out], [false, false, false, false] + [false, false, out, false] + [false, false, false, out]);
    OddConcat([false, false, false, false] + [false, false, out, false], [false, false, false, out]);
    OddConcat([false, false, false, false], [false, false, out, false]);
    assert Taps(out) == [false, false, false, out] + ([false, false, false, false] + [false, false, out, false] + [false, false, false, out]);
    OddFour(false, false, false, out);
    OddFour(false, false, false, false);
    OddFour(false, false, out, false);
  }

  lemma OddOne(a: bool, s: seq<bool>)
    ensures OddCount(Id, [a] + s) == (a != OddCount(Id, s))
  {
    assert ([a] + s)[1..] == s;
  }

  lemma OddFour(a: bool, b: bool, c: bool, d: bool)
    ensures OddCount(Id, [a, b, c, d]) == (a != (b != (c != d)))
  {
    OddOne(d, []);
    OddOne(c, [d]);
    OddOne(b, [c, d]);
    OddOne(a, [b, c, d]);
    assert [d] + [] == [d] && [c] + [d] == [c, d] && [b] + [c, d] == [b, c, d] && [a] + [b, c, d] == [a, b, c, d];
  }

  lemma BitStepIsXor(r: Reg, input: bool)
    ensures BitStep(r, input) == Xor(r[1..] + [false], Taps(r[0] != input))
  {
    forall i | 0 <= i < 16 ensures (r[1..] + [false])[i] == Shifted(r, i) {
    }
  }

  lemma XorIsZip(r: Reg, q: Reg)
    ensures Xor(r, q) == Zip(XorBit, r, q)
  {
  }

  /** The polynomial has an even number of terms: a step changes the parity exactly by its input. */
  lemma BitStepParity(r: Reg, input: bool)
    ensures OddReg(BitStep(r, input)) == (OddReg(r) != input)
  {
    var shifted, out := r[1..] + [false], r[0] != input;
    BitStepIsXor(r, input);
    XorIsZip(shifted, Taps(out));
    OddXor(shifted, Taps(out));
    OddConcat(r[1..], [false]);
    OddOne(false, []);
    TapsOdd(out);
    assert [false] + [] == [false];
  }

  /** An odd number of flipped bits, wherever they are, always changes the checksum. */
  lemma OddDamageChangesChecksum(r: Reg, x: seq<bool>, y: seq<bool>)
    requires |x| == |y| && OddCount(Id, Zip(XorBit, x, y))
    ensures Feed(r, x) != Feed(r, y)
  {
    forall q, b ensures CarriesAt(BitStep, OddReg, Id, q, b) {
      BitStepParity(q, b);
    }
    RunCarries(BitStep, OddReg, Id, r, x);
    RunCarries(BitStep, OddReg, Id, r, y);
    OddXor(x, y);
  }
}
