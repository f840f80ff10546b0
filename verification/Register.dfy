/** Byte-fed registers in general: what a step function keeps when it is run over a buffer. */
module Register {

  /** The register after the symbols of `s`. */
  function Run<S, B>(step: (S, B) -> S, c: S, s: seq<B>): S
    decreases |s|
  {
    if s == [] then c else Run(step, step(c, s[0]), s[1..])
  }

  lemma {:induction false} RunConcat<S, B>(step: (S, B) -> S, c: S, a: seq<B>, b: seq<B>)
    ensures Run(step, c, a + b) == Run(step, Run(step, c, a), b)
    decreases |a|
  {
    if a == [] {
      assert a + b == b;
    } else {
      RunConcat(step, step(c, a[0]), a[1..], b);
      assert (a + b)[1..] == a[1..] + b;
    }
  }

  lemma RunOne<S, B>(step: (S, B) -> S, c: S, b: B)
    ensures Run(step, c, [b]) == step(c, b)
  {
    assert Run(step, step(c, b), []) == step(c, b);
  }

  lemma RunSnoc<S, B>(step: (S, B) -> S, c: S, a: seq<B>, b: B)
    ensures Run(step, c, a + [b]) == step(Run(step, c, a), b)
  {
    RunConcat(step, c, a, [b]);
    RunOne(step, Run(step, c, a), b);
  }

  /** Two steps that agree everywhere run alike. */
  lemma {:induction false} RunSame<S, B>(step: (S, B) -> S, other: (S, B) -> S, c: S, s: seq<B>)
    requires forall c, b :: step(c, b) == other(c, b)
    ensures Run(step, c, s) == Run(other, c, s)
    decreases |s|
  {
    if s != [] {
      RunSame(step, other, step(c, s[0]), s[1..]);
    }
  }

  // ---- linear steps ----

  /** Two buffers of equal length added symbol by symbol. */
  function Zip<B>(add: (B, B) -> B, a: seq<B>, b: seq<B>): (x: seq<B>)
    requires |a| == |b|
    ensures |x| == |a|
    ensures forall i :: 0 <= i < |a| ==> x[i] == add(a[i], b[i])
  {
    if a == [] then [] else [add(a[0], b[0])] + Zip(add, a[1..], b[1..])
  }

  predicate LinearAt<S(==), B>(step: (S, B) -> S, plus: (S, S) -> S, add: (B, B) -> B, c: S, d: S, a: B, b: B) {
    step(plus(c, d), add(a, b)) == plus(step(c, a), step(d, b))
  }

  ghost predicate Linear<S(!new), B(!new)>(step: (S, B) -> S, plus: (S, S) -> S, add: (B, B) -> B) {
    forall c, d, a, b :: LinearAt(step, plus, add, c, d, a, b)
  }

  lemma {:induction false} RunLinear<S(!new), B(!new)>(
      step: (S, B) -> S, plus: (S, S) -> S, add: (B, B) -> B, c: S, d: S, a: seq<B>, b: seq<B>)
    requires Linear(step, plus, add) && |a| == |b|
    ensures Run(step, plus(c, d), Zip(add, a, b)) == plus(Run(step, c, a), Run(step, d, b))
    decreases |a|
  {
    if a != [] {
      assert LinearAt(step, plus, add, c, d, a[0], b[0]);
      RunLinear(step, plus, add, step(c, a[0]), step(d, b[0]), a[1..], b[1..]);
      assert Zip(add, a, b)[1..] == Zip(add, a[1..], b[1..]);
    }
  }

  // ---- reversible steps ----

  predicate InverseAt<S(==), B>(step: (S, B) -> S, back: (S, B) -> S, c: S, b: B) {
    back(step(c, b), b) == c && step(back(c, b), b) == c
  }

  ghost predicate Inverse<S(!new), B(!new)>(step: (S, B) -> S, back: (S, B) -> S) {
    forall c, b :: InverseAt(step, back, c, b)
  }

  /** Runs the register backwards over `s`, last symbol first. */
  function RunBack<S, B>(back: (S, B) -> S, c: S, s: seq<B>): S
    decreases |s|
  {
    if s == [] then c else back(RunBack(back, c, s[1..]), s[0])
  }

  /** A buffer permutes the register states, and running backwards is the inverse permutation. */
  lemma {:induction false} RunReversible<S(!new), B(!new)>(step: (S, B) -> S, back: (S, B) -> S, c: S, s: seq<B>)
    requires Inverse(step, back)
    ensures RunBack(back, Run(step, c, s), s) == c
    ensures Run(step, RunBack(back, c, s), s) == c
    decreases |s|
  {
    if s != [] {
      assert InverseAt(step, back, c, s[0]);
      assert InverseAt(step, back, RunBack(back, c, s[1..]), s[0]);
      RunReversible(step, back, step(c, s[0]), s[1..]);
      RunReversible(step, back, c, s[1..]);
    }
  }

  lemma RunInjective<S(!new), B(!new)>(step: (S, B) -> S, back: (S, B) -> S, c: S, d: S, s: seq<B>)
    requires Inverse(step, back)
    ensures Run(step, c, s) == Run(step, d, s) <==> c == d
  {
    RunReversible(step, back, c, s);
    RunReversible(step, back, d, s);
  }

  function Repeat<B>(z: B, n: nat): (r: seq<B>)
    ensures |r| == n
    ensures forall i :: 0 <= i < n ==> r[i] == z
  {
    if n == 0 then [] else [z] + Repeat(z, n - 1)
  }

  lemma {:induction false} RunStays<S, B>(step: (S, B) -> S, c: S, z: B, n: nat)
    requires step(c, z) == c
    ensures Run(step, c, Repeat(z, n)) == c
  {
    if n > 0 {
      assert Repeat(z, n)[1..] == Repeat(z, n - 1);
      RunStays(step, c, z, n - 1);
    }
  }

  // ---- invariants of a register ----

  predicate CarriesAt<S, B>(step: (S, B) -> S, mark: S -> bool, odd: B -> bool, c: S, b: B) {
    mark(step(c, b)) == (mark(c) != odd(b))
  }

  /** `mark` of the state flips with every symbol that is `odd`, and with nothing else. */
  ghost predicate Carries<S(!new), B(!new)>(step: (S, B) -> S, mark: S -> bool, odd: B -> bool) {
    forall c, b :: CarriesAt(step, mark, odd, c, b)
  }

  /** Whether an odd number of symbols of `s` is `odd`. */
  predicate OddCount<B>(odd: B -> bool, s: seq<B>) {
    if s == [] then false else odd(s[0]) != OddCount(odd, s[1..])
  }

  lemma {:induction false} RunCarries<S(!new), B(!new)>(step: (S, B) -> S, mark: S -> bool, odd: B -> bool, c: S, s: seq<B>)
    requires Carries(step, mark, odd)
    ensures mark(Run(step, c, s)) == (mark(c) != OddCount(odd, s))
    decreases |s|
  {
    if s != [] {
      assert CarriesAt(step, mark, odd, c, s[0]);
      RunCarries(step, mark, odd, step(c, s[0]), s[1..]);
    }
  }
}
