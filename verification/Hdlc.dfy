/** The byte level of src/smanet.cpp: byte stuffing (RFC 1662, section 4.2), and a decoder that
    reads a whole stream in one pass. The chunked reader is proved against this decoder. */
module Hdlc {
  import opened Fcs

  const ACCM: bv32 := 0x000E0000
  const HDLC_ESC: bv8 := 0x7d
  const HDLC_SYNC: bv8 := 0x7e

  // ---- stuffing ----

  /** The control bytes the asynchronous control character map selects. */
  predicate Mapped(b: bv8) {
    b < 0x20 && ACCM & ((1 as bv32) << b) != 0
  }

  /** The bytes that must not appear on the line as they are. */
  predicate Special(b: bv8) {
    b == 0x11 || b == 0x12 || b == 0x13 || b == HDLC_ESC || b == HDLC_SYNC
  }

  /** The map 0x000E0000 selects DC1, DC2 and DC3 and nothing else. */
  lemma SpecialBytes(b: bv8)
    ensures Special(b) <==> Mapped(b) || b == HDLC_ESC || b == HDLC_SYNC
  {
  }

  function StuffByte(b: bv8): (s: seq<bv8>)
    ensures 1 <= |s| <= 2
  {
    if Special(b) then [HDLC_ESC, b ^ 0x20] else [b]
  }

  function Stuff(s: seq<bv8>): (t: seq<bv8>)
    ensures |s| <= |t| <= 2 * |s|
  {
    if s == [] then [] else StuffByte(s[0]) + Stuff(s[1..])
  }

  lemma {:induction false} StuffConcat(a: seq<bv8>, b: seq<bv8>)
    ensures Stuff(a + b) == Stuff(a) + Stuff(b)
    decreases |a|
  {
    if a == [] {
      assert a + b == b;
    } else {
      assert (a + b)[1..] == a[1..] + b;
      StuffConcat(a[1..], b);
    }
  }

  /** One round of the stuffing loop: byte `b` goes to `out[k..]`. */
  method PutStuffed(b: bv8, out: array<bv8>, k: nat) returns (n: nat)
    requires k + 2 <= out.Length
    modifies out
    ensures n == |StuffByte(b)|
    ensures out[..k + n] == old(out[..k]) + StuffByte(b)
  {
    SpecialBytes(b);
    if Mapped(b) || b == HDLC_ESC || b == HDLC_SYNC {
      out[k] := HDLC_ESC;
      out[k + 1] := b ^ 0x20;
      n := 2;
    } else {
      out[k] := b;
      n := 1;
    }
  }

  /** `done` followed by what the rest of `src` from `i` on still adds makes `all`. */
  ghost predicate Leads(done: seq<bv8>, src: seq<bv8>, i: nat, all: seq<bv8>) {
    i <= |src| && done + Stuff(src[i..]) == all
  }

  lemma LeadsOn(done: seq<bv8>, src: seq<bv8>, i: nat, all: seq<bv8>)
    requires i < |src| && Leads(done, src, i, all)
    ensures Leads(done + StuffByte(src[i]), src, i + 1, all)
    ensures |done + StuffByte(src[i])| <= |done| + 2
  {
    assert src[i..][1..] == src[i + 1..];
    assert done + StuffByte(src[i]) + Stuff(src[i + 1..]) == done + (StuffByte(src[i]) + Stuff(src[i + 1..]));
  }

  lemma LeadsFrom(done: seq<bv8>, src: seq<bv8>)
    ensures Leads(done, src, 0, done + Stuff(src))
  {
    assert src[0..] == src;
  }

  lemma LeadsToEnd(done: seq<bv8>, src: seq<bv8>, all: seq<bv8>)
    requires Leads(done, src, |src|, all)
    ensures done == all
  {
    assert src[|src|..] == [];
    assert done + [] == done;
  }

  /** Writes the stuffed form of `input[..len]` to `out[at..]`. */
  method AddHdlc(input: array<bv8>, len: nat, out: array<bv8>, at: nat) returns (pos: nat)
    requires len <= 255 && len <= input.Length && at + 2 * len <= out.Length && input != out
    modifies out
    ensures pos == |Stuff(input[..len])|
    ensures out[..at + pos] == old(out[..at]) + Stuff(input[..len])
  {
    ghost var src, done, all := input[..len], out[..at], out[..at] + Stuff(input[..len]);
    LeadsFrom(done, src);
    pos := 0;
    var i := 0;
    while i < len
      invariant 0 <= i <= len && pos <= 2 * i
      invariant input[..len] == src
      invariant out[..at + pos] == done
      invariant Leads(done, src, i, all)
    {
      LeadsOn(done, src, i, all);
      done := done + StuffByte(src[i]);
      var n := PutStuffed(input[i], out, at + pos);
      pos := pos + n;
      i := i + 1;
    }
    LeadsToEnd(done, src, all);
  }

  function Specials(s: seq<bv8>): nat {
    if s == [] then 0 else (if Special(s[0]) then 1 else 0) + Specials(s[1..])
  }

  lemma {:induction false} StuffLength(s: seq<bv8>)
    ensures |Stuff(s)| == |s| + Specials(s)
  {
    if s != [] {
      StuffLength(s[1..]);
    }
  }

  /** Stuffed bytes: no flag and no mapped control byte, every escape followed by a byte that is
      itself harmless. */
  predicate Clean(t: seq<bv8>) {
    && (forall i :: 0 <= i < |t| ==> Special(t[i]) ==> t[i] == HDLC_ESC)
    && (forall i :: 0 <= i < |t| && t[i] == HDLC_ESC ==> i + 1 < |t| && !Special(t[i + 1]))
  }

  lemma EscapedIsHarmless(b: bv8)
    requires Special(b)
    ensures !Special(b ^ 0x20) && (b ^ 0x20) ^ 0x20 == b
  {
  }

  lemma {:induction false} StuffIsClean(s: seq<bv8>)
    ensures Clean(Stuff(s))
  {
    if s != [] {
      StuffIsClean(s[1..]);
      var h, t := StuffByte(s[0]), Stuff(s[1..]);
      if Special(s[0]) {
        EscapedIsHarmless(s[0]);
      }
      forall i | 0 <= i < |h + t| ensures Special((h + t)[i]) ==> (h + t)[i] == HDLC_ESC {
        assert i >= |h| ==> (h + t)[i] == t[i - |h|];
      }
      forall i | 0 <= i < |h + t| && (h + t)[i] == HDLC_ESC
        ensures i + 1 < |h + t| && !Special((h + t)[i + 1]) {
        assert i >= |h| ==> (h + t)[i] == t[i - |h|];
        assert i >= |h| && i + 1 < |h + t| ==> (h + t)[i + 1] == t[i + 1 - |h|];
      }
    }
  }

  // ---- unescaping ----

  /** One content byte can be taken off the front: no flag, and no escape without its byte. */
  predicate Ready(x: seq<bv8>) {
    x != [] && x[0] != HDLC_SYNC && (x[0] == HDLC_ESC ==> |x| >= 2)
  }

  function Flip(b: bv8): bv8 { b ^ 0x20 }

  /** The content byte at the front, and how many bytes of the line it takes. */
  function First(x: seq<bv8>): bv8
    requires Ready(x)
  {
    if x[0] == HDLC_ESC then Flip(x[1]) else x[0]
  }

  function Taken(x: seq<bv8>): (n: nat)
    requires Ready(x)
    ensures 1 <= n <= 2 && n <= |x|
  {
    if x[0] == HDLC_ESC then 2 else 1
  }

  lemma ReadyExtends(a: seq<bv8>, b: seq<bv8>)
    requires Ready(a)
    ensures Ready(a + b) && First(a + b) == First(a) && Taken(a + b) == Taken(a)
    ensures (a + b)[Taken(a)..] == a[Taken(a)..] + b
  {
  }

  /** A body between flags: no flag byte inside, no escape cut off at the end. */
  predicate Escaped(x: seq<bv8>)
    decreases |x|
  {
    x == [] || (Ready(x) && Escaped(x[Taken(x)..]))
  }

  function Unescape(x: seq<bv8>): (c: seq<bv8>)
    requires Escaped(x)
    ensures |c| <= |x|
    ensures x != [] ==> c != []
    decreases |x|
  {
    if x == [] then [] else [First(x)] + Unescape(x[Taken(x)..])
  }

  lemma {:induction false} EscapedConcat(a: seq<bv8>, b: seq<bv8>)
    requires Escaped(a) && Escaped(b)
    ensures Escaped(a + b) && Unescape(a + b) == Unescape(a) + Unescape(b)
    decreases |a|
  {
    if a == [] {
      assert a + b == b;
    } else {
      ReadyExtends(a, b);
      EscapedConcat(a[Taken(a)..], b);
    }
  }

  lemma {:induction false} PlainIsEscaped(a: seq<bv8>)
    requires forall i :: 0 <= i < |a| ==> a[i] != HDLC_ESC && a[i] != HDLC_SYNC
    ensures Escaped(a) && Unescape(a) == a
  {
    if a != [] {
      PlainIsEscaped(a[1..]);
      assert [a[0]] + a[1..] == a;
    }
  }

  lemma StuffedByte(b: bv8)
    ensures var t := StuffByte(b); Ready(t) && First(t) == b && Taken(t) == |t|
  {
    if Special(b) {
      EscapedIsHarmless(b);
    }
  }

  lemma StuffedHead(s: seq<bv8>)
    requires s != []
    ensures var t := Stuff(s); Ready(t) && First(t) == s[0] && t[Taken(t)..] == Stuff(s[1..])
  {
    var h := StuffByte(s[0]);
    StuffedByte(s[0]);
    ReadyExtends(h, Stuff(s[1..]));
    assert h[|h|..] + Stuff(s[1..]) == Stuff(s[1..]);
  }

  /** Unescaping inverts stuffing, so stuffing loses nothing. */
  lemma {:induction false} UnescapeStuff(s: seq<bv8>)
    ensures Escaped(Stuff(s)) && Unescape(Stuff(s)) == s
  {
    if s != [] {
      UnescapeStuff(s[1..]);
      StuffedHead(s);
      assert [s[0]] + s[1..] == s;
    }
  }

  lemma StuffInjective(a: seq<bv8>, b: seq<bv8>)
    requires Stuff(a) == Stuff(b)
    ensures a == b
  {
    UnescapeStuff(a);
    UnescapeStuff(b);
  }

  // ---- the one-pass decoder ----

  /** What the next frame of a stream is: its unescaped content and the stream behind it, which
      still has the closing flag; no complete frame; or one that outgrows the frame buffer. */
  datatype Scan = Frame(content: seq<bv8>, rest: seq<bv8>) | Incomplete | TooBig(rest: seq<bv8>)

  /** Scans `s` with the bytes `acc` of the current frame already unescaped. An escape at the very
      end of the stream takes up its place in the frame although its byte is missing. */
  function ScanFrom(acc: seq<bv8>, s: seq<bv8>): Scan
    decreases |s|
  {
    if |acc| >= FRAME_SIZE then TooBig(s)
    else if s == [] then Incomplete
    else if s[0] == HDLC_SYNC then
      if acc == [] then ScanFrom([], s[1..]) else Frame(acc, s)
    else if Ready(s) then ScanFrom(acc + [First(s)], s[Taken(s)..])
    else if |acc| + 1 >= FRAME_SIZE then TooBig([]) else Incomplete
  }

  function ScanStream(s: seq<bv8>): Scan { ScanFrom([], s) }

  /** A frame ends at a flag, which stays in the stream, and takes at least one byte before it. */
  lemma {:induction false} FrameEndsAtFlag(acc: seq<bv8>, s: seq<bv8>)
    requires ScanFrom(acc, s).Frame?
    ensures var f := ScanFrom(acc, s);
      && 1 <= |f.content| < FRAME_SIZE
      && f.rest != [] && f.rest[0] == HDLC_SYNC
      && |f.rest| <= |s| && (acc == [] ==> |f.rest| < |s|)
    decreases |s|
  {
    if s[0] == HDLC_SYNC {
      if acc == [] {
        FrameEndsAtFlag([], s[1..]);
      }
    } else {
      FrameEndsAtFlag(acc + [First(s)], s[Taken(s)..]);
    }
  }

  lemma ScanStep(acc: seq<bv8>, s: seq<bv8>)
    requires Ready(s) && |acc| < FRAME_SIZE
    ensures ScanFrom(acc, s) == ScanFrom(acc + [First(s)], s[Taken(s)..])
  {
  }

  /** Scanning a body only collects its bytes. */
  lemma {:induction false} ScanOn(acc: seq<bv8>, x: seq<bv8>, s: seq<bv8>)
    requires Escaped(x) && |acc| + |Unescape(x)| < FRAME_SIZE
    ensures ScanFrom(acc, x + s) == ScanFrom(acc + Unescape(x), s)
    decreases |x|
  {
    if x == [] {
      assert x + s == s && acc + Unescape(x) == acc;
    } else {
      ReadyExtends(x, s);
      var tail := x[Taken(x)..];
      ScanStep(acc, x + s);
      ScanOn(acc + [First(x)], tail, s);
      assert acc + [First(x)] + Unescape(tail) == acc + Unescape(x);
    }
  }

  /** A body of valid size followed by a flag is one frame. */
  lemma ScanBody(x: seq<bv8>, rest: seq<bv8>)
    requires Escaped(x) && 1 <= |Unescape(x)| < FRAME_SIZE
    ensures ScanStream(x + ([HDLC_SYNC] + rest)) == Frame(Unescape(x), [HDLC_SYNC] + rest)
  {
    ScanOn([], x, [HDLC_SYNC] + rest);
    assert [] + Unescape(x) == Unescape(x);
  }

  lemma SkipFlag(s: seq<bv8>)
    ensures ScanStream([HDLC_SYNC] + s) == ScanStream(s)
  {
    assert ([HDLC_SYNC] + s)[1..] == s;
  }
}
