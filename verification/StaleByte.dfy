/** What a single escape does that comes into a used-up buffer: the byte it is combined with is one the
    buffer held before, and its partner is taken for a byte of its own. */
module StaleByte {
  import opened Fcs
  import opened Hdlc
  import opened Fetch
  import opened Common
  import opened Walking
  import opened Smanet
  import opened Session
  import Crc
  import Register

  // ---- what the checksum says about it ----

  /** Different registers stay different under the same bytes. */
  lemma OverInjective(f: bv16, g: bv16, c: seq<bv8>)
    ensures Over(f, c) == Over(g, c) <==> f == g
  {
    var r := Held(f);
    var q := Held(g);
    OverIsFeed(f, c, r);
    OverIsFeed(g, c, q);
    if Over(f, c) == Over(g, c) {
      HoldsUnique(Over(f, c), Crc.Feed(r, ToBits(c)), Crc.Feed(q, ToBits(c)));
      Crc.FeedInjective(r, q, ToBits(c));
      HoldsInjective(f, g, r);
    }
  }

  /** The checksum does not notice, at register `f`, that `y` with the stale byte in front of it stands
      for the escaped `y`. */
  predicate Confused(f: bv16, stale: bv8, y: bv8) {
    Serial(Serial(f, Flip(stale)), y) == Serial(f, Flip(y))
  }

  lemma OverMiddle(pre: seq<bv8>, mid: seq<bv8>, c: seq<bv8>)
    ensures Over(PPP_INIT_FCS, pre + mid + c) == Over(Over(Over(PPP_INIT_FCS, pre), mid), c)
  {
    OverConcat(PPP_INIT_FCS, pre + mid, c);
    OverConcat(PPP_INIT_FCS, pre, mid);
  }

  /** A good frame with the escaped byte replaced is still good exactly if the checksum is confused. */
  lemma StillGoodIff(pre: seq<bv8>, stale: bv8, y: bv8, c: seq<bv8>)
    requires Good(pre + [Flip(y)] + c) && |pre| + 2 + |c| <= FRAME_SIZE
    ensures Good(pre + [Flip(stale), y] + c) <==> Confused(Over(PPP_INIT_FCS, pre), stale, y)
  {
    var f := Over(PPP_INIT_FCS, pre);
    OverMiddle(pre, [Flip(y)], c);
    OverMiddle(pre, [Flip(stale), y], c);
    Register.RunOne(Serial, f, Flip(y));
    OverTwo(f, Flip(stale), y);
    OverInjective(Over(f, [Flip(stale), y]), Over(f, [Flip(y)]), c);
  }

  /** At the start of a frame it never is. */
  lemma NeverConfusedAtStart(stale: bv8, y: bv8)
    ensures !Confused(PPP_INIT_FCS, stale, y)
  {
  }

  // ---- what the reader sees, and what was sent ----

  lemma ScanFront(flags: seq<bv8>, x: seq<bv8>, b: bv8, s: seq<bv8>)
    requires forall k :: 0 <= k < |flags| ==> flags[k] == HDLC_SYNC
    requires Escaped(x) && |Unescape(x)| < FRAME_SIZE
    ensures ScanStream(flags + (x + ([HDLC_ESC, b] + s))) == ScanFrom(Unescape(x) + [Flip(b)], s)
  {
    var rest := x + ([HDLC_ESC, b] + s);
    SkippingKeepsScan(flags, rest, |flags|);
    assert flags[|flags|..] + rest == rest;
    ScanOn([], x, [HDLC_ESC, b] + s);
    assert [] + Unescape(x) == Unescape(x);
    EscapeKeepsScan(Unescape(x), b, s);
  }

  lemma SeenOfSingleEscape(front: seq<bv8>, m: bv8, more: seq<seq<bv8>>)
    requires Kept(front) == [] && Calm(more) && more != []
    ensures Seen(front, m, [[HDLC_ESC]] + more) == front + ([HDLC_ESC, m] + Flat(more))
  {
    var packets := [[HDLC_ESC]] + more;
    assert packets[0] == [HDLC_ESC] && packets[1..] == more;
    NowTakesStale(m, more);
    CalmIsServed([], more);
    SeenIsStreamIff([], m, more);
    assert [] + Flat(more) == Flat(more);
  }

  lemma FlatOfSingleEscape(front: seq<bv8>, more: seq<seq<bv8>>, y: bv8, tail: seq<bv8>)
    requires Flat(more) == [y] + tail
    ensures front + Flat([[HDLC_ESC]] + more) == front + ([HDLC_ESC, y] + tail)
  {
    assert ([[HDLC_ESC]] + more)[1..] == more;
    assert [HDLC_ESC] + ([y] + tail) == [HDLC_ESC, y] + tail;
  }

  /** What was sent as a single escape and the next packet, behind flags and the start of a frame. */
  lemma SentScan(flags: seq<bv8>, x: seq<bv8>, more: seq<seq<bv8>>, y: bv8, tail: seq<bv8>)
    requires forall k :: 0 <= k < |flags| ==> flags[k] == HDLC_SYNC
    requires Escaped(x) && |Unescape(x)| < FRAME_SIZE && Flat(more) == [y] + tail
    ensures ScanStream(flags + x + Flat([[HDLC_ESC]] + more)) == ScanFrom(Unescape(x) + [Flip(y)], tail)
  {
    FlatOfSingleEscape(flags + x, more, y, tail);
    Regroup(flags, x, [HDLC_ESC, y] + tail);
    ScanFront(flags, x, y, tail);
  }

  /** What is seen of it if that much was in the buffer and is used up. */
  lemma StaleScan(flags: seq<bv8>, x: seq<bv8>, m: bv8, more: seq<seq<bv8>>, y: bv8, tail: seq<bv8>)
    requires forall k :: 0 <= k < |flags| ==> flags[k] == HDLC_SYNC
    requires Escaped(x) && |Unescape(x)| + 1 < FRAME_SIZE && Kept(flags + x) == []
    requires Calm(more) && more != [] && Flat(more) == [y] + tail && !Marker(y)
    ensures ScanStream(Seen(flags + x, m, [[HDLC_ESC]] + more)) == ScanFrom(Unescape(x) + [Flip(m), y], tail)
  {
    SeenOfSingleEscape(flags + x, m, more);
    Regroup(flags, x, [HDLC_ESC, m] + Flat(more));
    ScanFront(flags, x, m, [y] + tail);
    ScanPlain(Unescape(x) + [Flip(m)], y, tail);
    assert Unescape(x) + [Flip(m)] + [y] == Unescape(x) + [Flip(m), y];
  }

  lemma {:induction false} GrowingContent(a: seq<bv8>, s: seq<bv8>)
    requires a != [] && ScanFrom(a, s).Frame?
    ensures |ScanFrom(a, s).content| >= |a|
    decreases |s|
  {
    if s[0] != HDLC_SYNC {
      GrowingContent(a + [First(s)], s[Taken(s)..]);
    }
  }

  /** Two frames that end alike. */
  lemma {:induction false} SameTail(a: seq<bv8>, b: seq<bv8>, s: seq<bv8>) returns (c: seq<bv8>)
    requires a != [] && b != [] && ScanFrom(a, s).Frame? && |b| + |ScanFrom(a, s).content| - |a| < FRAME_SIZE
    ensures ScanFrom(a, s).content == a + c
    ensures ScanFrom(b, s) == Frame(b + c, ScanFrom(a, s).rest)
    decreases |s|
  {
    if s[0] == HDLC_SYNC {
      c := [];
    } else {
      GrowingContent(a + [First(s)], s[Taken(s)..]);
      c := SameTail(a + [First(s)], b + [First(s)], s[Taken(s)..]);
      c := [First(s)] + c;
    }
  }

  // ---- a call of the reader ----

  /** A single escape on its way into a used-up buffer: behind flags and the start `x` of a frame, which
      are in the buffer already, or in the packet before it. */
  ghost predicate Disturbed(bytes: seq<bv8>, m: bv8, packets: seq<seq<bv8>>, flags: seq<bv8>, x: seq<bv8>, stale: bv8,
      more: seq<seq<bv8>>, y: bv8, tail: seq<bv8>)
  {
    var front := flags + x;
    && (forall k :: 0 <= k < |flags| ==> flags[k] == HDLC_SYNC)
    && Escaped(x) && Kept(front) == []
    && Calm(more) && more != [] && Flat(more) == [y] + tail && !Marker(y)
    && ((bytes == front && packets == [[HDLC_ESC]] + more && stale == m)
        || (bytes == [] && packets == [front] + ([[HDLC_ESC]] + more) && 2 <= |front| < BUF_SIZE && stale == front[1]))
  }

  lemma DisturbedStream(bytes: seq<bv8>, m: bv8, packets: seq<seq<bv8>>, flags: seq<bv8>, x: seq<bv8>, stale: bv8,
      more: seq<seq<bv8>>, y: bv8, tail: seq<bv8>)
    requires Disturbed(bytes, m, packets, flags, x, stale, more, y, tail)
    ensures Sized(packets)
    ensures bytes + Flat(packets) == flags + x + Flat([[HDLC_ESC]] + more)
    ensures Seen(bytes, m, packets) == Seen(flags + x, stale, [[HDLC_ESC]] + more)
  {
    var front, rest := flags + x, [[HDLC_ESC]] + more;
    forall k | 0 <= k < |rest| ensures 1 <= |rest[k]| < BUF_SIZE {
      assert k > 0 ==> rest[k] == more[k - 1];
    }
    if !(bytes == front && packets == rest && stale == m) {
      assert packets[0] == front && packets[1..] == rest;
      FetchIntoEmpty(m, packets);
      assert [] + (front + Flat(rest)) == front + Flat(rest);
      forall k | 0 <= k < |packets| ensures 1 <= |packets[k]| < BUF_SIZE {
        assert k > 0 ==> packets[k] == rest[k - 1];
      }
    }
  }

  /** The frame that was sent and the one that is found. */
  lemma DisturbedFrames(bytes: seq<bv8>, m: bv8, packets: seq<seq<bv8>>, flags: seq<bv8>, x: seq<bv8>, stale: bv8,
      more: seq<seq<bv8>>, y: bv8, tail: seq<bv8>) returns (c: seq<bv8>)
    requires Disturbed(bytes, m, packets, flags, x, stale, more, y, tail) && |Unescape(x)| < FRAME_SIZE
    requires ScanStream(bytes + Flat(packets)).Frame? && |ScanStream(bytes + Flat(packets)).content| + 1 < FRAME_SIZE
    ensures Sized(packets)
    ensures ScanStream(bytes + Flat(packets)).content == Unescape(x) + [Flip(y)] + c
    ensures ScanStream(Seen(bytes, m, packets)).Frame?
    ensures ScanStream(Seen(bytes, m, packets)).content == Unescape(x) + [Flip(stale), y] + c
  {
    var pre := Unescape(x);
    DisturbedStream(bytes, m, packets, flags, x, stale, more, y, tail);
    SentScan(flags, x, more, y, tail);
    GrowingContent(pre + [Flip(y)], tail);
    StaleScan(flags, x, stale, more, y, tail);
    c := SameTail(pre + [Flip(y)], pre + [Flip(stale), y], tail);
  }

  /** What the caller gets for a good frame that was disturbed, with `got` in place of what was sent. */
  ghost predicate Outcome(got: seq<bv8>, accepted: bool, len: nat, ret: int, before: seq<bv8>, after: seq<bv8>) {
    if !accepted || |got| < 4 then ret == -1 && after == before
    else |got| >= 6 ==> (
      ret == Min(|got| - 6, len) && 0 <= ret <= |before| && after == got[4..|got| - 2][..ret] + before[ret..])
  }

  /** A call of `read` that gets a single escape into a used-up buffer hands over a frame that is one
      byte longer than the one sent, or throws it away. If the frame sent was good it is handed over
      exactly if the checksum is confused at that place, which it never is at the start. */
  method ReadDisturbed(sma: Smanet, data: array<bv8>, len: nat, ghost flags: seq<bv8>, ghost x: seq<bv8>, ghost stale: bv8,
      ghost more: seq<seq<bv8>>, ghost y: bv8, ghost tail: seq<bv8>)
    returns (ret: int, ghost sent: seq<bv8>, ghost got: seq<bv8>, ghost c: seq<bv8>)
    requires sma.Valid() && data != sma.readBuf && 0 < len <= data.Length
    requires Disturbed(sma.readBuf[..sma.size], sma.readBuf[1], sma.con.packets, flags, x, stale, more, y, tail)
    requires |Unescape(x)| < FRAME_SIZE
    requires ScanStream(sma.Pending()).Frame? && |ScanStream(sma.Pending()).content| + 1 < FRAME_SIZE
    modifies sma`size, sma.con`packets, sma.readBuf, data
    ensures sent == ScanStream(old(sma.Pending())).content == Unescape(x) + [Flip(y)] + c
    ensures got == Unescape(x) + [Flip(stale), y] + c
    ensures HandedOver(Frame(got, []), len, ret, old(data[..]), data[..])
    ensures Good(sent) ==> (
      Outcome(got, Confused(Over(PPP_INIT_FCS, Unescape(x)), stale, y), len, ret, old(data[..]), data[..]))
    ensures Good(sent) && x == [] ==> ret == -1 && data[..] == old(data[..])
  {
    c := DisturbedFrames(sma.readBuf[..sma.size], sma.readBuf[1], sma.con.packets, flags, x, stale, more, y, tail);
    sent, got := Unescape(x) + [Flip(y)] + c, Unescape(x) + [Flip(stale), y] + c;
    ret := sma.Read(data, len);
    if Good(sent) {
      StillGoodIff(Unescape(x), stale, y, c);
      if x == [] {
        assert Over(PPP_INIT_FCS, []) == PPP_INIT_FCS;
        NeverConfusedAtStart(stale, y);
      }
    }
  }

  // ---- a payload that is read wrong ----

  /** A piece that ends in an escape pair leaves nothing to keep. */
  lemma {:induction false} PairEndsPiece(x: seq<bv8>, b: bv8)
    requires Escaped(x)
    ensures Kept(x + [HDLC_ESC, b]) == []
    decreases |x|
  {
    if x == [] {
      assert x + [HDLC_ESC, b] == [HDLC_ESC, b] && [HDLC_ESC, b][2..] == [];
    } else {
      ReadyExtends(x, [HDLC_ESC, b]);
      KeptDrop(x + [HDLC_ESC, b]);
      PairEndsPiece(x[Taken(x)..], b);
    }
  }

  const PROTOCOL: bv16 := 0x6560
  const WRITTEN: seq<bv8> := [0x13, 0x91, 0x7e, 0x11, 0x80]
  const MISREAD: seq<bv8> := [0x13, 0x91, 0x7e, 0xdf, 0x31, 0x80]

  lemma OverSeven(f: bv16, a: bv8, b: bv8, c: bv8, d: bv8, e: bv8, g: bv8, h: bv8, s: seq<bv8>)
    requires s == [a, b, c, d, e, g, h]
    ensures Over(f, s) == Serial(Serial(Serial(Serial(Serial(Serial(Serial(f, a), b), c), d), e), g), h)
  {
    OverTwo(f, a, b);
    OverTwo(Serial(Serial(f, a), b), c, d);
    OverFour(f, a, b, c, d);
    var q := Serial(Serial(Serial(Serial(f, a), b), c), d);
    OverTwo(q, e, g);
    OverConcat(q, [e, g], [h]);
    Register.RunOne(Serial, Serial(Serial(q, e), g), h);
    OverConcat(f, [a, b, c, d], [e, g] + [h]);
    assert s == [a, b, c, d] + ([e, g] + [h]);
  }

  lemma OverFour(f: bv16, a: bv8, b: bv8, c: bv8, d: bv8)
    ensures Over(f, [a, b, c, d]) == Serial(Serial(Serial(Serial(f, a), b), c), d)
  {
    OverTwo(f, a, b);
    OverTwo(Serial(Serial(f, a), b), c, d);
    OverConcat(f, [a, b], [c, d]);
    assert [a, b] + [c, d] == [a, b, c, d];
  }

  lemma SerialOfSeven()
    ensures Serial(0xffff, 0xff) == 0x00ff && Serial(0x00ff, 0x03) == 0x3de3 && Serial(0x3de3, 0x60) == 0xb6ae
    ensures Serial(0xb6ae, 0x65) == 0x7869 && Serial(0x7869, 0x13) == 0xdca5 && Serial(0xdca5, 0x91) == 0x777b
    ensures Serial(0x777b, 0x7e) == 0x57da && Serial(Serial(0x57da, 0x11), 0x80) == 0x8c30
  {
  }

  lemma MisreadRegister()
    ensures Over(PPP_INIT_FCS, [0xff, 0x03, 0x60, 0x65, 0x13, 0x91, 0x7e]) == 0x57da
    ensures Over(PPP_INIT_FCS, [0xff, 0x03, 0x60, 0x65, 0x13, 0x91, 0x7e] + [0x11, 0x80]) == 0x8c30
  {
    var c: seq<bv8> := [0xff, 0x03, 0x60, 0x65, 0x13, 0x91, 0x7e];
    SerialOfSeven();
    OverSeven(0xffff, 0xff, 0x03, 0x60, 0x65, 0x13, 0x91, 0x7e, c);
    OverConcat(0xffff, c, [0x11, 0x80]);
    OverTwo(0x57da, 0x11, 0x80);
  }

  lemma MisreadConfused()
    ensures Confused(0x57da, 0xff, 0x31)
  {
  }

  lemma WrittenContent()
    ensures Content(PROTOCOL, WRITTEN) == [0xff, 0x03, 0x60, 0x65, 0x13, 0x91, 0x7e] + [0x11, 0x80]
    ensures Trailer(Content(PROTOCOL, WRITTEN)) == [0xcf, 0x73]
  {
    assert Low(0x6560) == 0x60 && High(0x6560) == 0x65;
    MisreadRegister();
    assert Low(0x8c30 ^ 0xffff) == 0xcf && High(0x8c30 ^ 0xffff) == 0x73;
  }

  lemma StuffOne(b: bv8)
    ensures Stuff([b]) == StuffByte(b)
  {
    assert [b][1..] == [] && StuffByte(b) + [] == StuffByte(b);
  }

  lemma StuffTwo(a: bv8, b: bv8)
    ensures Stuff([a, b]) == StuffByte(a) + StuffByte(b)
  {
    StuffConcat([a], [b]);
    StuffOne(a);
    StuffOne(b);
    assert [a] + [b] == [a, b];
  }

  lemma StuffedPieces()
    ensures Stuff([0x13, 0x91]) == [HDLC_ESC, 0x33, 0x91]
    ensures Stuff([0x7e]) == [HDLC_ESC, 0x5e]
    ensures Stuff([0x11, 0x80]) == [HDLC_ESC, 0x31, 0x80]
  {
    StuffTwo(0x13, 0x91);
    StuffOne(0x7e);
    StuffTwo(0x11, 0x80);
  }

  lemma HeaderBytes()
    ensures Header(PROTOCOL) == [0xff, 0x03, 0x60, 0x65]
  {
    assert Low(0x6560) == 0x60 && High(0x6560) == 0x65;
  }

  /** The start of a frame: header, some stuffed bytes, and an escape pair. */
  lemma FrontEscaped(h: seq<bv8>, a: seq<bv8>, b: seq<bv8>, x: seq<bv8>)
    requires Plain(h) && x == h + (Stuff(a) + Stuff(b))
    ensures Escaped(x) && Unescape(x) == h + (a + b)
  {
    PlainIsEscaped(h);
    UnescapeStuff(a);
    UnescapeStuff(b);
    EscapedConcat(Stuff(a), Stuff(b));
    EscapedConcat(h, Stuff(a) + Stuff(b));
  }

  lemma FrontUsedUp(y: seq<bv8>, b: bv8, x: seq<bv8>)
    requires Escaped(y) && x == y + [HDLC_ESC, b]
    ensures Kept([HDLC_SYNC] + x) == []
  {
    PairEndsPiece(y, b);
    KeptFlags([HDLC_SYNC] + x, 1);
    assert ([HDLC_SYNC] + x)[1..] == x;
  }

  const FRONT: seq<bv8> := [0xff, 0x03, 0x60, 0x65, 0x7d, 0x33, 0x91, 0x7d, 0x5e]

  lemma FrontPieces()
    ensures FRONT == Header(PROTOCOL) + (Stuff([0x13, 0x91]) + Stuff([0x7e]))
    ensures FRONT == Header(PROTOCOL) + (Stuff([0x13, 0x91]) + Stuff([])) + [HDLC_ESC, 0x5e]
    ensures Plain(Header(PROTOCOL))
  {
    HeaderBytes();
    StuffedPieces();
  }

  lemma WrittenFront()
    ensures Escaped(FRONT) && Unescape(FRONT) == Header(PROTOCOL) + ([0x13, 0x91] + [0x7e])
    ensures Kept([HDLC_SYNC] + FRONT) == []
  {
    var x, h, a, b: seq<bv8> := FRONT, Header(PROTOCOL), [0x13, 0x91], [0x7e];
    FrontPieces();
    FrontEscaped(h, a, b, x);
    FrontEscaped(h, a, [], h + (Stuff(a) + Stuff([])));
    FrontUsedUp(h + (Stuff(a) + Stuff([])), 0x5e, x);
  }

  lemma StuffThree(a: seq<bv8>, b: seq<bv8>, c: seq<bv8>)
    ensures Stuff(a + b + c) == Stuff(a) + Stuff(b) + Stuff(c)
  {
    StuffConcat(a + b, c);
    StuffConcat(a, b);
  }

  lemma FrameInPieces(h: seq<bv8>, a: seq<bv8>, b: seq<bv8>, c: seq<bv8>, t: seq<bv8>)
    ensures [HDLC_SYNC] + (h + (a + b + c) + t) + [HDLC_SYNC] == [HDLC_SYNC] + (h + (a + b)) + (c + (t + [HDLC_SYNC]))
  {
  }

  lemma WrittenStuffed()
    ensures Stuff(WRITTEN) == Stuff([0x13, 0x91]) + Stuff([0x7e]) + Stuff([0x11, 0x80])
  {
    StuffThree([0x13, 0x91], [0x7e], [0x11, 0x80]);
    assert WRITTEN == [0x13, 0x91] + [0x7e] + [0x11, 0x80];
  }

  lemma WrittenTrailer()
    ensures Trailer(Content(PROTOCOL, WRITTEN)) == [0xcf, 0x73]
  {
    WrittenContent();
  }

  lemma WrittenEnd()
    ensures Stuff([0x11, 0x80]) + ([0xcf, 0x73] + [HDLC_SYNC]) == [HDLC_ESC, 0x31] + [0x80, 0xcf, 0x73, HDLC_SYNC]
  {
    StuffedPieces();
  }

  /** The frame of the payload, and the three packets it comes in. */
  lemma WrittenFrame()
    ensures WireFrame(PROTOCOL, WRITTEN) == [HDLC_SYNC] + FRONT + ([HDLC_ESC, 0x31] + [0x80, 0xcf, 0x73, HDLC_SYNC])
  {
    var a, b, c := Stuff([0x13, 0x91]), Stuff([0x7e]), Stuff([0x11, 0x80]);
    WrittenStuffed();
    WrittenTrailer();
    WrittenEnd();
    FrontPieces();
    FrameInPieces(Header(PROTOCOL), a, b, c, [0xcf, 0x73]);
  }

  lemma WrittenPackets(more: seq<seq<bv8>>)
    requires more == [[0x31, 0x80, 0xcf, 0x73, HDLC_SYNC]]
    ensures Flat(more) == [0x31] + [0x80, 0xcf, 0x73, HDLC_SYNC] && Calm(more)
    ensures [HDLC_SYNC] + FRONT + Flat([[HDLC_ESC]] + more) == WireFrame(PROTOCOL, WRITTEN)
  {
    assert more[1..] == [] && more[0] + [] == more[0];
    FlatOfSingleEscape([HDLC_SYNC] + FRONT, more, 0x31, [0x80, 0xcf, 0x73, HDLC_SYNC]);
    WrittenFrame();
  }

  /** A new reader on packets of which the second is a single escape that comes into a used-up buffer. */
  method ReadNew(protocol: bv16, data: array<bv8>, len: nat, chunks: seq<seq<bv8>>, ghost x: seq<bv8>,
      ghost stale: bv8, ghost more: seq<seq<bv8>>, ghost y: bv8, ghost tail: seq<bv8>)
    returns (ret: int, ghost sent: seq<bv8>, ghost got: seq<bv8>, ghost c: seq<bv8>)
    requires 0 < len <= data.Length && |Unescape'(x)| < FRAME_SIZE
    requires forall m :: Disturbed([], m, chunks, [HDLC_SYNC], x, stale, more, y, tail)
    requires ScanStream(Flat(chunks)).Frame? && |ScanStream(Flat(chunks)).content| + 1 < FRAME_SIZE
    modifies data
    ensures sent == ScanStream(Flat(chunks)).content == Unescape'(x) + [Flip(y)] + c
    ensures got == Unescape'(x) + [Flip(stale), y] + c
    ensures Good(sent) ==> (
      Outcome(got, Confused(Over(PPP_INIT_FCS, Unescape'(x)), stale, y), len, ret, old(data[..]), data[..]))
  {
    var link := new Link(chunks);
    var sma := new Smanet(protocol, link);
    assert sma.readBuf[..sma.size] == [];
    assert [] + Flat(chunks) == Flat(chunks);
    ret, sent, got, c := ReadDisturbed(sma, data, len, [HDLC_SYNC], x, stale, more, y, tail);
  }

  /** Unescaped, if it can be. */
  function Unescape'(x: seq<bv8>): seq<bv8> { if Escaped(x) then Unescape(x) else [] }

  lemma InPacketBefore(m: bv8, x: seq<bv8>, stale: bv8, more: seq<seq<bv8>>, y: bv8, tail: seq<bv8>)
    requires Escaped(x) && Kept([HDLC_SYNC] + x) == [] && 1 <= |x| < BUF_SIZE - 1 && stale == x[0]
    requires Calm(more) && more != [] && Flat(more) == [y] + tail && !Marker(y)
    ensures Disturbed([], m, [[HDLC_SYNC] + x] + ([[HDLC_ESC]] + more), [HDLC_SYNC], x, stale, more, y, tail)
  {
  }

  lemma WrittenDisturbed(m: bv8, more: seq<seq<bv8>>, tail: seq<bv8>)
    requires more == [[0x31, 0x80, 0xcf, 0x73, HDLC_SYNC]] && tail == [0x80, 0xcf, 0x73, HDLC_SYNC]
    ensures Disturbed([], m, [[HDLC_SYNC] + FRONT] + ([[HDLC_ESC]] + more), [HDLC_SYNC], FRONT, 0xff, more, 0x31, tail)
  {
    WrittenFront();
    FrontStart();
    WrittenEndsIn(more, tail);
    InPacketBefore(m, FRONT, 0xff, more, 0x31, tail);
  }

  lemma FrontStart()
    ensures 1 <= |FRONT| < BUF_SIZE - 1 && FRONT[0] == 0xff
  {
  }

  lemma WrittenEndsIn(more: seq<seq<bv8>>, tail: seq<bv8>)
    requires more == [[0x31, 0x80, 0xcf, 0x73, HDLC_SYNC]] && tail == [0x80, 0xcf, 0x73, HDLC_SYNC]
    ensures Calm(more) && more != [] && Flat(more) == [0x31] + tail && !Marker(0x31)
  {
    WrittenPackets(more);
  }

  /** The frame of a payload of five bytes, cut into three packets of which the second is a single
      escape: a new reader returns six bytes, among them one that was never sent. */
  method ReadsWrongPayload(data: array<bv8>, len: nat) returns (ret: int, chunks: seq<seq<bv8>>)
    requires 6 <= len <= data.Length
    modifies data
    ensures Flat(chunks) == WireFrame(PROTOCOL, WRITTEN) && Sized(chunks)
    ensures ret == |MISREAD| && data[..ret] == MISREAD
  {
    var more: seq<seq<bv8>> := [[0x31, 0x80, 0xcf, 0x73, HDLC_SYNC]];
    chunks := [[HDLC_SYNC] + FRONT] + ([[HDLC_ESC]] + more);
    ghost var tail: seq<bv8> := [0x80, 0xcf, 0x73, HDLC_SYNC];
    WrittenStream(more, tail, chunks);
    ghost var sent, got, c;
    ret, sent, got, c := ReadNew(PROTOCOL, data, len, chunks, FRONT, 0xff, more, 0x31, tail);
    GotIs(sent, got, c);
    assert data[..ret] == data[..][..6];
  }

  lemma FirstOfChunks(front: seq<bv8>, rest: seq<seq<bv8>>)
    ensures Flat([front] + rest) == front + Flat(rest)
  {
    assert ([front] + rest)[1..] == rest;
  }

  /** All that has to be known of it. */
  lemma WrittenStream(more: seq<seq<bv8>>, tail: seq<bv8>, chunks: seq<seq<bv8>>)
    requires more == [[0x31, 0x80, 0xcf, 0x73, HDLC_SYNC]] && tail == [0x80, 0xcf, 0x73, HDLC_SYNC]
    requires chunks == [[HDLC_SYNC] + FRONT] + ([[HDLC_ESC]] + more)
    ensures forall m :: Disturbed([], m, chunks, [HDLC_SYNC], FRONT, 0xff, more, 0x31, tail)
    ensures Flat(chunks) == WireFrame(PROTOCOL, WRITTEN) && Sized(chunks)
    ensures ScanStream(Flat(chunks)).Frame? && ScanStream(Flat(chunks)).content == Content(PROTOCOL, WRITTEN) + [0xcf, 0x73]
    ensures Good(Content(PROTOCOL, WRITTEN) + [0xcf, 0x73]) && |Content(PROTOCOL, WRITTEN)| == 9
    ensures Unescape'(FRONT) == [0xff, 0x03, 0x60, 0x65, 0x13, 0x91, 0x7e]
    ensures Confused(Over(PPP_INIT_FCS, Unescape'(FRONT)), 0xff, 0x31)
  {
    forall m ensures Disturbed([], m, chunks, [HDLC_SYNC], FRONT, 0xff, more, 0x31, tail) {
      WrittenDisturbed(m, more, tail);
    }
    WrittenFlat(more, chunks);
    WrittenScan();
    WrittenLength();
    WrittenConfused();
  }

  lemma WrittenFlat(more: seq<seq<bv8>>, chunks: seq<seq<bv8>>)
    requires more == [[0x31, 0x80, 0xcf, 0x73, HDLC_SYNC]] && chunks == [[HDLC_SYNC] + FRONT] + ([[HDLC_ESC]] + more)
    ensures Flat(chunks) == WireFrame(PROTOCOL, WRITTEN) && Sized(chunks)
  {
    WrittenPackets(more);
    FirstOfChunks([HDLC_SYNC] + FRONT, [[HDLC_ESC]] + more);
    assert chunks == [[HDLC_SYNC] + FRONT, [HDLC_ESC], more[0]];
  }

  lemma WrittenLength()
    ensures |Content(PROTOCOL, WRITTEN)| == 9
  {
  }

  lemma WrittenConfused()
    ensures Unescape'(FRONT) == [0xff, 0x03, 0x60, 0x65, 0x13, 0x91, 0x7e]
    ensures Confused(Over(PPP_INIT_FCS, Unescape'(FRONT)), 0xff, 0x31)
  {
    WrittenFront();
    FrontContent();
    MisreadRegister();
    MisreadConfused();
  }

  lemma FrontContent()
    ensures Header(PROTOCOL) + ([0x13, 0x91] + [0x7e]) == [0xff, 0x03, 0x60, 0x65, 0x13, 0x91, 0x7e]
  {
    HeaderBytes();
  }

  lemma WrittenScan()
    ensures var s, sent := WireFrame(PROTOCOL, WRITTEN), Content(PROTOCOL, WRITTEN) + [0xcf, 0x73];
      ScanStream(s).Frame? && ScanStream(s).content == sent && Good(sent)
  {
    WrittenContent();
    ProgramProtocolIsPlain();
    PlainFrameReadBack(PROTOCOL, WRITTEN, []);
    assert WireFrame(PROTOCOL, WRITTEN) + [] == WireFrame(PROTOCOL, WRITTEN);
  }

  lemma GotIs(sent: seq<bv8>, got: seq<bv8>, c: seq<bv8>)
    requires sent == Content(PROTOCOL, WRITTEN) + [0xcf, 0x73]
    requires sent == [0xff, 0x03, 0x60, 0x65, 0x13, 0x91, 0x7e] + [0x11] + c
    requires got == [0xff, 0x03, 0x60, 0x65, 0x13, 0x91, 0x7e] + [0xdf, 0x31] + c
    ensures |got| == 12 && got[4..|got| - 2] == MISREAD
  {
    WrittenContent();
    assert c == sent[8..] == [0x80, 0xcf, 0x73];
  }
}
