/** Whole sessions of the framing layer: every frame of a stream, what is read back of what was
    written, and what damage to a frame costs. */
module Session {
  import opened Fcs
  import opened Hdlc
  import opened Fetch
  import opened Common
  import opened Walking
  import opened Smanet
  import Register

  /** What successive reads make of a stream, frame by frame. */
  function Results(s: seq<bv8>): seq<Verdict>
    decreases |s|
  {
    match ScanStream(s)
    case Frame(content, rest) =>
      FrameEndsAtFlag([], s);
      [Judge(content)] + Results(rest)
    case Incomplete => []
    case TooBig(_) => []
  }

  lemma ResultsSkipFlag(s: seq<bv8>)
    ensures Results([HDLC_SYNC] + s) == Results(s)
  {
    SkipFlag(s);
  }

  lemma ResultsOfFrame(s: seq<bv8>, content: seq<bv8>, rest: seq<bv8>)
    requires ScanStream(s) == Frame(content, rest)
    ensures Results(s) == [Judge(content)] + Results(rest)
  {
  }

  // ---- what is read back of what was written ----

  predicate Marker(b: bv8) { b == HDLC_ESC || b == HDLC_SYNC }

  /** Neither byte of the word is an escape or a flag. */
  predicate Plain(t: seq<bv8>) {
    forall i :: 0 <= i < |t| ==> !Marker(t[i])
  }

  /** The protocol bytes go out unescaped as well; those of the program, 0x6560, are harmless. */
  predicate PlainProtocol(protocol: bv16) { Plain(Header(protocol)) }

  lemma ProgramProtocolIsPlain()
    ensures PlainProtocol(0x6560)
  {
    assert Low(0x6560) == 0x60 && High(0x6560) == 0x65;
  }

  /** Everything of a frame but its checksum scans to the protocol header and the payload. */
  lemma ScanContent(protocol: bv16, data: seq<bv8>, s: seq<bv8>)
    requires PlainProtocol(protocol) && |data| <= 255
    ensures ScanStream([HDLC_SYNC] + (Header(protocol) + Stuff(data) + s)) == ScanFrom(Content(protocol, data), s)
  {
    var x := Header(protocol) + Stuff(data);
    PlainIsEscaped(Header(protocol));
    UnescapeStuff(data);
    EscapedConcat(Header(protocol), Stuff(data));
    SkipFlag(x + s);
    ScanOn([], x, s);
    assert [] + Unescape(x) == Content(protocol, data);
  }

  /** A frame whose checksum bytes are plain is read back unchanged, up to its closing flag. */
  lemma PlainFrameReadBack(protocol: bv16, data: seq<bv8>, tail: seq<bv8>)
    requires PlainProtocol(protocol) && |data| <= 255 && Plain(Trailer(Content(protocol, data)))
    ensures var content := Content(protocol, data) + Trailer(Content(protocol, data));
      && ScanStream(WireFrame(protocol, data) + tail) == Frame(content, [HDLC_SYNC] + tail)
      && Judge(content) == Payload(data)
  {
    var c := Content(protocol, data);
    var t := Trailer(c);
    var content := c + t;
    assert WireFrame(protocol, data) + tail == [HDLC_SYNC] + (Header(protocol) + Stuff(data) + (t + ([HDLC_SYNC] + tail)));
    ScanContent(protocol, data, t + ([HDLC_SYNC] + tail));
    PlainIsEscaped(t);
    ScanOn(c, t, [HDLC_SYNC] + tail);
    assert content[|content| - 2..] == t && content[..|content| - 2] == c;
    ExactAcceptance(content);
    assert content[4..|content| - 2] == data;
  }

  // What happens when a checksum byte is a flag or an escape: it goes out unescaped, so the reader
  // takes it for one.

  lemma LowFlagMisfits(f: bv16)
    requires Low(f ^ 0xffff) == HDLC_SYNC
    ensures f != PPP_GOOD_FCS
  {
  }

  lemma HighFlagMisfits(f: bv16)
    requires High(f ^ 0xffff) == HDLC_SYNC
    ensures Serial(f, Low(f ^ 0xffff)) != PPP_GOOD_FCS
  {
  }

  lemma LowEscapeMisfits(f: bv16)
    requires Low(f ^ 0xffff) == HDLC_ESC
    ensures Serial(f, Flip(High(f ^ 0xffff))) != PPP_GOOD_FCS
  {
  }

  /** What follows a frame in a session: nothing yet, or the opening flag of the next one. */
  predicate NextFrame(tail: seq<bv8>) { tail == [] || tail[0] == HDLC_SYNC }

  lemma ScanAtFlag(acc: seq<bv8>, s: seq<bv8>)
    requires 0 < |acc| < FRAME_SIZE && NextFrame(s)
    ensures ScanFrom(acc, s) == if s == [] then Incomplete else Frame(acc, s)
  {
  }

  lemma ScanPair(acc: seq<bv8>, b: bv8, s: seq<bv8>)
    requires 0 < |acc| < FRAME_SIZE
    ensures ScanFrom(acc, [HDLC_ESC, b] + s) == ScanFrom(acc + [Flip(b)], s)
  {
    assert ([HDLC_ESC, b] + s)[2..] == s;
  }

  lemma ScanPlain(acc: seq<bv8>, b: bv8, s: seq<bv8>)
    requires 0 < |acc| < FRAME_SIZE && !Marker(b)
    ensures ScanFrom(acc, [b] + s) == ScanFrom(acc + [b], s)
  {
    assert ([b] + s)[1..] == s;
  }

  lemma RejectedWithByte(content: seq<bv8>, b: bv8)
    requires Serial(Over(PPP_INIT_FCS, content), b) != PPP_GOOD_FCS
    ensures Judge(content + [b]) == Rejected
  {
    OverConcat(PPP_INIT_FCS, content, [b]);
    Register.RunOne(Serial, Over(PPP_INIT_FCS, content), b);
  }

  /** What is left of a frame with trailer bytes `a` and `b` after it was thrown away. */
  predicate SpoiledScan(scan: Scan, b: bv8, tail: seq<bv8>) {
    if scan.Frame? then
      && Judge(scan.content) == Rejected
      && (scan.rest == [HDLC_SYNC, b, HDLC_SYNC] + tail || scan.rest == [HDLC_SYNC] + tail
          || scan.rest == [HDLC_SYNC, HDLC_SYNC] + tail || scan.rest == tail)
    else scan == Incomplete && tail == []
  }

  lemma SpoiledByLow(c: seq<bv8>, tail: seq<bv8>)
    requires 4 <= |c| <= 259 && Marker(Trailer(c)[0])
    ensures SpoiledScan(ScanFrom(c, [Trailer(c)[0], Trailer(c)[1]] + ([HDLC_SYNC] + tail)), Trailer(c)[1], tail)
  {
    var f, t, end := Over(PPP_INIT_FCS, c), Trailer(c), [HDLC_SYNC] + tail;
    if t[0] == HDLC_SYNC {
      LowFlagMisfits(f);
      ScanAtFlag(c, [t[0], t[1]] + end);
      assert [t[0], t[1]] + end == [HDLC_SYNC, t[1], HDLC_SYNC] + tail;
    } else {
      ScanPair(c, t[1], end);
      ScanAtFlag(c + [Flip(t[1])], end);
      LowEscapeMisfits(f);
      RejectedWithByte(c, Flip(t[1]));
    }
  }

  lemma SpoiledByHighFlag(c: seq<bv8>, tail: seq<bv8>)
    requires 4 <= |c| <= 259 && !Marker(Trailer(c)[0]) && Trailer(c)[1] == HDLC_SYNC
    ensures SpoiledScan(ScanFrom(c + [Trailer(c)[0]], [Trailer(c)[1]] + ([HDLC_SYNC] + tail)), Trailer(c)[1], tail)
  {
    var t := Trailer(c);
    ScanAtFlag(c + [t[0]], [t[1]] + ([HDLC_SYNC] + tail));
    HighFlagMisfits(Over(PPP_INIT_FCS, c));
    RejectedWithByte(c, t[0]);
    assert [t[1]] + ([HDLC_SYNC] + tail) == [HDLC_SYNC, HDLC_SYNC] + tail;
  }

  lemma SpoiledByHighEscape(c: seq<bv8>, tail: seq<bv8>)
    requires 4 <= |c| <= 259 && !Marker(Trailer(c)[0]) && Trailer(c)[1] == HDLC_ESC && NextFrame(tail)
    ensures SpoiledScan(ScanFrom(c + [Trailer(c)[0]], [Trailer(c)[1]] + ([HDLC_SYNC] + tail)), Trailer(c)[1], tail)
  {
    var t, x := Trailer(c), Flip(HDLC_SYNC);
    assert [t[1]] + ([HDLC_SYNC] + tail) == [HDLC_ESC, HDLC_SYNC] + tail;
    ScanPair(c + [t[0]], HDLC_SYNC, tail);
    assert c + [t[0]] + [x] == c + [t[0], x];
    ScanAtFlag(c + [t[0], x], tail);
    TrailerDecides(c, [t[0], x]);
    assert [t[0], x][1] != t[1];
  }

  lemma SpoiledByHigh(c: seq<bv8>, tail: seq<bv8>)
    requires 4 <= |c| <= 259 && !Marker(Trailer(c)[0]) && Marker(Trailer(c)[1]) && NextFrame(tail)
    ensures SpoiledScan(ScanFrom(c, [Trailer(c)[0], Trailer(c)[1]] + ([HDLC_SYNC] + tail)), Trailer(c)[1], tail)
  {
    var t, end := Trailer(c), [HDLC_SYNC] + tail;
    assert [t[0], t[1]] + end == [t[0]] + ([t[1]] + end);
    ScanPlain(c, t[0], [t[1]] + end);
    if t[1] == HDLC_SYNC {
      SpoiledByHighFlag(c, tail);
    } else {
      SpoiledByHighEscape(c, tail);
    }
  }

  /** The frame is cut short, or runs on into the next one: either way it is thrown away, and the
      bytes left of it make at most one more frame. */
  lemma SpoiledFrame(protocol: bv16, data: seq<bv8>, tail: seq<bv8>)
    requires PlainProtocol(protocol) && |data| <= 255 && NextFrame(tail)
    requires !Plain(Trailer(Content(protocol, data)))
    ensures SpoiledScan(ScanStream(WireFrame(protocol, data) + tail), Trailer(Content(protocol, data))[1], tail)
  {
    var c := Content(protocol, data);
    var t, end := Trailer(c), [HDLC_SYNC] + tail;
    assert t == [t[0], t[1]];
    assert WireFrame(protocol, data) + tail == [HDLC_SYNC] + (Header(protocol) + Stuff(data) + ([t[0], t[1]] + end));
    ScanContent(protocol, data, [t[0], t[1]] + end);
    if Marker(t[0]) {
      SpoiledByLow(c, tail);
    } else {
      SpoiledByHigh(c, tail);
    }
  }

  /** A written payload comes back as the next result exactly when neither byte of its checksum is
      a flag or an escape. */
  lemma ReadBackIff(protocol: bv16, data: seq<bv8>, tail: seq<bv8>)
    requires PlainProtocol(protocol) && |data| <= 255 && NextFrame(tail)
    ensures var scan := ScanStream(WireFrame(protocol, data) + tail);
      (scan.Frame? && Judge(scan.content) == Payload(data)) <==> Plain(Trailer(Content(protocol, data)))
  {
    if Plain(Trailer(Content(protocol, data))) {
      PlainFrameReadBack(protocol, data, tail);
    } else {
      SpoiledFrame(protocol, data, tail);
    }
  }

  // ---- whole sessions ----

  function Written(protocol: bv16, payloads: seq<seq<bv8>>): seq<bv8> {
    if payloads == [] then [] else WireFrame(protocol, payloads[0]) + Written(protocol, payloads[1..])
  }

  /** The payloads among the results, in order. */
  function Delivered(results: seq<Verdict>): seq<seq<bv8>> {
    if results == [] then []
    else (if results[0].Payload? then [results[0].data] else []) + Delivered(results[1..])
  }

  /** The payloads whose checksum can be sent as it is. */
  function Sendable(protocol: bv16, payloads: seq<seq<bv8>>): seq<seq<bv8>> {
    if payloads == [] then []
    else (if Plain(Trailer(Content(protocol, payloads[0]))) then [payloads[0]] else []) + Sendable(protocol, payloads[1..])
  }

  lemma DeliveredCons(v: Verdict, results: seq<Verdict>)
    ensures Delivered([v] + results) == (if v.Payload? then [v.data] else []) + Delivered(results)
  {
    assert ([v] + results)[1..] == results;
  }

  lemma OneByteRejectedHere(b: bv8)
    ensures Judge([b]) == Rejected
  {
  }

  /** A stray byte in front of a frame costs nothing that could be delivered. */
  lemma StrayByte(b: bv8, tail: seq<bv8>)
    requires NextFrame(tail)
    ensures Delivered(Results([b, HDLC_SYNC] + tail)) == Delivered(Results(tail))
  {
    var s, end := [b, HDLC_SYNC] + tail, [HDLC_SYNC] + tail;
    assert s == [b] + end;
    ResultsSkipFlag(tail);
    if b == HDLC_SYNC {
      ResultsSkipFlag(end);
    } else if b == HDLC_ESC {
      assert s[2..] == tail && [] + [Flip(HDLC_SYNC)] == [Flip(HDLC_SYNC)];
      assert ScanStream(s) == ScanFrom([Flip(HDLC_SYNC)], tail);
      ScanAtFlag([Flip(HDLC_SYNC)], tail);
      OneByteRejectedHere(Flip(HDLC_SYNC));
      if tail != [] {
        ResultsOfFrame(s, [Flip(HDLC_SYNC)], tail);
        DeliveredCons(Rejected, Results(tail));
      }
    } else {
      assert s[1..] == end && [] + [b] == [b];
      assert ScanStream(s) == ScanFrom([b], end);
      ScanAtFlag([b], end);
      OneByteRejectedHere(b);
      ResultsOfFrame(s, [b], end);
      DeliveredCons(Rejected, Results(end));
    }
  }

  lemma OneWritten(protocol: bv16, data: seq<bv8>, tail: seq<bv8>)
    requires PlainProtocol(protocol) && |data| <= 255 && NextFrame(tail)
    ensures Delivered(Results(WireFrame(protocol, data) + tail))
         == (if Plain(Trailer(Content(protocol, data))) then [data] else []) + Delivered(Results(tail))
  {
    var s, t := WireFrame(protocol, data) + tail, Trailer(Content(protocol, data));
    ResultsSkipFlag(tail);
    if Plain(t) {
      PlainFrameReadBack(protocol, data, tail);
      ResultsOfFrame(s, Content(protocol, data) + t, [HDLC_SYNC] + tail);
      DeliveredCons(Payload(data), Results([HDLC_SYNC] + tail));
    } else {
      SpoiledFrame(protocol, data, tail);
      var scan := ScanStream(s);
      if scan.Frame? {
        ResultsOfFrame(s, scan.content, scan.rest);
        DeliveredCons(Rejected, Results(scan.rest));
        SpoiledRest(t[1], tail);
      }
    }
  }

  lemma SpoiledRest(b: bv8, tail: seq<bv8>)
    requires NextFrame(tail)
    ensures Delivered(Results([HDLC_SYNC, b, HDLC_SYNC] + tail)) == Delivered(Results(tail))
    ensures Delivered(Results([HDLC_SYNC, HDLC_SYNC] + tail)) == Delivered(Results(tail))
    ensures Delivered(Results([HDLC_SYNC] + tail)) == Delivered(Results(tail))
  {
    assert [HDLC_SYNC, b, HDLC_SYNC] + tail == [HDLC_SYNC] + ([b, HDLC_SYNC] + tail);
    assert [HDLC_SYNC, HDLC_SYNC] + tail == [HDLC_SYNC] + ([HDLC_SYNC] + tail);
    ResultsSkipFlag([b, HDLC_SYNC] + tail);
    ResultsSkipFlag([HDLC_SYNC] + tail);
    ResultsSkipFlag(tail);
    StrayByte(b, tail);
  }

  /** Of a whole session exactly the payloads whose checksum can be sent as it is are delivered, in
      order and unchanged: a spoiled frame costs itself and nothing else. */
  lemma {:induction false} SessionDelivers(protocol: bv16, payloads: seq<seq<bv8>>)
    requires PlainProtocol(protocol) && forall k :: 0 <= k < |payloads| ==> |payloads[k]| <= 255
    ensures Delivered(Results(Written(protocol, payloads))) == Sendable(protocol, payloads)
    decreases |payloads|
  {
    if payloads == [] {
      assert Results([]) == [];
    } else {
      var tail := Written(protocol, payloads[1..]);
      assert NextFrame(tail);
      OneWritten(protocol, payloads[0], tail);
      SessionDelivers(protocol, payloads[1..]);
    }
  }

  // ---- successive calls of the reader ----

  /** Room for every payload a frame can carry. */
  const ROOM := 536

  predicate Matches(v: Verdict, got: (int, seq<bv8>)) {
    match v
    case Payload(d) => got == (|d|, d)
    case Rejected => got.0 == -1
    case Underflow => got.0 == ROOM
  }

  lemma PayloadFits(s: seq<bv8>)
    requires ScanStream(s).Frame? && Judge(ScanStream(s).content).Payload?
    ensures |Judge(ScanStream(s).content).data| < ROOM
  {
    FrameEndsAtFlag([], s);
  }

  lemma {:induction false} PayloadsFit(s: seq<bv8>)
    ensures forall k :: 0 <= k < |Results(s)| && Results(s)[k].Payload? ==> |Results(s)[k].data| < ROOM
    decreases |s|
  {
    match ScanStream(s)
    case Frame(content, rest) =>
      FrameEndsAtFlag([], s);
      PayloadsFit(rest);
      if Judge(content).Payload? {
        PayloadFits(s);
      }
      assert forall k :: 0 < k < |Results(s)| ==> Results(s)[k] == Results(rest)[k - 1];
    case Incomplete =>
    case TooBig(_) =>
  }

  /** What successive calls make of the stream as they see it: each starts with the buffer, its second
      byte and the packets the one before it has left. */
  function WalkResults(bytes: seq<bv8>, m: bv8, packets: seq<seq<bv8>>): seq<Verdict>
    requires Sized(packets)
    decreases |bytes| + |Flat(packets)|
  {
    WalkLeaves([], bytes, m, packets);
    match Walk([], bytes, m, packets)
    case Closed(content, left, n, rest) => [Judge(content)] + WalkResults(left, Moved(left, n), rest)
    case Dry => []
    case Full(_, _, _) => []
  }

  /** If the stream is seen as it is, these are the results of the one-pass decoder. */
  lemma {:induction false} WalkResultsAreResults(bytes: seq<bv8>, m: bv8, packets: seq<seq<bv8>>)
    requires Sized(packets) && Served(bytes, packets)
    ensures WalkResults(bytes, m, packets) == Results(bytes + Flat(packets))
    decreases |bytes| + |Flat(packets)|
  {
    StopIsDecoded(bytes, m, packets);
    match Walk([], bytes, m, packets)
    case Closed(content, left, n, rest) =>
      WalkResultsAreResults(left, Moved(left, n), rest);
      ResultsOfFrame(bytes + Flat(packets), content, left + Flat(rest));
    case Dry =>
    case Full(_, _, _) =>
  }

  /** The results still to come. */
  ghost function Coming(sma: Smanet): seq<Verdict>
    requires sma.Valid() && Sized(sma.con.packets)
    reads sma, sma.con, sma.readBuf
  {
    WalkResults(sma.readBuf[..sma.size], sma.readBuf[1], sma.con.packets)
  }

  lemma ComingFits(bytes: seq<bv8>, m: bv8, packets: seq<seq<bv8>>)
    requires Sized(packets) && Walk([], bytes, m, packets).Closed?
    ensures var content := Walk([], bytes, m, packets).content;
      ScanStream(Seen(bytes, m, packets)).Frame? && ScanStream(Seen(bytes, m, packets)).content == content
      && (Judge(content).Payload? ==> |Judge(content).data| < ROOM)
  {
    WalkIsScan([], bytes, m, packets);
    if Judge(Walk([], bytes, m, packets).content).Payload? {
      PayloadFits(Seen(bytes, m, packets));
    }
  }

  /** The value `read` returns, and the bytes it means. */
  function Gotten(ret: int, data: seq<bv8>): (int, seq<bv8>) {
    (ret, if 0 <= ret <= |data| then data[..ret] else [])
  }

  lemma HandedMatches(scan: Scan, ret: int, before: seq<bv8>, after: seq<bv8>)
    requires scan.Frame? && HandedOver(scan, ROOM, ret, before, after) && |before| == |after| == ROOM
    requires Judge(scan.content).Payload? ==> |Judge(scan.content).data| < ROOM
    ensures Matches(Judge(scan.content), Gotten(ret, after))
  {
    if Judge(scan.content).Payload? {
      var d := Judge(scan.content).data;
      assert d[..ret] == d && after[..ret] == d;
    }
  }

  /** One call of `read` with enough room takes one result off the stream. */
  method ReadOne(sma: Smanet) returns (got: (int, seq<bv8>))
    requires sma.Valid() && Sized(sma.con.packets) && Coming(sma) != []
    modifies sma`size, sma.con`packets, sma.readBuf
    ensures sma.Valid() && Sized(sma.con.packets) && (old(sma.Undisturbed()) ==> sma.Undisturbed())
    ensures Matches(old(Coming(sma))[0], got)
    ensures Coming(sma) == old(Coming(sma))[1..]
  {
    ghost var stop := sma.AimNow().stop;
    ComingFits(sma.readBuf[..sma.size], sma.readBuf[1], sma.con.packets);
    StopIsDecoded(sma.readBuf[..sma.size], sma.readBuf[1], sma.con.packets);
    var data := new bv8[ROOM];
    ghost var scan, before := ScanStream(sma.Visible()), data[..];
    var ret := sma.Read(data, ROOM);
    got := Gotten(ret, data[..]);
    HandedMatches(scan, ret, before, data[..]);
  }

  /** Successive calls return the results of the stream as they see it, whatever the packets are. */
  method ReadSeen(sma: Smanet, count: nat) returns (got: seq<(int, seq<bv8>)>)
    requires sma.Valid() && Sized(sma.con.packets) && count <= |Coming(sma)|
    modifies sma`size, sma.con`packets, sma.readBuf
    ensures sma.Valid() && Sized(sma.con.packets) && (old(sma.Undisturbed()) ==> sma.Undisturbed())
    ensures |got| == count
    ensures forall k :: 0 <= k < count ==> Matches(old(Coming(sma))[k], got[k])
    ensures Coming(sma) == old(Coming(sma))[count..]
  {
    got := [];
    ghost var results := Coming(sma);
    while |got| < count
      invariant sma.Valid() && Sized(sma.con.packets) && (old(sma.Undisturbed()) ==> sma.Undisturbed())
      invariant |got| <= count
      invariant Coming(sma) == results[|got|..]
      invariant forall k :: 0 <= k < |got| ==> Matches(results[k], got[k])
      decreases count - |got|
    {
      var one := ReadOne(sma);
      got := got + [one];
    }
  }

  /** If the stream is seen as it is, these are the results of the one-pass decoder over the whole
      stream, however the packets cut it. */
  method ReadSession(sma: Smanet, count: nat) returns (got: seq<(int, seq<bv8>)>)
    requires sma.Undisturbed() && count <= |Results(sma.Pending())|
    modifies sma`size, sma.con`packets, sma.readBuf
    ensures sma.Undisturbed()
    ensures |got| == count
    ensures forall k :: 0 <= k < count ==> Matches(Results(old(sma.Pending()))[k], got[k])
    ensures Results(sma.Pending()) == Results(old(sma.Pending()))[count..]
  {
    WalkResultsAreResults(sma.readBuf[..sma.size], sma.readBuf[1], sma.con.packets);
    got := ReadSeen(sma, count);
    WalkResultsAreResults(sma.readBuf[..sma.size], sma.readBuf[1], sma.con.packets);
  }

  // ---- a whole session, written and read ----

  predicate Fits(protocol: bv16, data: seq<bv8>) { |WireFrame(protocol, data)| <= MAX_PACKET }

  /** The payloads whose frames fit a packet. */
  function Fitting(protocol: bv16, payloads: seq<seq<bv8>>): (f: seq<seq<bv8>>)
    ensures forall x :: x in f ==> x in payloads
  {
    if payloads == [] then []
    else Fitting(protocol, payloads[..|payloads| - 1])
         + (if Fits(protocol, payloads[|payloads| - 1]) then [payloads[|payloads| - 1]] else [])
  }

  function Frames(protocol: bv16, payloads: seq<seq<bv8>>): (f: seq<seq<bv8>>)
    ensures |f| == |payloads|
  {
    seq(|payloads|, k requires 0 <= k < |payloads| => WireFrame(protocol, payloads[k]))
  }

  /** What the layer below got to send. */
  function Packed(to: seq<bv8>, frames: seq<seq<bv8>>): (p: seq<(seq<bv8>, seq<bv8>)>)
    ensures |p| == |frames|
  {
    seq(|frames|, k requires 0 <= k < |frames| => (to, frames[k]))
  }

  lemma {:induction false} FlatOfFrames(protocol: bv16, payloads: seq<seq<bv8>>)
    ensures Flat(Frames(protocol, payloads)) == Written(protocol, payloads)
    decreases |payloads|
  {
    if payloads != [] {
      assert Frames(protocol, payloads)[1..] == Frames(protocol, payloads[1..]);
      FlatOfFrames(protocol, payloads[1..]);
    }
  }

  lemma OneMoreFrame(protocol: bv16, to: seq<bv8>, payloads: seq<seq<bv8>>, data: seq<bv8>)
    ensures Packed(to, Frames(protocol, payloads + [data])) == Packed(to, Frames(protocol, payloads)) + [(to, WireFrame(protocol, data))]
  {
  }

  lemma OneMoreFitting(protocol: bv16, payloads: seq<seq<bv8>>, n: nat)
    requires n < |payloads|
    ensures Fitting(protocol, payloads[..n + 1]) == Fitting(protocol, payloads[..n]) + (if Fits(protocol, payloads[n]) then [payloads[n]] else [])
  {
    assert payloads[..n + 1][..n] == payloads[..n];
  }

  /** Writes one payload. */
  method WriteOne(sma: Smanet, data: seq<bv8>, to: seq<bv8>) returns (r: int)
    requires sma.Valid() && |data| <= 255 && |to| == 6
    modifies sma.con`sent
    ensures sma.Valid()
    ensures r == if Fits(sma.protocol, data) then 0 else -1
    ensures sma.con.sent == old(sma.con.sent) + if r == 0 then [(to, WireFrame(sma.protocol, data))] else []
  {
    var buf := new bv8[|data|](k requires 0 <= k < |data| => data[k]);
    assert buf[..|data|] == data;
    r := sma.Write(buf, |data|, to);
  }

  /** Writes payloads one by one: the frames that fit a packet are sent in order. */
  method WriteAll(sma: Smanet, payloads: seq<seq<bv8>>, to: seq<bv8>)
    requires sma.Valid() && |to| == 6 && forall k :: 0 <= k < |payloads| ==> |payloads[k]| <= 255
    modifies sma.con`sent
    ensures sma.Valid()
    ensures sma.con.sent == old(sma.con.sent) + Packed(to, Frames(sma.protocol, Fitting(sma.protocol, payloads)))
  {
    for n := 0 to |payloads|
      invariant sma.Valid()
      invariant sma.con.sent == old(sma.con.sent) + Packed(to, Frames(sma.protocol, Fitting(sma.protocol, payloads[..n])))
    {
      OneMoreFitting(sma.protocol, payloads, n);
      OneMoreFrame(sma.protocol, to, Fitting(sma.protocol, payloads[..n]), payloads[n]);
      var r := WriteOne(sma, payloads[n], to);
    }
    assert payloads[..|payloads|] == payloads;
  }

  /** The payloads among what successive calls returned. */
  function Received(got: seq<(int, seq<bv8>)>): seq<seq<bv8>> {
    if got == [] then []
    else (if 0 <= got[0].0 < ROOM then [got[0].1] else []) + Received(got[1..])
  }

  lemma {:induction false} ReceivedIsDelivered(results: seq<Verdict>, got: seq<(int, seq<bv8>)>)
    requires |got| == |results| && forall k :: 0 <= k < |got| ==> Matches(results[k], got[k])
    requires forall k :: 0 <= k < |results| && results[k].Payload? ==> |results[k].data| < ROOM
    ensures Received(got) == Delivered(results)
    decreases |got|
  {
    if got != [] {
      assert Matches(results[0], got[0]);
      ReceivedIsDelivered(results[1..], got[1..]);
    }
  }

  /** The results over frames that were written, collected. */
  lemma ReceivedIsSendable(protocol: bv16, payloads: seq<seq<bv8>>, s: seq<bv8>, got: seq<(int, seq<bv8>)>)
    requires PlainProtocol(protocol) && forall k :: 0 <= k < |payloads| ==> |payloads[k]| <= 255
    requires s == Written(protocol, payloads) && |got| == |Results(s)|
    requires forall k :: 0 <= k < |got| ==> Matches(Results(s)[k], got[k])
    ensures Received(got) == Sendable(protocol, payloads)
  {
    SessionDelivers(protocol, payloads);
    PayloadsFit(s);
    ReceivedIsDelivered(Results(s), got);
  }

  /** Whatever payloads are written, and however the peer cuts the frames that were sent into packets
      again, as long as the reader sees them undisturbed: it returns exactly those payloads whose
      frame fits a packet and whose checksum can be sent as it is, unchanged and in order. */
  method SendSession(writer: Smanet, payloads: seq<seq<bv8>>, to: seq<bv8>, chunks: seq<seq<bv8>>, count: nat)
    returns (received: seq<seq<bv8>>)
    requires writer.Valid() && PlainProtocol(writer.protocol) && |to| == 6
    requires forall k :: 0 <= k < |payloads| ==> |payloads[k]| <= 255
    requires Flat(chunks) == Flat(Frames(writer.protocol, Fitting(writer.protocol, payloads)))
    requires Sized(chunks) && Served([], chunks) && count == |Results(Flat(chunks))|
    modifies writer.con`sent
    ensures writer.con.sent == old(writer.con.sent) + Packed(to, Frames(writer.protocol, Fitting(writer.protocol, payloads)))
    ensures received == Sendable(writer.protocol, Fitting(writer.protocol, payloads))
  {
    WriteAll(writer, payloads, to);
    var got := ReadChunks(writer.protocol, chunks, count);
    received := Received(got);
    ghost var fitting := Fitting(writer.protocol, payloads);
    FlatOfFrames(writer.protocol, fitting);
    forall k | 0 <= k < |fitting| ensures |fitting[k]| <= 255 {
      assert fitting[k] in payloads;
    }
    ReceivedIsSendable(writer.protocol, fitting, Flat(chunks), got);
  }

  /** A new reader on these packets. */
  method ReadChunks(protocol: bv16, chunks: seq<seq<bv8>>, count: nat) returns (got: seq<(int, seq<bv8>)>)
    requires Sized(chunks) && Served([], chunks) && count == |Results(Flat(chunks))|
    ensures |got| == count && forall k :: 0 <= k < count ==> Matches(Results(Flat(chunks))[k], got[k])
  {
    var link := new Link(chunks);
    var reader := new Smanet(protocol, link);
    assert reader.readBuf[..reader.size] == [];
    got := ReadSession(reader, count);
  }

  // ---- where the program departs from its intent ----

  /** A frame of four bytes can carry a good checksum; the length of its payload then underflows. */
  lemma ShortFrameUnderflows()
    ensures Judge([0xff, 0x03] + Trailer([0xff, 0x03])) == Underflow
  {
    var c := [0xff as bv8, 0x03];
    ExactAcceptance(c + Trailer(c));
    assert (c + Trailer(c))[..2] == c && (c + Trailer(c))[2..] == Trailer(c);
  }

  /** Some payloads cannot be sent: the checksum over the single byte 0x17 ends in a flag. */
  lemma UnsendablePayload()
    ensures !Plain(Trailer(Content(0x6560, [0x17])))
  {
    var c := Content(0x6560, [0x17]);
    assert Low(0x6560) == 0x60 && High(0x6560) == 0x65;
    assert c == [0xff, 0x03, 0x60, 0x65, 0x17];
    OverCons(0xffff, c);
    OverCons(0x00ff, c[1..]);
    OverCons(0x3de3, c[2..]);
    OverCons(0xb6ae, c[3..]);
    OverCons(0x7869, c[4..]);
    assert Over(0x9a81, c[5..]) == 0x9a81;
    assert Trailer(c)[0] == HDLC_SYNC;
  }
}
