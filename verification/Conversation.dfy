/** What a peer says, from the byte stream to the top layer: the worker fills the queue while the other
    thread takes packets out of it, the framing layer finds the frames in them, and the top layer reads
    its packets. */
module Conversation {
  import opened FullStack
  import ByteOrder
  import Fcs
  import Hdlc
  import Fetch
  import Common
  import Smanet
  import Session
  import BtFraming
  import Handshake
  import Smabluetooth
  import Smadata2plus

  // ---- from the byte stream to the pieces of frames ----

  /** Pieces that may arrive for frames: they fit Bluetooth packets, and the reader sees them
      undisturbed. */
  predicate Pieces(chunks: seq<seq<bv8>>) {
    && (forall k :: 0 <= k < |chunks| ==> 1 <= |chunks[k]| <= BtFraming.MAX_DATA)
    && Fetch.Served([], chunks)
  }

  /** The Bluetooth packets with the pieces. */
  function Carrying(peer: BtFraming.Mac, own: BtFraming.Mac, chunks: seq<seq<bv8>>): (ps: seq<BtFraming.Packet>)
    ensures |ps| == |chunks|
    ensures forall k :: 0 <= k < |ps| ==> ps[k] == BtFraming.Packet(peer, own, 0x01, chunks[k])
  {
    seq(|chunks|, k requires 0 <= k < |chunks| => BtFraming.Packet(peer, own, 0x01, chunks[k]))
  }

  // ---- the two threads ----

  /** Whose turn it is: the worker's, or that of the thread that reads. */
  datatype Turn = Worker | Reader

  function WorkerTurns(schedule: seq<Turn>): nat {
    if schedule == [] then 0 else (if schedule[0].Worker? then 1 else 0) + WorkerTurns(schedule[1..])
  }

  /** The reader is never forty packets behind when another one comes. */
  predicate KeepsUp(schedule: seq<Turn>, waiting: nat) {
    if schedule == [] then true
    else if schedule[0].Worker? then waiting < Handshake.MAX_PACKETS_SIZE && KeepsUp(schedule[1..], waiting + 1)
    else KeepsUp(schedule[1..], if waiting > 0 then waiting - 1 else 0)
  }

  /** The connection is up, and the reader is inside `readPacket` or not. */
  ghost predicate Talking(bt: Smabluetooth.Smabluetooth, waits: bool)
    reads bt
  {
    && bt.Valid() && bt.Now().worker == Handshake.Polling && bt.state == Handshake.STATE_CONNECTED
    && bt.Now().client == if waits then Handshake.Waiting else Handshake.Ready
  }

  /** The reader's turn: it calls `readPacket`, or wakes up inside it. */
  method TakeOne(bt: Smabluetooth.Smabluetooth, waits: bool) returns (p: seq<BtFraming.Packet>)
    requires Talking(bt, waits)
    modifies bt`packets, bt`run, bt`steps
    ensures Talking(bt, p == [])
    ensures old(bt.packets) == p + bt.packets && |p| <= 1 && (p == [] ==> bt.packets == [])
  {
    ghost var got, queued := bt.Now().got, bt.packets;
    if waits {
      p := bt.WakeRead();
    } else {
      var ret;
      ret, p := bt.EnterRead();
    }
    if queued != [] {
      SameEnd(got, p, [queued[0]]);
    }
  }

  lemma SameEnd<T>(a: seq<T>, b: seq<T>, c: seq<T>)
    requires a + b == a + c
    ensures b == c
  {
    assert (a + b)[|a|..] == b && (a + c)[|a|..] == c;
  }

  /** The worker's turn: it stores the packet that comes. */
  method StoreOne(bt: Smabluetooth.Smabluetooth, data: array<bv8>, ghost waits: bool, ghost p: BtFraming.Packet, ghost tail: seq<bv8>)
    requires Talking(bt, waits) && data.Length == BtFraming.MAX_DATA
    requires p.cmd == 0x01 && p.dst == bt.mac && Smabluetooth.Comes(bt.con.incoming, p.src, p, tail)
    modifies bt, bt.con, data
    ensures Talking(bt, waits) && bt.mac == old(bt.mac) && bt.packets == Handshake.Pushed(old(bt.packets), p)
    ensures BtFraming.Steady(bt.con.incoming) && BtFraming.Flat(bt.con.incoming) == tail
  {
    bt.WorkerRound(data, p.src, p, tail);
  }

  /** The packets `ps` of which `count` were stored: the reader has taken some, the rest is queued. */
  ghost predicate Underway(ps: seq<BtFraming.Packet>, count: nat, taken: seq<BtFraming.Packet>, queued: seq<BtFraming.Packet>,
      schedule: seq<Turn>)
  {
    && count <= |ps| && taken + queued == ps[..count]
    && WorkerTurns(schedule) == |ps| - count && KeepsUp(schedule, |queued|)
  }

  lemma Stored(ps: seq<BtFraming.Packet>, count: nat, taken: seq<BtFraming.Packet>, queued: seq<BtFraming.Packet>, schedule: seq<Turn>)
    requires Underway(ps, count, taken, queued, schedule) && schedule != [] && schedule[0].Worker?
    ensures count < |ps| && Underway(ps, count + 1, taken, Handshake.Pushed(queued, ps[count]), schedule[1..])
  {
    Common.Regroup(taken, queued, [ps[count]]);
    assert ps[..count + 1] == ps[..count] + [ps[count]];
  }

  lemma TakenOne(ps: seq<BtFraming.Packet>, count: nat, taken: seq<BtFraming.Packet>, queued: seq<BtFraming.Packet>, schedule: seq<Turn>,
      p: seq<BtFraming.Packet>, queued': seq<BtFraming.Packet>)
    requires Underway(ps, count, taken, queued, schedule) && schedule != [] && schedule[0].Reader?
    requires queued == p + queued' && |p| <= 1 && (p == [] ==> queued' == [])
    ensures Underway(ps, count, taken + p, queued', schedule[1..])
  {
    Common.Regroup(taken, p, queued');
  }

  /** Everything that is still to come. */
  ghost predicate Coming(incoming: seq<BtFraming.Event>, peer: BtFraming.Mac, ps: seq<BtFraming.Packet>, count: nat)
    requires count <= |ps| && forall k :: 0 <= k < |ps| ==> |ps[k].data| <= BtFraming.MAX_DATA
  {
    BtFraming.Steady(incoming) && BtFraming.Flat(incoming) == BtFraming.EncodeAll(peer, ps[count..])
  }

  method WorkersTurn(bt: Smabluetooth.Smabluetooth, data: array<bv8>, ghost waits: bool, ghost taken: seq<BtFraming.Packet>,
      ghost peer: BtFraming.Mac, ghost chunks: seq<seq<bv8>>, ghost count: nat, ghost schedule: seq<Turn>)
    requires Talking(bt, waits) && Pieces(chunks) && data.Length == BtFraming.MAX_DATA && schedule != [] && schedule[0].Worker?
    requires Underway(Carrying(peer, bt.mac, chunks), count, taken, bt.packets, schedule)
    requires Coming(bt.con.incoming, peer, Carrying(peer, bt.mac, chunks), count)
    modifies bt, bt.con, data
    ensures Talking(bt, waits) && bt.mac == old(bt.mac)
    ensures Underway(Carrying(peer, bt.mac, chunks), count + 1, taken, bt.packets, schedule[1..])
    ensures Coming(bt.con.incoming, peer, Carrying(peer, bt.mac, chunks), count + 1)
  {
    ghost var ps := Carrying(peer, bt.mac, chunks);
    Stored(ps, count, taken, bt.packets, schedule);
    BtFraming.EncodeNext(peer, ps, count);
    StoreOne(bt, data, waits, ps[count], BtFraming.EncodeAll(peer, ps[count + 1..]));
  }

  method ReadersTurn(bt: Smabluetooth.Smabluetooth, waits: bool, taken: seq<BtFraming.Packet>, ghost ps: seq<BtFraming.Packet>,
      ghost count: nat, ghost schedule: seq<Turn>)
    returns (more: seq<BtFraming.Packet>, waiting: bool)
    requires Talking(bt, waits) && schedule != [] && schedule[0].Reader? && Underway(ps, count, taken, bt.packets, schedule)
    modifies bt`packets, bt`run, bt`steps
    ensures Talking(bt, waiting) && Underway(ps, count, more, bt.packets, schedule[1..])
  {
    ghost var queued := bt.packets;
    var p := TakeOne(bt, waits);
    TakenOne(ps, count, taken, queued, schedule, p, bt.packets);
    more, waiting := taken + p, p == [];
  }

  method TakeTurn(bt: Smabluetooth.Smabluetooth, data: array<bv8>, turn: Turn, waits: bool, taken: seq<BtFraming.Packet>,
      ghost peer: BtFraming.Mac, ghost chunks: seq<seq<bv8>>, ghost count: nat, ghost schedule: seq<Turn>)
    returns (more: seq<BtFraming.Packet>, waiting: bool, ghost now: nat)
    requires Talking(bt, waits) && Pieces(chunks) && data.Length == BtFraming.MAX_DATA && schedule != [] && turn == schedule[0]
    requires Underway(Carrying(peer, bt.mac, chunks), count, taken, bt.packets, schedule)
    requires Coming(bt.con.incoming, peer, Carrying(peer, bt.mac, chunks), count)
    modifies bt, bt.con, data
    ensures Talking(bt, waiting) && bt.mac == old(bt.mac)
    ensures Underway(Carrying(peer, bt.mac, chunks), now, more, bt.packets, schedule[1..])
    ensures Coming(bt.con.incoming, peer, Carrying(peer, bt.mac, chunks), now)
  {
    if turn.Worker? {
      WorkersTurn(bt, data, waits, taken, peer, chunks, count, schedule);
      more, waiting, now := taken, waits, count + 1;
    } else {
      more, waiting := ReadersTurn(bt, waits, taken, Carrying(peer, bt.mac, chunks), count, schedule);
      now := count;
    }
  }

  method TakeRest(bt: Smabluetooth.Smabluetooth, waits: bool, taken: seq<BtFraming.Packet>)
    returns (all: seq<BtFraming.Packet>, waiting: bool)
    requires Talking(bt, waits)
    modifies bt`packets, bt`run, bt`steps
    ensures Talking(bt, waiting) && bt.packets == [] && all == taken + old(bt.packets)
  {
    all, waiting := taken, waits;
    while bt.packets != []
      invariant Talking(bt, waiting) && all + bt.packets == taken + old(bt.packets)
      decreases |bt.packets|
    {
      var p := TakeOne(bt, waiting);
      Common.Regroup(all, p, bt.packets);
      all, waiting := all + p, p == [];
    }
  }

  /** The connection is up, the pieces are on their way to us, and the reader will keep up. */
  ghost predicate Arriving(bt: Smabluetooth.Smabluetooth, waits: bool, schedule: seq<Turn>, peer: BtFraming.Mac, chunks: seq<seq<bv8>>)
    reads bt, bt.con
  {
    && Talking(bt, waits) && bt.packets == [] && Pieces(chunks)
    && Coming(bt.con.incoming, peer, Carrying(peer, bt.mac, chunks), 0)
    && WorkerTurns(schedule) == |chunks| && KeepsUp(schedule, 0)
  }

  /** The connection is up, and everything that came was read. */
  ghost predicate Emptied(bt: Smabluetooth.Smabluetooth, waits: bool)
    reads bt, bt.con
  {
    Talking(bt, waits) && bt.packets == [] && BtFraming.Steady(bt.con.incoming) && BtFraming.Flat(bt.con.incoming) == []
  }

  /** The pieces a peer has sent come out of the queue as they were sent, whatever the byte stream makes
      of them and in whichever order the threads take their turns, as long as the reader keeps up. */
  method Gather(bt: Smabluetooth.Smabluetooth, waits: bool, schedule: seq<Turn>, ghost peer: BtFraming.Mac, ghost chunks: seq<seq<bv8>>)
    returns (pieces: seq<seq<bv8>>, waiting: bool)
    requires Arriving(bt, waits, schedule, peer, chunks)
    modifies bt, bt.con
    ensures Emptied(bt, waiting) && bt.mac == old(bt.mac) && pieces == chunks
  {
    var data := new bv8[BtFraming.MAX_DATA];
    ghost var ps, own, count := Carrying(peer, bt.mac, chunks), bt.mac, 0;
    var taken := [];
    waiting := waits;
    assert schedule[0..] == schedule;
    for i := 0 to |schedule|
      invariant Talking(bt, waiting) && bt.mac == own
      invariant Underway(ps, count, taken, bt.packets, schedule[i..]) && Coming(bt.con.incoming, peer, ps, count)
    {
      assert schedule[i..][1..] == schedule[i + 1..];
      taken, waiting, count := TakeTurn(bt, data, schedule[i], waiting, taken, peer, chunks, count, schedule[i..]);
    }
    assert taken + bt.packets == ps;
    taken, waiting := TakeRest(bt, waiting, taken);
    pieces := seq(|taken|, k requires 0 <= k < |taken| => taken[k].data);
  }

  // ---- the top layer on the framing layer ----

  /** What the coming `n` reads of a port answer. */
  function Answers(incoming: seq<Smadata2plus.Incoming>, n: nat, limit: nat): seq<Smadata2plus.Answer> {
    if n == 0 then []
    else OneAnswer(Smadata2plus.Next(incoming), limit) + Answers(Smadata2plus.LaterIn(incoming), n - 1, limit)
  }

  function OneAnswer(i: Smadata2plus.Incoming, limit: nat): seq<Smadata2plus.Answer> {
    if i.Data? then [Smadata2plus.Decode(i.bytes, limit)] else []
  }

  /** The top layer and the framing layer below it expect the same. */
  ghost predicate Joined(sma: Smadata2plus.Smadata2plus, net: Smanet.Smanet, peer: BtFraming.Mac)
    reads sma, sma.net, net, net.con, net.readBuf
  {
    sma.Valid() && net.Undisturbed() && Readable(net.Pending()) && sma.net.incoming == Deliveries(net.Pending(), peer)
  }

  lemma Distinct(net: Smanet.Smanet, link: Smanet.Link, buf: array<bv8>, sma: Smadata2plus.Smadata2plus, port: Smadata2plus.Port)
    ensures var a: object, b: object := link, port; a != sma && a != port && b != net && b != link && b != buf
  {
  }

  /** The framing layer is one read ahead of the top layer. */
  ghost predicate Ahead(sma: Smadata2plus.Smadata2plus, net: Smanet.Smanet, peer: BtFraming.Mac)
    reads sma, sma.net, net, net.con, net.readBuf
  {
    && sma.Valid() && net.Undisturbed() && Readable(net.Pending())
    && Deliveries(net.Pending(), peer) == Smadata2plus.LaterIn(sma.net.incoming)
  }

  method ReadBelow(ghost sma: Smadata2plus.Smadata2plus, net: Smanet.Smanet, limit: nat, ghost peer: BtFraming.Mac)
    returns (bytes: seq<bv8>)
    requires Joined(sma, net, peer)
    modifies net`size, net.con`packets, net.readBuf
    ensures Ahead(sma, net, peer) && sma.net.incoming == old(sma.net.incoming)
    ensures var next := Smadata2plus.Next(sma.net.incoming);
      bytes == if next.Data? then Smadata2plus.Cut(next.bytes, limit + Smadata2plus.HEADER_SIZE) else []
    ensures sma.net.incoming == [] || old(net.Pending()) == [] ==> net.Pending() == []
  {
    Distinct(net, net.con, net.readBuf, sma, sma.net);
    var buf := new bv8[limit + Smadata2plus.HEADER_SIZE];
    var r := ReadAsPort(net, buf, limit + Smadata2plus.HEADER_SIZE, peer);
    bytes := if r > 0 then buf[..r] else [];
  }

  method ReadAbove(sma: Smadata2plus.Smadata2plus, ghost net: Smanet.Smanet, limit: nat, ghost peer: BtFraming.Mac)
    returns (answers: seq<Smadata2plus.Answer>)
    requires Ahead(sma, net, peer) && limit <= 512
    modifies sma`heard, sma.net`incoming
    ensures Joined(sma, net, peer) && sma.net.incoming == Smadata2plus.LaterIn(old(sma.net.incoming))
    ensures answers == OneAnswer(Smadata2plus.Next(old(sma.net.incoming)), limit)
    ensures net.Pending() == old(net.Pending())
  {
    Distinct(net, net.con, net.readBuf, sma, sma.net);
    var ret, from, a := sma.Read(limit);
    answers := if ret == 0 then [a] else [];
    if ret == 0 {
      LastUnderstood(sma.heard);
    }
  }

  /** One read of the top layer, and the read of the framing layer it consists of: the answer is what is
      decoded from the bytes the framing layer hands over. */
  method ReadJoined(sma: Smadata2plus.Smadata2plus, net: Smanet.Smanet, limit: nat, ghost peer: BtFraming.Mac)
    returns (answers: seq<Smadata2plus.Answer>, bytes: seq<bv8>)
    requires Joined(sma, net, peer) && limit <= 512
    modifies sma`heard, sma.net`incoming, net`size, net.con`packets, net.readBuf
    ensures Joined(sma, net, peer) && sma.net.incoming == Smadata2plus.LaterIn(old(sma.net.incoming))
    ensures answers == OneAnswer(Smadata2plus.Next(old(sma.net.incoming)), limit)
    ensures if |bytes| < Smadata2plus.HEADER_SIZE then answers == [] else answers == [Smadata2plus.Decode(bytes, limit)]
    ensures old(sma.net.incoming) == [] || old(net.Pending()) == [] ==> net.Pending() == []
  {
    bytes := ReadBelow(sma, net, limit, peer);
    ghost var next := Smadata2plus.Next(sma.net.incoming);
    answers := ReadAbove(sma, net, limit, peer);
    if next.Data? {
      Smadata2plus.DecodeCut(next.bytes, limit);
    }
  }

  lemma LastUnderstood(heard: seq<Smadata2plus.Heard>)
    requires Smadata2plus.AllUnderstood(heard) && heard != []
    ensures var h := heard[|heard| - 1]; h.answer == Smadata2plus.Decode(h.bytes, h.limit)
  {
    assert Smadata2plus.Understood(heard[|heard| - 1]);
  }

  /** Reads `n` times. If that is more often than there are frames nothing is left behind. */
  method Listen(sma: Smadata2plus.Smadata2plus, net: Smanet.Smanet, n: nat, limit: nat, ghost peer: BtFraming.Mac)
    returns (answers: seq<Smadata2plus.Answer>)
    requires Joined(sma, net, peer) && limit <= 512
    modifies sma`heard, sma.net`incoming, net`size, net.con`packets, net.readBuf
    ensures Joined(sma, net, peer) && answers == Answers(old(sma.net.incoming), n, limit)
    ensures n > |old(sma.net.incoming)| || old(net.Pending()) == [] ==> net.Pending() == []
    decreases n
  {
    if n == 0 {
      return [];
    }
    var first, bytes := ReadJoined(sma, net, limit, peer);
    var others := Listen(sma, net, n - 1, limit, peer);
    answers := first + others;
  }

  // ---- what the peer says ----

  /** A packet of the top layer, the system it is for, and its counter. */
  datatype Addressed = Addressed(packet: Smadata2plus.Packet, sysId: ByteOrder.u16, cntr: ByteOrder.u16)

  type Message = m: Addressed | Smadata2plus.Sendable(m.packet) && |m.packet.data| <= 228
    witness Addressed(Smadata2plus.Packet(0, 0, 0, 0, true, []), 0, 0)

  /** The payload the framing layer is given for a message. */
  function Spoken(m: Message): (d: seq<bv8>)
    ensures |d| == Smadata2plus.HEADER_SIZE + |m.packet.data|
  {
    Payload(m.packet, m.sysId, m.cntr)
  }

  function Payloads(ms: seq<Message>): (ds: seq<seq<bv8>>)
    ensures |ds| == |ms|
    ensures forall k :: 0 <= k < |ds| ==> Smadata2plus.HEADER_SIZE <= |ds[k]| <= 252
  {
    Common.Each(Spoken, ms)
  }

  /** Neither byte of the checksum is a flag or an escape. */
  predicate Passes(d: seq<bv8>) { Session.Plain(Fcs.Trailer(Smanet.Content(PROTOCOL, d))) }

  /** The messages that can be sent. */
  function Heard(ms: seq<Message>): seq<Message> {
    if ms == [] then [] else (if Passes(Spoken(ms[0])) then [ms[0]] else []) + Heard(ms[1..])
  }

  lemma PayloadsConcat(ms: seq<Message>, ns: seq<Message>)
    ensures Payloads(ms + ns) == Payloads(ms) + Payloads(ns)
  {
    Common.EachConcat(Spoken, ms, ns);
  }

  lemma SendableCons(d: seq<bv8>, ds: seq<seq<bv8>>)
    ensures Session.Sendable(PROTOCOL, [d] + ds) == (if Passes(d) then [d] else []) + Session.Sendable(PROTOCOL, ds)
  {
    assert ([d] + ds)[1..] == ds;
  }

  lemma {:induction false} HeardAreSendable(ms: seq<Message>)
    ensures Session.Sendable(PROTOCOL, Payloads(ms)) == Payloads(Heard(ms))
  {
    if ms != [] {
      HeardAreSendable(ms[1..]);
      OneMoreSendable(ms[0], ms[1..], Heard(ms[1..]));
      assert ms == [ms[0]] + ms[1..];
    }
  }

  lemma OneMoreSendable(m: Message, ms: seq<Message>, hs: seq<Message>)
    requires Session.Sendable(PROTOCOL, Payloads(ms)) == Payloads(hs)
    ensures Session.Sendable(PROTOCOL, Payloads([m] + ms)) == Payloads((if Passes(Spoken(m)) then [m] else []) + hs)
  {
    PayloadsConcat([m], ms);
    SendableCons(Spoken(m), Payloads(ms));
    PayloadsConcat(if Passes(Spoken(m)) then [m] else [], hs);
    assert Payloads([m]) == [Spoken(m)] && Payloads([]) == [];
  }

  /** A stream of the top layer's frames can be read, spoiled ones included. */
  lemma FlagsReadable(s: seq<bv8>)
    requires Readable(s)
    ensures Readable([Hdlc.HDLC_SYNC] + s)
  {
    Hdlc.SkipFlag(s);
  }

  lemma FrameReadable(s: seq<bv8>, content: seq<bv8>, rest: seq<bv8>)
    requires Hdlc.ScanStream(s) == Hdlc.Frame(content, rest) && Usable(Smanet.Judge(content)) && Readable(rest)
    ensures Readable(s)
  {
  }

  /** One stray byte in front of a frame. */
  lemma StrayReadable(b: bv8, tail: seq<bv8>)
    requires Session.NextFrame(tail) && Readable(tail)
    ensures Readable([b, Hdlc.HDLC_SYNC] + tail)
  {
    var s, end := [b, Hdlc.HDLC_SYNC] + tail, [Hdlc.HDLC_SYNC] + tail;
    assert s == [b] + end;
    FlagsReadable(tail);
    if b == Hdlc.HDLC_SYNC {
      FlagsReadable(end);
    } else if b == Hdlc.HDLC_ESC {
      var x := Hdlc.Flip(Hdlc.HDLC_SYNC);
      assert s[2..] == tail && [] + [x] == [x];
      assert Hdlc.ScanStream(s) == Hdlc.ScanFrom([x], tail);
      Session.ScanAtFlag([x], tail);
      Session.OneByteRejectedHere(x);
      if tail != [] {
        FrameReadable(s, [x], tail);
      }
    } else {
      assert s[1..] == end && [] + [b] == [b];
      assert Hdlc.ScanStream(s) == Hdlc.ScanFrom([b], end);
      Session.ScanAtFlag([b], end);
      Session.OneByteRejectedHere(b);
      FrameReadable(s, [b], end);
    }
  }

  lemma SpoiledReadable(s: seq<bv8>, b: bv8, tail: seq<bv8>)
    requires Session.SpoiledScan(Hdlc.ScanStream(s), b, tail) && Session.NextFrame(tail) && Readable(tail)
    ensures Readable(s)
  {
    var scan := Hdlc.ScanStream(s);
    if scan.Frame? {
      var sync := [Hdlc.HDLC_SYNC];
      assert [Hdlc.HDLC_SYNC, b, Hdlc.HDLC_SYNC] + tail == sync + ([b, Hdlc.HDLC_SYNC] + tail);
      assert [Hdlc.HDLC_SYNC, Hdlc.HDLC_SYNC] + tail == sync + (sync + tail);
      StrayReadable(b, tail);
      FlagsReadable([b, Hdlc.HDLC_SYNC] + tail);
      FlagsReadable(tail);
      FlagsReadable(sync + tail);
      FrameReadable(s, scan.content, scan.rest);
    }
  }

  lemma OneReadable(data: seq<bv8>, tail: seq<bv8>)
    requires Smadata2plus.HEADER_SIZE <= |data| <= 255 && Session.NextFrame(tail) && Readable(tail)
    ensures Readable(Smanet.WireFrame(PROTOCOL, data) + tail)
  {
    var s, t := Smanet.WireFrame(PROTOCOL, data) + tail, Fcs.Trailer(Smanet.Content(PROTOCOL, data));
    Session.ProgramProtocolIsPlain();
    if Session.Plain(t) {
      Session.PlainFrameReadBack(PROTOCOL, data, tail);
      FlagsReadable(tail);
      FrameReadable(s, Smanet.Content(PROTOCOL, data) + t, [Hdlc.HDLC_SYNC] + tail);
    } else {
      Session.SpoiledFrame(PROTOCOL, data, tail);
      SpoiledReadable(s, t[1], tail);
    }
  }

  lemma {:induction false} WrittenReadable(payloads: seq<seq<bv8>>)
    requires forall k :: 0 <= k < |payloads| ==> Smadata2plus.HEADER_SIZE <= |payloads[k]| <= 255
    ensures Readable(Session.Written(PROTOCOL, payloads))
    decreases |payloads|
  {
    if payloads == [] {
      assert Readable([]);
    } else {
      var tail := Session.Written(PROTOCOL, payloads[1..]);
      WrittenReadable(payloads[1..]);
      assert Session.NextFrame(tail);
      OneReadable(payloads[0], tail);
    }
  }

  /** The payloads among the results, decoded. */
  function Decoded(payloads: seq<seq<bv8>>, limit: nat): seq<Smadata2plus.Answer>
    requires Long(payloads)
  {
    seq(|payloads|, k requires 0 <= k < |payloads| && Long(payloads) => Smadata2plus.Decode(payloads[k], limit))
  }

  lemma {:induction false} NothingAnswered(n: nat, limit: nat)
    ensures Answers([], n, limit) == []
  {
    if n > 0 {
      NothingAnswered(n - 1, limit);
    }
  }

  lemma AnswersCons(i: Smadata2plus.Incoming, incoming: seq<Smadata2plus.Incoming>, n: nat, limit: nat)
    requires n > 0
    ensures Answers([i] + incoming, n, limit) == OneAnswer(i, limit) + Answers(incoming, n - 1, limit)
  {
    assert ([i] + incoming)[1..] == incoming;
  }

  lemma DeliveriesOfFrame(s: seq<bv8>, content: seq<bv8>, rest: seq<bv8>, peer: BtFraming.Mac)
    requires Readable(s) && Hdlc.ScanStream(s) == Hdlc.Frame(content, rest)
    ensures Usable(Smanet.Judge(content)) && Readable(rest)
    ensures Deliveries(s, peer) == [OneDelivery(Smanet.Judge(content), peer)] + Deliveries(rest, peer)
  {
  }

  predicate Long(payloads: seq<seq<bv8>>) {
    forall k :: 0 <= k < |payloads| ==> |payloads[k]| >= Smadata2plus.HEADER_SIZE
  }

  lemma DecodedCons(v: Smanet.Verdict, from: BtFraming.Mac, ds: seq<seq<bv8>>, limit: nat)
    requires Usable(v) && Long(ds)
    ensures var all := (if v.Payload? then [v.data] else []) + ds;
      Long(all) && Decoded(all, limit) == OneAnswer(OneDelivery(v, from), limit) + Decoded(ds, limit)
  {
    var front := if v.Payload? then [v.data] else [];
    assert Long(front + ds);
    assert Decoded(front + ds, limit) == OneAnswer(OneDelivery(v, from), limit) + Decoded(ds, limit);
  }

  lemma OneMoreAnswered(v: Smanet.Verdict, rs: seq<Smanet.Verdict>, incoming: seq<Smadata2plus.Incoming>, n: nat, limit: nat,
      peer: BtFraming.Mac)
    requires Usable(v) && n > 0 && Long(Session.Delivered(rs))
    requires Answers(incoming, n - 1, limit) == Decoded(Session.Delivered(rs), limit)
    ensures Long(Session.Delivered([v] + rs))
    ensures Answers([OneDelivery(v, peer)] + incoming, n, limit) == Decoded(Session.Delivered([v] + rs), limit)
  {
    Session.DeliveredCons(v, rs);
    AnswersCons(OneDelivery(v, peer), incoming, n, limit);
    DecodedCons(v, peer, Session.Delivered(rs), limit);
  }

  /** As many reads as there are results answer all that is delivered. */
  lemma {:induction false} AnswersAreDelivered(s: seq<bv8>, n: nat, limit: nat, peer: BtFraming.Mac)
    requires Readable(s) && n >= |Session.Results(s)|
    ensures |Deliveries(s, peer)| == |Session.Results(s)|
    ensures var ds := Session.Delivered(Session.Results(s));
      Long(ds) && Answers(Deliveries(s, peer), n, limit) == Decoded(ds, limit)
    decreases |s|
  {
    var scan := Hdlc.ScanStream(s);
    if scan.Frame? {
      Hdlc.FrameEndsAtFlag([], s);
      var v, rest := Smanet.Judge(scan.content), scan.rest;
      DeliveriesOfFrame(s, scan.content, rest, peer);
      Session.ResultsOfFrame(s, scan.content, rest);
      AnswersAreDelivered(rest, n - 1, limit, peer);
      OneMoreAnswered(v, Session.Results(rest), Deliveries(rest, peer), n, limit, peer);
    } else {
      NothingAnswered(n, limit);
    }
  }

  /** The answers are the messages, as far as that can be told from what is received. */
  ghost predicate SameMessages(answers: seq<Smadata2plus.Answer>, ms: seq<Message>, limit: nat) {
    && |answers| == |ms|
    && forall k :: 0 <= k < |ms| ==> SameMessage(answers[k], ms[k].packet, ms[k].sysId, ms[k].cntr, limit)
  }

  lemma OneSame(m: Message, limit: nat)
    ensures SameMessage(Smadata2plus.Decode(Spoken(m), limit), m.packet, m.sysId, m.cntr, limit)
  {
    Smadata2plus.DecodeEncode(m.packet, m.sysId, m.cntr, limit);
  }

  lemma DecodedAreSame(ms: seq<Message>, limit: nat)
    ensures SameMessages(Decoded(Payloads(ms), limit), ms, limit)
  {
    forall k | 0 <= k < |ms|
      ensures SameMessage(Smadata2plus.Decode(Payloads(ms)[k], limit), ms[k].packet, ms[k].sysId, ms[k].cntr, limit) {
      OneSame(ms[k], limit);
    }
  }

  /** `s` is what a peer says, and `n` reads are more than enough for it. */
  ghost predicate Says(s: seq<bv8>, ms: seq<Message>, n: nat) {
    s == Session.Written(PROTOCOL, Payloads(ms)) && n > |Session.Results(s)|
  }

  /** The answers to reading the messages of a peer are those messages, in order, that can be sent. */
  lemma SpokenIsHeard(s: seq<bv8>, ms: seq<Message>, n: nat, limit: nat, peer: BtFraming.Mac)
    requires Says(s, ms, n)
    ensures Readable(s) && |Deliveries(s, peer)| < n
    ensures SameMessages(Answers(Deliveries(s, peer), n, limit), Heard(ms), limit)
  {
    Session.ProgramProtocolIsPlain();
    WrittenReadable(Payloads(ms));
    AnswersAreDelivered(s, n, limit, peer);
    Session.SessionDelivers(PROTOCOL, Payloads(ms));
    HeardAreSendable(ms);
    DecodedAreSame(Heard(ms), limit);
  }

  /** The framing layer and the top layer on it are between two conversations. */
  ghost predicate Silent(net: Smanet.Smanet, sma: Smadata2plus.Smadata2plus)
    reads sma, sma.net, net, net.con, net.readBuf
  {
    net.Undisturbed() && net.Pending() == [] && sma.Valid()
  }

  method FillReader(net: Smanet.Smanet, pieces: seq<seq<bv8>>)
    requires net.Undisturbed() && net.Pending() == [] && Pieces(pieces)
    modifies net.con`packets
    ensures net.Undisturbed() && net.Pending() == Common.Flat(pieces)
  {
    net.con.packets := pieces;
  }

  method Fill(net: Smanet.Smanet, sma: Smadata2plus.Smadata2plus, pieces: seq<seq<bv8>>, peer: BtFraming.Mac)
    requires Silent(net, sma) && Pieces(pieces) && Readable(Common.Flat(pieces))
    modifies net.con`packets, sma.net`incoming
    ensures Joined(sma, net, peer) && sma.net.incoming == Deliveries(Common.Flat(pieces), peer)
  {
    Distinct(net, net.con, net.readBuf, sma, sma.net);
    FillReader(net, pieces);
    sma.net.incoming := Deliveries(Common.Flat(pieces), peer);
  }

  /** The pieces are there for the framing layer, and what it will deliver for the top layer. */
  method Hear(net: Smanet.Smanet, sma: Smadata2plus.Smadata2plus, pieces: seq<seq<bv8>>, n: nat, limit: nat, peer: BtFraming.Mac,
      ghost ms: seq<Message>) returns (answers: seq<Smadata2plus.Answer>)
    requires Silent(net, sma) && limit <= 512 && Pieces(pieces) && Says(Common.Flat(pieces), ms, n)
    modifies net`size, net.con`packets, net.readBuf, sma`heard, sma.net`incoming
    ensures Silent(net, sma) && SameMessages(answers, Heard(ms), limit)
  {
    ghost var s := Common.Flat(pieces);
    SpokenIsHeard(s, ms, n, limit, peer);
    Fill(net, sma, pieces, peer);
    answers := Listen(sma, net, n, limit, peer);
  }

  /** The connection and the layers above it have nothing in common but the pieces. */
  lemma Apart(bt: Smabluetooth.Smabluetooth, con: BtFraming.Stream, net: Smanet.Smanet, link: Smanet.Link, buf: array<bv8>,
      sma: Smadata2plus.Smadata2plus, port: Smadata2plus.Port)
    ensures var a: object, b: object := bt, con;
      a != sma && a != port && a != net && a != link && a != buf && b != sma && b != port && b != net && b != link && b != buf
  {
  }

  method GatherBelow(bt: Smabluetooth.Smabluetooth, ghost net: Smanet.Smanet, ghost sma: Smadata2plus.Smadata2plus, waits: bool,
      schedule: seq<Turn>, ghost peer: BtFraming.Mac, ghost chunks: seq<seq<bv8>>)
    returns (pieces: seq<seq<bv8>>, waiting: bool)
    requires Arriving(bt, waits, schedule, peer, chunks) && Silent(net, sma)
    modifies bt, bt.con
    ensures Emptied(bt, waiting) && bt.mac == old(bt.mac) && pieces == chunks && Silent(net, sma)
  {
    Apart(bt, bt.con, net, net.con, net.readBuf, sma, sma.net);
    pieces, waiting := Gather(bt, waits, schedule, peer, chunks);
  }

  method HearAbove(ghost bt: Smabluetooth.Smabluetooth, net: Smanet.Smanet, sma: Smadata2plus.Smadata2plus, ghost waiting: bool,
      pieces: seq<seq<bv8>>, n: nat, limit: nat, peer: BtFraming.Mac, ghost ms: seq<Message>)
    returns (answers: seq<Smadata2plus.Answer>)
    requires Emptied(bt, waiting) && Silent(net, sma) && limit <= 512 && Pieces(pieces) && Says(Common.Flat(pieces), ms, n)
    modifies net`size, net.con`packets, net.readBuf, sma`heard, sma.net`incoming
    ensures Silent(net, sma) && SameMessages(answers, Heard(ms), limit)
    ensures Emptied(bt, waiting) && bt.mac == old(bt.mac)
  {
    Apart(bt, bt.con, net, net.con, net.readBuf, sma, sma.net);
    answers := Hear(net, sma, pieces, n, limit, peer, ms);
  }

  /** A conversation: what a peer says in any number of packets of the top layer comes out of the top
      layer with control byte, flag, destination, counter and payload, in order, however the peer cuts
      its frames, the byte stream cuts the pieces and the threads take their turns, as long as the reader
      keeps up with the worker. A message is missing exactly if its checksum contains a flag or an
      escape. All layers are then where they were, and the conversation can go on. */
  method Receive(bt: Smabluetooth.Smabluetooth, net: Smanet.Smanet, sma: Smadata2plus.Smadata2plus, waits: bool,
      schedule: seq<Turn>, n: nat, limit: nat, peer: BtFraming.Mac, ghost chunks: seq<seq<bv8>>, ghost ms: seq<Message>)
    returns (answers: seq<Smadata2plus.Answer>, waiting: bool)
    requires Arriving(bt, waits, schedule, peer, chunks) && Silent(net, sma) && limit <= 512
    requires Says(Common.Flat(chunks), ms, n)
    modifies bt, bt.con, net`size, net.con`packets, net.readBuf, sma`heard, sma.net`incoming
    ensures SameMessages(answers, Heard(ms), limit)
    ensures Emptied(bt, waiting) && bt.mac == old(bt.mac) && Silent(net, sma)
  {
    var pieces;
    pieces, waiting := GatherBelow(bt, net, sma, waits, schedule, peer, chunks);
    answers := HearAbove(bt, net, sma, waiting, pieces, n, limit, peer, ms);
  }
}
