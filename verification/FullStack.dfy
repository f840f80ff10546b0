/** All layers together: a packet of the top layer through framing, Bluetooth packets and the byte
    stream, and back. */
module FullStack {
  import ByteOrder
  import Fcs
  import Hdlc
  import Smanet
  import Session
  import BtFraming
  import Smadata2plus

  const PROTOCOL: bv16 := 0x6560

  /** The payload the framing layer is given for a packet. */
  function Payload(p: Smadata2plus.Packet, sysId: ByteOrder.u16, cntr: ByteOrder.u16): seq<bv8>
    requires Smadata2plus.Sendable(p)
  {
    Smadata2plus.Encode(p, sysId, cntr)
  }

  lemma FrameLength(protocol: bv16, data: seq<bv8>)
    ensures |Smanet.WireFrame(protocol, data)| == |data| + Hdlc.Specials(data) + 8
    ensures |Smanet.WireFrame(protocol, data)| <= 2 * |data| + 8
  {
    Hdlc.StuffLength(data);
  }

  // ---- sending ----

  /** A packet with at most 40 bytes of payload, which is all the program sends, leaves in a single
      Bluetooth packet that carries the whole frame, if its destination is known and the connection
      takes it. */
  method Send(sma: Smadata2plus.Smadata2plus, net: Smanet.Smanet, con: BtFraming.Stream, own: BtFraming.Mac,
      p: Smadata2plus.Packet, cntr: ByteOrder.u16) returns (r: int)
    requires net.Valid() && net.protocol == PROTOCOL && Smadata2plus.Sendable(p) && |p.data| <= 40
    modifies net.con`sent, con`accepts, con`outgoing
    ensures var target := Smadata2plus.Target(sma.devices, p.dstSerial);
      && r == (if target.Some? && BtFraming.Accepted(old(con.accepts)) then 0 else -1)
      && (target.None? ==> net.con.sent == old(net.con.sent))
      && (r < 0 ==> con.outgoing == old(con.outgoing))
      && (target.Some? ==> SentFrame(p, target.value.0, target.value.1, cntr, own, r, old(net.con.sent), net.con.sent,
            old(con.outgoing), con.outgoing))
    ensures p.dstSerial == 0xffff_ffff ==> (
      SentFrame(p, 0xffff, [0xff, 0xff, 0xff, 0xff, 0xff, 0xff], cntr, own, r, old(net.con.sent), net.con.sent, old(con.outgoing), con.outgoing))
    ensures forall i :: p.dstSerial != 0xffff_ffff && Smadata2plus.IsFirst(sma.devices, p.dstSerial, i) ==> (
      var d := sma.devices[i];
      SentFrame(p, d.sysId, d.mac, cntr, own, r, old(net.con.sent), net.con.sent, old(con.outgoing), con.outgoing))
    ensures p.dstSerial != 0xffff_ffff && (forall i :: 0 <= i < |sma.devices| ==> sma.devices[i].serial != p.dstSerial) ==> (
      r == -1 && net.con.sent == old(net.con.sent) && con.outgoing == old(con.outgoing))
  {
    Smadata2plus.TargetIs(sma.devices, p.dstSerial);
    var target := sma.Address(p.dstSerial);
    if target.None? {
      return -1;
    }
    r := SendTo(net, con, own, p, target.value.0, target.value.1, cntr);
  }

  /** The frame of the packet was handed down, and is on the stream if that worked. */
  ghost predicate SentFrame(p: Smadata2plus.Packet, sysId: ByteOrder.u16, mac: BtFraming.Mac, cntr: ByteOrder.u16,
      own: BtFraming.Mac, r: int, before: seq<(seq<bv8>, seq<bv8>)>, after: seq<(seq<bv8>, seq<bv8>)>, out: seq<bv8>, out': seq<bv8>)
    requires Smadata2plus.Sendable(p)
  {
    var frame := Smanet.WireFrame(PROTOCOL, Payload(p, sysId, cntr));
    && after == before + [(mac, frame)] && |frame| <= BtFraming.MAX_DATA
    && (r == 0 ==> out' == out + BtFraming.Encode(own, BtFraming.Packet(own, mac, 0x01, frame)))
  }

  method SendTo(net: Smanet.Smanet, con: BtFraming.Stream, own: BtFraming.Mac, p: Smadata2plus.Packet,
      sysId: ByteOrder.u16, mac: BtFraming.Mac, cntr: ByteOrder.u16) returns (r: int)
    requires net.Valid() && net.protocol == PROTOCOL && Smadata2plus.Sendable(p) && |p.data| <= 40
    modifies net.con`sent, con`accepts, con`outgoing
    ensures r == if BtFraming.Accepted(old(con.accepts)) then 0 else -1
    ensures r < 0 ==> con.outgoing == old(con.outgoing)
    ensures SentFrame(p, sysId, mac, cntr, own, r, old(net.con.sent), net.con.sent, old(con.outgoing), con.outgoing)
  {
    var buf := new bv8[Smadata2plus.BUF_LEN];
    Smadata2plus.PutPacket(buf, p, sysId, cntr);
    FrameLength(PROTOCOL, Payload(p, sysId, cntr));
    r := net.Write(buf, Smadata2plus.HEADER_SIZE + |p.data|, mac);
    var (to, frame) := net.con.sent[|net.con.sent| - 1];
    r := BtFraming.WritePacket(con, own, BtFraming.Packet(own, to, 0x01, frame));
  }

  // ---- the framing layer as the top layer sees it ----

  /** Payloads of a header at least, and frames that are thrown away. */
  predicate Usable(v: Smanet.Verdict) {
    v.Rejected? || (v.Payload? && |v.data| >= Smadata2plus.HEADER_SIZE)
  }

  /** A stream of usable frames. */
  predicate Readable(s: seq<bv8>)
    decreases |s|
  {
    match Hdlc.ScanStream(s)
    case Frame(content, rest) =>
      Hdlc.FrameEndsAtFlag([], s);
      Usable(Smanet.Judge(content)) && Readable(rest)
    case Incomplete => true
    case TooBig(_) => false
  }

  /** What a readable stream delivers to the top layer. */
  function Deliveries(s: seq<bv8>, from: BtFraming.Mac): seq<Smadata2plus.Incoming>
    requires Readable(s)
    decreases |s|
  {
    match Hdlc.ScanStream(s)
    case Frame(content, rest) =>
      Hdlc.FrameEndsAtFlag([], s);
      [OneDelivery(Smanet.Judge(content), from)] + Deliveries(rest, from)
    case Incomplete => []
  }

  function OneDelivery(v: Smanet.Verdict, from: BtFraming.Mac): Smadata2plus.Incoming
    requires Usable(v)
  {
    if v.Payload? then Smadata2plus.Data(from, v.data) else Smadata2plus.Failure
  }

  /** Reading from the framing layer keeps the contract the top layer relies on (`Port.Read`): what the
      pending bytes deliver is what the coming reads of the port deliver. */
  method ReadAsPort(net: Smanet.Smanet, buf: array<bv8>, len: nat, ghost from: BtFraming.Mac) returns (r: int)
    requires net.Undisturbed() && Readable(net.Pending()) && buf != net.readBuf
    requires Smadata2plus.HEADER_SIZE <= len <= buf.Length
    modifies net`size, net.con`packets, net.readBuf, buf
    ensures net.Undisturbed() && Readable(net.Pending())
    ensures Deliveries(net.Pending(), from) == Smadata2plus.LaterIn(Deliveries(old(net.Pending()), from))
    ensures Smadata2plus.Next(Deliveries(old(net.Pending()), from)).Failure? ==> r == -1
    ensures Smadata2plus.Next(Deliveries(old(net.Pending()), from)).Data? ==> (
      && Smadata2plus.HEADER_SIZE <= r <= len
      && buf[..r] == Smadata2plus.Cut(Smadata2plus.Next(Deliveries(old(net.Pending()), from)).bytes, len))
    ensures Deliveries(old(net.Pending()), from) == [] || old(net.Pending()) == [] ==> net.Pending() == []
  {
    ghost var scan := Hdlc.ScanStream(net.Pending());
    r := net.Read(buf, len);
    if scan.Frame? && Smanet.Judge(scan.content).Payload? {
      ghost var d := Smanet.Judge(scan.content).data;
      assert buf[..][..r] == d[..r] && buf[..r] == buf[..][..r];
      assert d[..r] == Smadata2plus.Cut(d, len);
    }
    if r <= 0 {
      r := -1;
    }
  }

  // ---- one packet ----

  /** The next frame as the receiver scans it: intact exactly when its checksum bytes are plain. */
  lemma FrameReadBack(data: seq<bv8>, tail: seq<bv8>)
    requires |data| <= 255 && Session.NextFrame(tail)
    ensures var scan := Hdlc.ScanStream(Smanet.WireFrame(PROTOCOL, data) + tail);
      if Session.Plain(Fcs.Trailer(Smanet.Content(PROTOCOL, data)))
      then scan.Frame? && Smanet.Judge(scan.content) == Smanet.Payload(data) && scan.rest == [Hdlc.HDLC_SYNC] + tail
      else scan.Incomplete? || (scan.Frame? && Smanet.Judge(scan.content) == Smanet.Rejected)
  {
    Session.ProgramProtocolIsPlain();
    if Session.Plain(Fcs.Trailer(Smanet.Content(PROTOCOL, data))) {
      Session.PlainFrameReadBack(PROTOCOL, data, tail);
    } else {
      Session.SpoiledFrame(PROTOCOL, data, tail);
    }
  }

  /** One read of the framing layer, whatever its buffer and the packets hold of the frame. */
  method ReadFrame(net: Smanet.Smanet, len: nat, ghost data: seq<bv8>, ghost tail: seq<bv8>) returns (r: int, got: seq<bv8>)
    requires net.Undisturbed() && net.Pending() == Smanet.WireFrame(PROTOCOL, data) + tail && Session.NextFrame(tail)
    requires 0 < |data| <= 255 && len > 0
    modifies net`size, net.con`packets, net.readBuf
    ensures net.Undisturbed()
    ensures Session.Plain(Fcs.Trailer(Smanet.Content(PROTOCOL, data))) ==> (
      r > 0 && got == Smadata2plus.Cut(data, len) && net.Pending() == [Hdlc.HDLC_SYNC] + tail)
    ensures !Session.Plain(Fcs.Trailer(Smanet.Content(PROTOCOL, data))) ==> r <= 0
  {
    var buf := new bv8[len];
    FrameReadBack(data, tail);
    r := net.Read(buf, len);
    got := if 0 <= r <= len then buf[..][..r] else [];
  }

  /** What was sent, as far as it can be told from what was received. */
  predicate SameMessage(a: Smadata2plus.Answer, p: Smadata2plus.Packet, sysId: ByteOrder.u16, cntr: ByteOrder.u16, limit: nat) {
    && a.ctrl == p.ctrl && a.flag == p.flag && a.dstSysId == sysId && a.dstSerial == p.dstSerial
    && a.transactionCntr == cntr && a.packetNum == Smadata2plus.NumberSent(p) && a.data == Smadata2plus.Cut(p.data, limit)
  }

  /** A packet of the top layer out of any reader that has its frame pending, with whatever follows. */
  method ReadPacket(net: Smanet.Smanet, limit: nat, ghost p: Smadata2plus.Packet, ghost sysId: ByteOrder.u16,
      ghost cntr: ByteOrder.u16, ghost tail: seq<bv8>) returns (ret: int, a: Smadata2plus.Answer)
    requires Smadata2plus.Sendable(p) && |p.data| <= 228 && Session.NextFrame(tail)
    requires net.Undisturbed() && net.Pending() == Smanet.WireFrame(PROTOCOL, Payload(p, sysId, cntr)) + tail
    modifies net`size, net.con`packets, net.readBuf
    ensures net.Undisturbed()
    ensures ret == 0 <==> Session.Plain(Fcs.Trailer(Smanet.Content(PROTOCOL, Payload(p, sysId, cntr))))
    ensures ret == 0 ==> SameMessage(a, p, sysId, cntr, limit) && net.Pending() == [Hdlc.HDLC_SYNC] + tail
  {
    ghost var data := Payload(p, sysId, cntr);
    a := Smadata2plus.Answer(0, 0, 0, 0, 0, 0, false, 0, 0, []);
    var r, got := ReadFrame(net, limit + Smadata2plus.HEADER_SIZE, data, tail);
    if r <= 0 {
      return -1, a;
    }
    a := Smadata2plus.Decode(got, limit);
    ret := 0;
    Smadata2plus.DecodeCut(data, limit);
    Smadata2plus.DecodeEncode(p, sysId, cntr, limit);
  }
}
