/** The top layer of src/smadata2plus.cpp: the packet header, the devices it is addressed with, and
    the counter that numbers transactions. */
module Smadata2plus {
  import opened Bytes
  import opened ByteOrder
  import BtFraming

  type Mac = BtFraming.Mac

  const SERIAL_BROADCAST: u32 := 0xffff_ffff
  const SYSID_BROADCAST: u16 := 0xffff
  const SMADATA2PLUS_SERIAL: u32 := 0x3a8b_74b6
  const SMADATA2PLUS_SYSID: u16 := 0x0078
  const HEADER_SIZE := 24
  const BUF_LEN := 535

  const CTRL_MASTER: bv8 := 0xa0
  const CTRL_NO_BROADCAST: bv8 := 0x40
  const CTRL_UNKNOWN: bv8 := 0x08

  datatype Option<T> = None | Some(value: T)

  datatype Device = Device(sysId: u16, serial: u32, mac: Mac)

  /** What a caller asks to be sent. */
  datatype Packet = Packet(ctrl: bv8, dstSerial: u32, flag: bv8, packetNum: u16, start: bool, data: seq<bv8>)

  /** What a received packet says. */
  datatype Answer = Answer(ctrl: bv8, dstSysId: u16, dstSerial: u32, srcSysId: u16, srcSerial: u32, flag: bv8,
    start: bool, packetNum: u16, transactionCntr: u16, data: seq<bv8>)

  // ---- packet codec ----

  function LengthByte(len: nat): bv8
    requires len + HEADER_SIZE <= BUF_LEN
  {
    ToByte((len + HEADER_SIZE) / 4)
  }

  /** The packet number goes out in one byte, and only when the packet starts something. */
  function NumberByte(p: Packet): bv8 { if p.start then ToByte(p.packetNum % 256) else 0 }

  function EchoedFlag(p: Packet): bv8 { if p.ctrl == 0xe8 then 0 else p.flag }

  predicate Sendable(p: Packet) { |p.data| + HEADER_SIZE <= BUF_LEN && |p.data| % 4 == 0 }

  /** Who the packet is for, who it is from, and its place in the conversation. */
  function Front(p: Packet, sysId: u16): (h: seq<bv8>)
    requires Sendable(p)
    ensures |h| == 10
  {
    [LengthByte(|p.data|)] + [p.ctrl] + FromU16(sysId) + FromU32(p.dstSerial) + [0x00] + [p.flag]
  }

  function Middle(sysId: u16, serial: u32, flag: bv8): (h: seq<bv8>)
    ensures |h| == 10
  {
    FromU16(sysId) + FromU32(serial) + [0x00] + [flag] + [0x00, 0x00]
  }

  function Back(p: Packet, cntr: u16): (h: seq<bv8>)
    ensures |h| == 4
  {
    [NumberByte(p), 0] + FromU16(cntr)
  }

  function Header(p: Packet, sysId: u16, cntr: u16): (h: seq<bv8>)
    requires Sendable(p)
    ensures |h| == HEADER_SIZE
  {
    Front(p, sysId) + Middle(SMADATA2PLUS_SYSID, SMADATA2PLUS_SERIAL, EchoedFlag(p)) + Back(p, cntr)
  }

  function Encode(p: Packet, sysId: u16, cntr: u16): (s: seq<bv8>)
    requires Sendable(p)
    ensures |s| == HEADER_SIZE + |p.data|
  {
    Header(p, sysId, cntr) + p.data
  }

  function Cut(s: seq<bv8>, limit: nat): seq<bv8> { if |s| < limit then s else s[..limit] }

  /** What is read from the bytes of a packet by a caller with room for `limit` payload bytes. */
  function Decode(s: seq<bv8>, limit: nat): (a: Answer)
    requires |s| >= HEADER_SIZE
    ensures |a.data| <= limit
  {
    Answer(s[1], U16(s, 2), U32(s, 4), U16(s, 10), U32(s, 12), s[9],
           s[23] == 0x80, U16(s, 20), U16(s, 22), Cut(s[HEADER_SIZE..], limit))
  }

  lemma Slices(a: seq<bv8>, b: seq<bv8>, c: seq<bv8>, d: seq<bv8>)
    ensures At(a + b + c + d, |a|, b) && At(a + b + c + d, |a| + |b|, c)
  {
  }

  lemma FrontFields(p: Packet, sysId: u16)
    requires Sendable(p)
    ensures var h := Front(p, sysId);
      h[1] == p.ctrl && At(h, 2, FromU16(sysId)) && At(h, 4, FromU32(p.dstSerial)) && h[9] == p.flag
  {
    var a, b, c, d := [LengthByte(|p.data|)] + [p.ctrl], FromU16(sysId), FromU32(p.dstSerial), [0x00] + [p.flag];
    Slices(a, b, c, d);
    assert a + b + c + d == Front(p, sysId);
  }

  lemma MiddleFields(sysId: u16, serial: u32, flag: bv8)
    ensures var h := Middle(sysId, serial, flag); At(h, 0, FromU16(sysId)) && At(h, 2, FromU32(serial))
  {
    var a, b, c := FromU16(sysId), FromU32(serial), [0x00] + [flag] + [0x00, 0x00];
    Slices([], a, b, c);
    assert [] + a + b + c == Middle(sysId, serial, flag);
  }

  lemma SmallNumber(n: u8)
    ensures FromU16(n) == [ToByte(n), 0]
  {
    ZeroByte();
  }

  lemma BackFields(p: Packet, cntr: u16)
    ensures var h := Back(p, cntr); At(h, 0, FromU16(NumberSent(p))) && At(h, 2, FromU16(cntr))
  {
    SmallNumber(NumberSent(p));
    ZeroByte();
  }

  /** The number a receiver finds. */
  function NumberSent(p: Packet): u16 { if p.start then p.packetNum % 256 else 0 }

  lemma HighByte(cntr: u16)
    ensures FromU16(cntr)[1] == 0x80 <==> cntr / 256 == 0x80
  {
    ByteValue(cntr / 256);
    ByteValue(0x80);
    assert ToByte(0x80) == 0x80;
  }

  lemma AtMoved(s: seq<bv8>, from: nat, part: seq<bv8>, at: nat, x: seq<bv8>)
    requires At(s, from, part) && At(part, at, x)
    ensures At(s, from + at, x)
  {
    forall k | 0 <= k < |x| ensures s[from + at + k] == x[k] {
      assert s[from + at + k] == s[from..from + |part|][at + k];
      assert part[at + k] == part[at..at + |x|][k];
    }
  }

  /** Where the parts of a packet are. */
  lemma Parts(front: seq<bv8>, middle: seq<bv8>, back: seq<bv8>, data: seq<bv8>, s: seq<bv8>)
    requires |front| == 10 && |middle| == 10 && |back| == 4 && s == front + middle + back + data
    ensures At(s, 0, front) && At(s, 10, middle) && At(s, 20, back) && s[HEADER_SIZE..] == data
  {
  }

  lemma FrontOfPacket(p: Packet, sysId: u16, s: seq<bv8>)
    requires Sendable(p) && At(s, 0, Front(p, sysId))
    ensures s[1] == p.ctrl && s[9] == p.flag && U16(s, 2) == sysId && U32(s, 4) == p.dstSerial
  {
    var front := Front(p, sysId);
    FrontFields(p, sysId);
    assert s[1] == s[0..10][1] && s[9] == s[0..10][9];
    AtMoved(s, 0, front, 2, FromU16(sysId));
    AtMoved(s, 0, front, 4, FromU32(p.dstSerial));
    ReadU16(s, 2, sysId);
    ReadU32(s, 4, p.dstSerial);
  }

  lemma MiddleOfPacket(sysId: u16, serial: u32, flag: bv8, s: seq<bv8>)
    requires At(s, 10, Middle(sysId, serial, flag))
    ensures U16(s, 10) == sysId && U32(s, 12) == serial
  {
    var middle := Middle(sysId, serial, flag);
    MiddleFields(sysId, serial, flag);
    AtMoved(s, 10, middle, 0, FromU16(sysId));
    AtMoved(s, 10, middle, 2, FromU32(serial));
    ReadU16(s, 10, sysId);
    ReadU32(s, 12, serial);
  }

  lemma BackOfPacket(p: Packet, cntr: u16, s: seq<bv8>)
    requires At(s, 20, Back(p, cntr))
    ensures U16(s, 20) == NumberSent(p) && U16(s, 22) == cntr && (s[23] == 0x80 <==> cntr / 256 == 0x80)
  {
    var back := Back(p, cntr);
    BackFields(p, cntr);
    AtMoved(s, 20, back, 0, FromU16(NumberSent(p)));
    AtMoved(s, 20, back, 2, FromU16(cntr));
    ReadU16(s, 20, NumberSent(p));
    ReadU16(s, 22, cntr);
    assert s[23] == s[22..24][1];
    HighByte(cntr);
  }

  /** A decoded packet says what was encoded, as far as the payload fits. The start mark is guessed
      from the counter. */
  lemma DecodeEncode(p: Packet, sysId: u16, cntr: u16, limit: nat)
    requires Sendable(p)
    ensures Decode(Encode(p, sysId, cntr), limit)
         == Answer(p.ctrl, sysId, p.dstSerial, SMADATA2PLUS_SYSID, SMADATA2PLUS_SERIAL, p.flag,
                   cntr / 256 == 0x80, NumberSent(p), cntr, Cut(p.data, limit))
  {
    var s := Encode(p, sysId, cntr);
    var middle := Middle(SMADATA2PLUS_SYSID, SMADATA2PLUS_SERIAL, EchoedFlag(p));
    Parts(Front(p, sysId), middle, Back(p, cntr), p.data, s);
    FrontOfPacket(p, sysId, s);
    MiddleOfPacket(SMADATA2PLUS_SYSID, SMADATA2PLUS_SERIAL, EchoedFlag(p), s);
    BackOfPacket(p, cntr, s);
  }

  lemma SingleBytes(p: Packet, sysId: u16, flag: bv8, cntr: u16, s: seq<bv8>)
    requires Sendable(p) && At(s, 0, Front(p, sysId)) && At(s, 10, Middle(SMADATA2PLUS_SYSID, SMADATA2PLUS_SERIAL, flag))
    requires At(s, 20, Back(p, cntr))
    ensures s[0] == LengthByte(|p.data|) && s[8] == 0 && s[16] == 0 && s[17] == flag && s[18] == 0 && s[19] == 0
    ensures s[20] == NumberByte(p) && s[21] == 0
  {
    var front, middle, back := Front(p, sysId), Middle(SMADATA2PLUS_SYSID, SMADATA2PLUS_SERIAL, flag), Back(p, cntr);
    assert s[0] == s[0..10][0] == front[0] && s[8] == s[0..10][8] == front[8];
    assert s[16] == s[10..20][6] == middle[6] && s[17] == s[10..20][7] == middle[7];
    assert s[18] == s[10..20][8] == middle[8] && s[19] == s[10..20][9] == middle[9];
    assert s[20] == s[20..24][0] == back[0] && s[21] == s[20..24][1] == back[1];
  }

  /** Every byte of a packet that goes out. */
  lemma PacketBytes(p: Packet, sysId: u16, cntr: u16)
    requires |p.data| <= 511 && |p.data| % 4 == 0
    ensures Sendable(p) && |Encode(p, sysId, cntr)| == 24 + |p.data| && Encode(p, sysId, cntr)[24..] == p.data
    ensures var s := Encode(p, sysId, cntr);
      && Value(s[0]) == (24 + |p.data|) / 4 && s[1] == p.ctrl && U16(s, 2) == sysId && U32(s, 4) == p.dstSerial
      && s[8] == 0 && s[9] == p.flag && U16(s, 10) == 0x0078 && U32(s, 12) == 0x3a8b_74b6
      && s[16] == 0 && s[17] == (if p.ctrl == 0xe8 then 0 else p.flag) && s[18] == 0 && s[19] == 0
      && Value(s[20]) == (if p.start then p.packetNum % 256 else 0) && s[21] == 0 && U16(s, 22) == cntr
  {
    var s := Encode(p, sysId, cntr);
    var middle := Middle(SMADATA2PLUS_SYSID, SMADATA2PLUS_SERIAL, EchoedFlag(p));
    Parts(Front(p, sysId), middle, Back(p, cntr), p.data, s);
    FrontOfPacket(p, sysId, s);
    MiddleOfPacket(SMADATA2PLUS_SYSID, SMADATA2PLUS_SERIAL, EchoedFlag(p), s);
    BackOfPacket(p, cntr, s);
    SingleBytes(p, sysId, EchoedFlag(p), cntr, s);
    ByteValue((24 + |p.data|) / 4);
    ByteValue(if p.start then p.packetNum % 256 else 0);
    ZeroByte();
  }

  // ---- addressing ----

  /** The first device with the serial. */
  function Find(devices: seq<Device>, serial: u32): Option<Device> {
    if devices == [] then None
    else if devices[0].serial == serial then Some(devices[0]) else Find(devices[1..], serial)
  }

  lemma {:induction false} FindIsFirst(devices: seq<Device>, serial: u32, n: nat)
    requires n <= |devices| && forall k :: 0 <= k < n ==> devices[k].serial != serial
    ensures Find(devices, serial) == Find(devices[n..], serial)
  {
    if n > 0 {
      FindIsFirst(devices, serial, n - 1);
      assert devices[n - 1..][1..] == devices[n..];
    } else {
      assert devices[n..] == devices;
    }
  }

  /** The i-th device has the serial, and none before it has. */
  predicate IsFirst(devices: seq<Device>, serial: u32, i: int) {
    0 <= i < |devices| && devices[i].serial == serial && forall j :: 0 <= j < i ==> devices[j].serial != serial
  }

  lemma {:induction false} FirstFound(devices: seq<Device>, serial: u32) returns (i: nat)
    requires Find(devices, serial).Some?
    ensures IsFirst(devices, serial, i) && Find(devices, serial) == Some(devices[i])
  {
    if devices[0].serial == serial {
      i := 0;
    } else {
      i := FirstFound(devices[1..], serial);
      i := i + 1;
    }
  }

  /** The search finds exactly the first device with the serial, and nothing exactly if there is none. */
  lemma FindIff(devices: seq<Device>, serial: u32, d: Device)
    ensures Find(devices, serial) == Some(d) <==>
      exists i :: 0 <= i < |devices| && devices[i] == d && d.serial == serial && forall j :: 0 <= j < i ==> devices[j].serial != serial
    ensures Find(devices, serial) == None <==> forall i :: 0 <= i < |devices| ==> devices[i].serial != serial
  {
    if Find(devices, serial).Some? {
      var i := FirstFound(devices, serial);
      assert devices[i].serial == serial;
    } else {
      forall i | 0 <= i < |devices| ensures devices[i].serial != serial {
        NotFound(devices, serial, i);
      }
    }
  }

  lemma FirstIsFound(devices: seq<Device>, serial: u32)
    ensures Find(devices, serial).None? <==> forall i :: 0 <= i < |devices| ==> devices[i].serial != serial
    ensures forall i :: IsFirst(devices, serial, i) ==> Find(devices, serial) == Some(devices[i])
  {
    forall i | IsFirst(devices, serial, i) ensures Find(devices, serial) == Some(devices[i]) {
      FindIff(devices, serial, devices[i]);
    }
    if devices != [] {
      FindIff(devices, serial, devices[0]);
    }
  }

  lemma {:induction false} NotFound(devices: seq<Device>, serial: u32, i: nat)
    requires Find(devices, serial).None? && i < |devices|
    ensures devices[i].serial != serial
  {
    if i > 0 {
      NotFound(devices[1..], serial, i - 1);
    }
  }

  /** Where a packet for a serial goes, if its device is known: system id and Bluetooth address. */
  function Target(devices: seq<Device>, serial: u32): Option<(u16, Mac)> {
    if serial == SERIAL_BROADCAST then Some((SYSID_BROADCAST, BtFraming.MAC_BROADCAST))
    else
      match Find(devices, serial)
      case None => None
      case Some(d) => Some((d.sysId, d.mac))
  }

  /** A packet for everybody goes to everybody, any other to the first device with its serial, under that
      device's own system id. */
  lemma TargetIs(devices: seq<Device>, serial: u32)
    ensures serial == 0xffff_ffff ==> (
      var t := Target(devices, serial); t.Some? && t.value.0 == 0xffff && t.value.1 == [0xff, 0xff, 0xff, 0xff, 0xff, 0xff])
    ensures serial != 0xffff_ffff ==>
      (Target(devices, serial) == None <==> forall i :: 0 <= i < |devices| ==> devices[i].serial != serial)
    ensures forall i :: serial != 0xffff_ffff && IsFirst(devices, serial, i) ==>
      Target(devices, serial) == Some((devices[i].sysId, devices[i].mac))
  {
    FirstIsFound(devices, serial);
  }

  // ---- the framing layer below ----

  /** A payload the framing layer delivers: at least a header long. */
  type Delivered = s: seq<bv8> | |s| >= HEADER_SIZE witness seq(HEADER_SIZE, _ => 0)

  datatype Incoming = Failure | Data(from: Mac, bytes: Delivered)

  /** The framing layer as this layer sees it: what the coming reads deliver, whether the coming
      writes succeed, and what was sent. */
  class Port {
    var incoming: seq<Incoming>
    var accepts: seq<bool>
    var sent: seq<(Mac, seq<bv8>)>

    constructor (incoming: seq<Incoming>, accepts: seq<bool>)
      ensures this.incoming == incoming && this.accepts == accepts && sent == []
    {
      this.incoming, this.accepts, sent := incoming, accepts, [];
    }

    method Write(buf: array<bv8>, len: nat, to: Mac) returns (r: int)
      requires len <= buf.Length
      modifies `accepts, `sent
      ensures r == if BtFraming.Accepted(old(accepts)) then 0 else -1
      ensures accepts == BtFraming.Later(old(accepts))
      ensures sent == if r == 0 then old(sent) + [(to, buf[..len])] else old(sent)
    {
      if BtFraming.Accepted(accepts) {
        sent := sent + [(to, buf[..len])];
        r := 0;
      } else {
        r := -1;
      }
      accepts := BtFraming.Later(accepts);
    }

    /** Delivers the next payload, as much of it as the caller has room for. */
    method Read(buf: array<bv8>, len: nat) returns (r: int, from: Mac)
      requires HEADER_SIZE <= len <= buf.Length
      modifies `incoming, buf
      ensures incoming == LaterIn(old(incoming))
      ensures Next(old(incoming)).Failure? ==> r == -1
      ensures Next(old(incoming)).Data? ==> (
        && HEADER_SIZE <= r <= len && from == Next(old(incoming)).from
        && buf[..r] == Cut(Next(old(incoming)).bytes, len))
    {
      from := BtFraming.MAC_BROADCAST;
      var next := Next(incoming);
      incoming := LaterIn(incoming);
      if next.Failure? {
        return -1, from;
      }
      var got := Cut(next.bytes, len);
      forall k | 0 <= k < |got| {
        buf[k] := got[k];
      }
      r, from := |got|, next.from;
    }
  }

  function Next(incoming: seq<Incoming>): Incoming { if incoming == [] then Failure else incoming[0] }
  function LaterIn(incoming: seq<Incoming>): seq<Incoming> { if incoming == [] then [] else incoming[1..] }

  /** Whether sending a packet works, and what the coming writes do afterwards. */
  predicate Works(devices: seq<Device>, p: Packet, accepts: seq<bool>) {
    Target(devices, p.dstSerial).Some? && BtFraming.Accepted(accepts)
  }

  function LaterWrites(devices: seq<Device>, p: Packet, accepts: seq<bool>): seq<bool> {
    if Target(devices, p.dstSerial).None? then accepts else BtFraming.Later(accepts)
  }

  /** When a packet was sent: within the k-th transaction of a session, outside of any after `n` of
      them, or as a reply with a counter of the receiver's own. */
  datatype Owner = Within(k: nat) | Outside(n: nat) | Foreign

  /** How many transactions were finished when the packet was sent. */
  function Place(o: Owner): nat
    requires o != Foreign
  {
    if o.Within? then o.k else o.n
  }

  /** What was sent: the packet, where it went, its counter, and when. */
  datatype Entry = Entry(packet: Packet, sysId: u16, mac: Mac, cntr: u16, owner: Owner)

  /** The entry of a packet, if its destination is known. */
  function Post(devices: seq<Device>, p: Packet, cntr: u16, owner: Owner): seq<Entry> {
    match Target(devices, p.dstSerial)
    case None => []
    case Some((sysId, mac)) => [Entry(p, sysId, mac, cntr, owner)]
  }

  /** What the framing layer was given for an entry. */
  function OnWire(e: Entry): (Mac, seq<bv8>)
    requires Sendable(e.packet)
  {
    (e.mac, Encode(e.packet, e.sysId, e.cntr))
  }

  predicate SentAs(e: Entry, wire: (Mac, seq<bv8>)) {
    Sendable(e.packet) && wire == OnWire(e)
  }

  ghost predicate Logged(log: seq<Entry>, sent: seq<(Mac, seq<bv8>)>) {
    |log| == |sent| && forall k {:trigger SentAs(log[k], sent[k])} :: 0 <= k < |log| ==> SentAs(log[k], sent[k])
  }

  // ---- transactions ----

  const TRANSACTION_CNTR_START: u16 := 0x8000

  function Inc(cntr: u16): u16 {
    if cntr < TRANSACTION_CNTR_START || cntr == 0xffff then TRANSACTION_CNTR_START else cntr + 1
  }

  /** The counter of the k-th transaction of a session. */
  function CounterAt(k: nat): (c: u16)
    ensures TRANSACTION_CNTR_START <= c
  {
    TRANSACTION_CNTR_START + k % 0x8000
  }

  lemma IncIsNext(k: nat)
    ensures Inc(CounterAt(k)) == CounterAt(k + 1)
  {
  }

  /** No counter comes back within 32768 transactions, and after 32768 it does. */
  lemma CounterRepeats(j: nat, k: nat)
    requires j < k
    ensures k - j < 0x8000 ==> CounterAt(j) != CounterAt(k)
    ensures CounterAt(j + 0x8000) == CounterAt(j)
  {
  }

  /** The counter a sent packet carries. */
  function CounterOf(bytes: seq<bv8>): u16
    requires |bytes| >= HEADER_SIZE
  {
    U16(bytes, 22)
  }

  lemma CounterSent(p: Packet, sysId: u16, cntr: u16)
    requires Sendable(p)
    ensures CounterOf(Encode(p, sysId, cntr)) == cntr
  {
    DecodeEncode(p, sysId, cntr, 0);
  }

  /** How many of the transactions that were begun are finished. */
  function Finished(begun: seq<u16>, active: bool): nat {
    if active && begun != [] then |begun| - 1 else |begun|
  }

  /** Every transaction had the counter of its place, and the next one will. */
  ghost predicate Numbered(begun: seq<u16>, cntr: u16, active: bool) {
    && (forall k {:trigger CounterAt(k)} :: 0 <= k < |begun| ==> begun[k] == CounterAt(k))
    && (active ==> begun != [])
    && cntr == CounterAt(Finished(begun, active))
  }

  /** A packet of ours carries the counter of its transaction, or of the next one. */
  predicate CarriesCounter(e: Entry, finished: nat) {
    e.owner != Foreign ==> Place(e.owner) <= finished && e.cntr == CounterAt(Place(e.owner))
  }

  predicate InOrder(log: seq<Entry>, j: nat, k: nat)
    requires j < k < |log|
  {
    log[j].owner != Foreign && log[k].owner != Foreign ==> Place(log[j].owner) <= Place(log[k].owner)
  }

  /** Every packet of ours carries its counter, and transactions do not interleave. */
  ghost predicate Owned(log: seq<Entry>, finished: nat) {
    && (forall k {:trigger CarriesCounter(log[k], finished)} :: 0 <= k < |log| ==> CarriesCounter(log[k], finished))
    && (forall j, k {:trigger InOrder(log, j, k)} :: 0 <= j < k < |log| ==> InOrder(log, j, k))
  }

  lemma EntryOnWire(log: seq<Entry>, sent: seq<(Mac, seq<bv8>)>, k: nat)
    requires Logged(log, sent) && k < |log|
    ensures |sent[k].1| >= HEADER_SIZE && CounterOf(sent[k].1) == log[k].cntr
  {
    assert SentAs(log[k], sent[k]);
    CounterSent(log[k].packet, log[k].sysId, log[k].cntr);
  }

  /** Two packets of ours carry the same counter on the wire exactly when the numbers of transactions
      finished before them agree modulo 32768. */
  lemma SharedCounterIff(log: seq<Entry>, finished: nat, sent: seq<(Mac, seq<bv8>)>, j: nat, k: nat)
    requires Logged(log, sent) && Owned(log, finished)
    requires j < |log| && k < |log| && log[j].owner != Foreign && log[k].owner != Foreign
    ensures |sent[j].1| >= HEADER_SIZE && |sent[k].1| >= HEADER_SIZE
    ensures CounterOf(sent[j].1) == CounterOf(sent[k].1)
      <==> Place(log[j].owner) % 0x8000 == Place(log[k].owner) % 0x8000
  {
    EntryOnWire(log, sent, j);
    EntryOnWire(log, sent, k);
    assert CarriesCounter(log[j], finished) && CarriesCounter(log[k], finished);
  }

  /** So packets of different transactions carry different counters, if fewer than 32768 transactions
      lie between them. */
  lemma CountersTellTransactionsApart(log: seq<Entry>, finished: nat, sent: seq<(Mac, seq<bv8>)>, j: nat, k: nat)
    requires Logged(log, sent) && Owned(log, finished)
    requires j < k < |log| && log[j].owner.Within? && log[k].owner.Within? && log[k].owner.k < log[j].owner.k + 0x8000
    ensures |sent[j].1| >= HEADER_SIZE && |sent[k].1| >= HEADER_SIZE
    ensures CounterOf(sent[j].1) == CounterOf(sent[k].1) <==> log[j].owner == log[k].owner
  {
    SharedCounterIff(log, finished, sent, j, k);
    assert InOrder(log, j, k);
    if log[j].owner.k < log[k].owner.k {
      CounterRepeats(log[j].owner.k, log[k].owner.k);
    }
  }

  /** But packets sent outside of transactions are not told apart, neither from each other nor from
      those of the transaction that follows. */
  lemma OutsideCountersShared(log: seq<Entry>, finished: nat, sent: seq<(Mac, seq<bv8>)>, j: nat, k: nat)
    requires Logged(log, sent) && Owned(log, finished)
    requires j < |log| && k < |log| && log[j].owner.Outside?
    requires log[k].owner == log[j].owner || log[k].owner == Within(log[j].owner.n)
    ensures |sent[j].1| >= HEADER_SIZE && |sent[k].1| >= HEADER_SIZE
    ensures CounterOf(sent[j].1) == CounterOf(sent[k].1)
  {
    SharedCounterIff(log, finished, sent, j, k);
  }

  /** What was received: the payload, the room there was for its data, and what it was taken to say. */
  datatype Heard = Heard(from: Mac, bytes: Delivered, limit: nat, answer: Answer)

  predicate Understood(h: Heard) { h.answer == Decode(h.bytes, h.limit) }

  ghost predicate AllUnderstood(heard: seq<Heard>) {
    forall k {:trigger Understood(heard[k])} :: 0 <= k < |heard| ==> Understood(heard[k])
  }

  lemma NewsUnderstood(heard: seq<Heard>, news: seq<Heard>)
    requires AllUnderstood(heard + news)
    ensures AllUnderstood(news)
  {
    forall k | 0 <= k < |news| ensures Understood(news[k]) {
      assert Understood((heard + news)[|heard| + k]);
    }
  }

  /** These are the next payloads of the port. */
  predicate FromPort(heard: seq<Heard>, incoming: seq<Incoming>) {
    |heard| <= |incoming| && forall k :: 0 <= k < |heard| ==> incoming[k] == Data(heard[k].from, heard[k].bytes)
  }

  lemma LoggedGrows(log: seq<Entry>, sent: seq<(Mac, seq<bv8>)>, e: Entry)
    requires Logged(log, sent) && Sendable(e.packet)
    ensures Logged(log + [e], sent + [OnWire(e)])
  {
    var wire := OnWire(e);
    forall k | 0 <= k < |log + [e]| ensures SentAs((log + [e])[k], (sent + [wire])[k]) {
      assert k < |log| ==> SentAs(log[k], sent[k]);
    }
  }

  lemma OwnedGrows(log: seq<Entry>, finished: nat, e: Entry)
    requires Owned(log, finished)
    requires e.owner != Foreign ==> Place(e.owner) == finished && e.cntr == CounterAt(finished)
    ensures Owned(log + [e], finished)
  {
    forall j, k | 0 <= j < k < |log + [e]| ensures InOrder(log + [e], j, k) {
      assert CarriesCounter(log[j], finished);
      assert k < |log| ==> InOrder(log, j, k);
    }
  }

  lemma OwnedLater(log: seq<Entry>, finished: nat)
    requires Owned(log, finished)
    ensures Owned(log, finished + 1)
  {
    forall k | 0 <= k < |log| ensures CarriesCounter(log[k], finished + 1) {
      assert CarriesCounter(log[k], finished);
    }
  }

  /** The packet went to everybody, or to the first device with its serial, and nothing else did. */
  ghost predicate SentTo(devices: seq<Device>, p: Packet, cntr: u16, before: seq<(Mac, seq<bv8>)>, after: seq<(Mac, seq<bv8>)>)
    requires Sendable(p)
  {
    && (p.dstSerial == 0xffff_ffff ==>
          after == before + [([0xff, 0xff, 0xff, 0xff, 0xff, 0xff], Encode(p, 0xffff, cntr))])
    && (p.dstSerial != 0xffff_ffff ==>
          exists i :: IsFirst(devices, p.dstSerial, i) && after == before + [(devices[i].mac, Encode(p, devices[i].sysId, cntr))])
  }

  lemma SentToTarget(devices: seq<Device>, p: Packet, cntr: u16, before: seq<(Mac, seq<bv8>)>, after: seq<(Mac, seq<bv8>)>)
    requires Sendable(p) && Target(devices, p.dstSerial).Some?
    requires var (sysId, mac) := Target(devices, p.dstSerial).value; after == before + [(mac, Encode(p, sysId, cntr))]
    ensures SentTo(devices, p, cntr, before, after)
  {
    if p.dstSerial != SERIAL_BROADCAST {
      var i := FirstFound(devices, p.dstSerial);
    }
  }

  class Smadata2plus {
    const net: Port
    var devices: seq<Device>
    var transactionCntr: u16
    var transactionActive: bool
    ghost var begun: seq<u16>
    ghost var log: seq<Entry>
    ghost var heard: seq<Heard>

    ghost predicate Valid()
      reads this, net
    {
      && Numbered(begun, transactionCntr, transactionActive)
      && Owned(log, Finished(begun, transactionActive)) && Logged(log, net.sent) && AllUnderstood(heard)
    }

    /** No transaction is open: the state the begin assertion asks for. */
    ghost predicate Idle()
      reads this, net
    {
      Valid() && !transactionActive
    }

    constructor (net: Port)
      requires net.sent == []
      ensures Idle() && this.net == net && begun == [] && devices == [] && log == [] && heard == []
    {
      this.net := net;
      devices := [];
      transactionCntr := TRANSACTION_CNTR_START;
      transactionActive := false;
      begun, log, heard := [], [], [];
    }

    /** Within the open transaction, or outside after those that are finished. */
    ghost function Moment(): Owner
      reads this
    {
      if transactionActive then Within(Finished(begun, true)) else Outside(Finished(begun, false))
    }

    /** Opens a transaction; the assertion that none is open is the precondition. */
    method Begin()
      requires Idle()
      modifies this`transactionActive, this`begun
      ensures Valid() && transactionActive && |begun| == |old(begun)| + 1
      ensures transactionCntr == CounterAt(|old(begun)|)
    {
      transactionActive := true;
      begun := begun + [transactionCntr];
    }

    method End()
      requires Valid() && transactionActive
      modifies this`transactionActive, this`transactionCntr
      ensures Idle()
    {
      OwnedLater(log, |begun| - 1);
      transactionActive := false;
      IncIsNext(|begun| - 1);
      transactionCntr := Inc(transactionCntr);
    }

    /** What leaving the scope of a transaction object does. */
    method Leave()
      requires Valid()
      modifies this`transactionActive, this`transactionCntr
      ensures Idle()
    {
      if transactionActive {
        End();
      }
    }

    method FindDevice(serial: u32) returns (d: Option<Device>)
      ensures d == Find(devices, serial)
      ensures d.None? <==> forall i :: 0 <= i < |devices| ==> devices[i].serial != serial
      ensures forall i :: IsFirst(devices, serial, i) ==> d == Some(devices[i])
    {
      FirstIsFound(devices, serial);
      var i := 0;
      assert devices[0..] == devices;
      while i < |devices|
        invariant i <= |devices| && Find(devices, serial) == Find(devices[i..], serial)
        invariant forall j :: 0 <= j < i ==> devices[j].serial != serial
      {
        if devices[i].serial == serial {
          return Some(devices[i]);
        }
        assert devices[i..][1..] == devices[i + 1..];
        i := i + 1;
      }
      return None;
    }

    /** Where a packet for the serial goes. */
    method Address(serial: u32) returns (target: Option<(u16, Mac)>)
      ensures target == Target(devices, serial)
      ensures serial == 0xffff_ffff ==>
        target.Some? && target.value.0 == 0xffff && target.value.1 == [0xff, 0xff, 0xff, 0xff, 0xff, 0xff]
      ensures serial != 0xffff_ffff ==> (target.None? <==> forall i :: 0 <= i < |devices| ==> devices[i].serial != serial)
      ensures forall i :: serial != 0xffff_ffff && IsFirst(devices, serial, i) ==> target == Some((devices[i].sysId, devices[i].mac))
    {
      TargetIs(devices, serial);
      if serial == SERIAL_BROADCAST {
        return Some((SYSID_BROADCAST, BtFraming.MAC_BROADCAST));
      }
      var device := FindDevice(serial);
      if device.None? {
        return None;
      }
      return Some((device.value.sysId, device.value.mac));
    }

    /** Hands a finished packet to the framing layer and books it. */
    method HandOver(buf: array<bv8>, len: nat, mac: Mac, ghost e: Entry) returns (ret: int)
      requires Valid() && len <= buf.Length && Sendable(e.packet) && (mac, buf[..len]) == OnWire(e)
      requires e.owner != Foreign ==> e.owner == Moment() && e.cntr == transactionCntr
      modifies this`log, net`accepts, net`sent
      ensures Valid()
      ensures ret == if BtFraming.Accepted(old(net.accepts)) then 0 else -1
      ensures net.accepts == BtFraming.Later(old(net.accepts))
      ensures log == old(log) + if ret == 0 then [e] else []
      ensures net.sent == old(net.sent) + if ret == 0 then [OnWire(e)] else []
    {
      LoggedGrows(log, net.sent, e);
      OwnedGrows(log, Finished(begun, transactionActive), e);
      ret := net.Write(buf, len, mac);
      if ret == 0 {
        log := log + [e];
      }
    }

    method Transmit(ghost e: Entry, p: Packet, sysId: u16, mac: Mac, cntr: u16) returns (ret: int)
      requires Valid() && Sendable(p) && e == Entry(p, sysId, mac, cntr, e.owner)
      requires e.owner != Foreign ==> e.owner == Moment() && cntr == transactionCntr
      modifies this`log, net`accepts, net`sent
      ensures Valid()
      ensures ret == if BtFraming.Accepted(old(net.accepts)) then 0 else -1
      ensures net.accepts == BtFraming.Later(old(net.accepts))
      ensures log == old(log) + if ret == 0 then [e] else []
      ensures net.sent == old(net.sent) + if ret == 0 then [(mac, Encode(p, sysId, cntr))] else []
    {
      var buf := new bv8[BUF_LEN];
      PutPacket(buf, p, sysId, cntr);
      ret := HandOver(buf, HEADER_SIZE + |p.data|, mac, e);
    }

    /** Sends a packet with a counter of the caller's choice; `owner` tells whether it is our own. */
    method WriteReplay(p: Packet, cntr: u16, ghost owner: Owner) returns (ret: int)
      requires Valid() && Sendable(p)
      requires owner != Foreign ==> owner == Moment() && cntr == transactionCntr
      modifies this`log, net`accepts, net`sent
      ensures Valid()
      ensures ret == if Works(devices, p, old(net.accepts)) then 0 else -1
      ensures net.accepts == LaterWrites(devices, p, old(net.accepts))
      ensures log == old(log) + if ret == 0 then Post(devices, p, cntr, owner) else []
      ensures ret < 0 ==> net.sent == old(net.sent)
      ensures ret == 0 ==> SentTo(devices, p, cntr, old(net.sent), net.sent)
    {
      var target := Address(p.dstSerial);
      if target.None? {
        return -1;
      }
      ghost var e := Entry(p, target.value.0, target.value.1, cntr, owner);
      ghost var before := net.sent;
      ret := Transmit(e, p, target.value.0, target.value.1, cntr);
      if ret == 0 {
        SentToTarget(devices, p, cntr, before, net.sent);
      }
    }

    /** Sends a packet of the current transaction, or outside of any. */
    method Write(p: Packet) returns (ret: int)
      requires Valid() && Sendable(p)
      modifies this`log, net`accepts, net`sent
      ensures Valid()
      ensures ret == if Works(devices, p, old(net.accepts)) then 0 else -1
      ensures net.accepts == LaterWrites(devices, p, old(net.accepts))
      ensures log == old(log) + if ret == 0 then Post(devices, p, transactionCntr, Moment()) else []
      ensures ret < 0 ==> net.sent == old(net.sent)
      ensures ret == 0 ==> SentTo(devices, p, transactionCntr, old(net.sent), net.sent)
    {
      ret := WriteReplay(p, transactionCntr, Moment());
    }

    /** Receives one packet with room for `limit` bytes of payload. */
    method Read(limit: nat) returns (ret: int, from: Mac, a: Answer)
      requires Valid() && limit <= 512
      modifies this`heard, net`incoming
      ensures Valid() && net.incoming == LaterIn(old(net.incoming))
      ensures |a.data| <= limit
      ensures Next(old(net.incoming)).Failure? ==> ret == -1 && heard == old(heard)
      ensures Next(old(net.incoming)).Data? ==> (
        ret == 0 && from == Next(old(net.incoming)).from
        && heard == old(heard) + [Heard(from, Next(old(net.incoming)).bytes, limit, a)])
    {
      var buf := new bv8[512 + HEADER_SIZE];
      var len, src := net.Read(buf, limit + HEADER_SIZE);
      from := src;
      if len <= 0 {
        a := Answer(0, 0, 0, 0, 0, 0, false, 0, 0, []);
        return -1, from, a;
      }
      a := Decode(buf[..len], limit);
      ret := 0;
      ghost var h := Heard(from, Next(old(net.incoming)).bytes, limit, a);
      DecodeCut(h.bytes, limit);
      assert Understood(h);
      heard := heard + [h];
    }
  }

  lemma CutKeeps(s: seq<bv8>, c: seq<bv8>, at: nat, n: nat)
    requires at + n <= |c| <= |s| && c == s[..|c|]
    ensures Number(c, at, n) == Number(s, at, n)
  {
    assert c[at..at + n] == s[at..at + n];
    SameNumber(c, at, s, at, n);
  }

  /** What the framing layer cuts off is not needed. */
  lemma DecodeCut(s: seq<bv8>, limit: nat)
    requires |s| >= HEADER_SIZE
    ensures Decode(Cut(s, limit + HEADER_SIZE), limit) == Decode(s, limit)
  {
    var c := Cut(s, limit + HEADER_SIZE);
    CutKeeps(s, c, 2, 2);
    CutKeeps(s, c, 4, 4);
    CutKeeps(s, c, 10, 2);
    CutKeeps(s, c, 12, 4);
    CutKeeps(s, c, 20, 2);
    CutKeeps(s, c, 22, 2);
    assert Cut(c[HEADER_SIZE..], limit) == Cut(s[HEADER_SIZE..], limit);
  }

  // ---- the packet buffer ----

  method PutFront(dw: DataWriter, p: Packet, sysId: u16)
    requires dw.Valid() && dw.pos == 0 && dw.end == HEADER_SIZE && Sendable(p)
    modifies dw`pos, dw.buf
    ensures dw.Valid() && dw.pos == 10 && dw.Written() == Front(p, sysId)
    ensures forall k :: 10 <= k < dw.buf.Length ==> dw.buf[k] == old(dw.buf[k])
  {
    dw.U8(LengthByte(|p.data|));
    assert dw.Written() == [LengthByte(|p.data|)];
    dw.U8(p.ctrl);
    dw.U16le(sysId);
    dw.U32le(p.dstSerial);
    dw.U8(0x00);
    dw.U8(p.flag);
  }

  method PutMiddle(dw: DataWriter, sysId: u16, serial: u32, flag: bv8)
    requires dw.Valid() && dw.pos == 10 && dw.end == HEADER_SIZE
    modifies dw`pos, dw.buf
    ensures dw.Valid() && dw.Written() == old(dw.Written()) + FromU16(sysId) + FromU32(serial) + [0x00] + [flag]
    ensures dw.pos == 18 && forall k :: 18 <= k < dw.buf.Length ==> dw.buf[k] == old(dw.buf[k])
  {
    dw.U16le(sysId);
    dw.U32le(serial);
    dw.U8(0x00);
    dw.U8(flag);
  }

  /** The front of the header; behind it stay the zero bytes the buffer was cleared with. */
  method PutAddresses(buf: array<bv8>, p: Packet, sysId: u16, ownSysId: u16, ownSerial: u32)
    requires buf.Length == BUF_LEN && Sendable(p)
    modifies buf
    ensures buf[..20] == Front(p, sysId) + Middle(ownSysId, ownSerial, EchoedFlag(p))
    ensures buf[20..HEADER_SIZE] == [0, 0, 0, 0]
  {
    var dw := new DataWriter(buf, HEADER_SIZE);
    forall k | 0 <= k < HEADER_SIZE {
      buf[k] := 0x00;
    }
    PutFront(dw, p, sysId);
    ghost var front := dw.Written();
    PutMiddle(dw, ownSysId, ownSerial, EchoedFlag(p));
    assert buf[..20] == dw.Written() + [0x00, 0x00];
    MiddleTail(front, ownSysId, ownSerial, EchoedFlag(p));
  }

  lemma MiddleTail(front: seq<bv8>, sysId: u16, serial: u32, flag: bv8)
    ensures front + FromU16(sysId) + FromU32(serial) + [0x00] + [flag] + [0x00, 0x00] == front + Middle(sysId, serial, flag)
  {
    SixParts(front, FromU16(sysId), FromU32(serial), [0x00], [flag], [0x00, 0x00]);
  }

  lemma SixParts(a: seq<bv8>, b: seq<bv8>, c: seq<bv8>, d: seq<bv8>, e: seq<bv8>, f: seq<bv8>)
    ensures a + b + c + d + e + f == a + (b + c + d + e + f)
  {
  }

  method PutBack(buf: array<bv8>, p: Packet, cntr: u16)
    requires HEADER_SIZE <= buf.Length && buf[20..HEADER_SIZE] == [0, 0, 0, 0]
    modifies buf
    ensures buf[..HEADER_SIZE] == old(buf[..20]) + Back(p, cntr)
  {
    assert buf[20] == 0 && buf[21] == 0 by {
      assert buf[20] == buf[20..HEADER_SIZE][0] && buf[21] == buf[20..HEADER_SIZE][1];
    }
    if p.start {
      buf[20] := ToByte(p.packetNum % 256);
    }
    BtFraming.Append(buf, 22, FromU16(cntr));
  }

  method PutPacket(buf: array<bv8>, p: Packet, sysId: u16, cntr: u16)
    requires buf.Length == BUF_LEN && Sendable(p)
    modifies buf
    ensures buf[..HEADER_SIZE + |p.data|] == Encode(p, sysId, cntr)
  {
    PutAddresses(buf, p, sysId, SMADATA2PLUS_SYSID, SMADATA2PLUS_SERIAL);
    PutBack(buf, p, cntr);
    BtFraming.Append(buf, HEADER_SIZE, p.data);
  }
}
