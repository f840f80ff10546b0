/** The conversations src/smadata2plus.cpp opens a connection with, and their transactions. */
module Transactions {
  import opened ByteOrder
  import opened Smadata2plus
  import opened Common
  import BtFraming

  const NUM_RETRIES := 3

  // ---- what is sent ----

  /** Words one behind the other, each little-endian. */
  function Words(ws: seq<u32>): (s: seq<bv8>)
    ensures |s| == 4 * |ws|
  {
    seq(4 * |ws|, i requires 0 <= i < 4 * |ws| => FromU32(ws[i / 4])[i % 4])
  }

  lemma WordByte(ws: seq<u32>, k: nat, i: nat)
    requires k < |ws| && i < 4
    ensures Words(ws)[4 * k + i] == FromU32(ws[k])[i]
  {
    assert (4 * k + i) / 4 == k && (4 * k + i) % 4 == i;
  }

  /** The k-th word is found where it was put. */
  lemma WordAt(ws: seq<u32>, k: nat)
    requires k < |ws|
    ensures U32(Words(ws), 4 * k) == ws[k]
  {
    var s := Words(ws);
    forall i | 0 <= i < 4 ensures s[4 * k + i] == FromU32(ws[k])[i] {
      WordByte(ws, k, i);
    }
    assert s[4 * k..4 * k + 4] == FromU32(ws[k]);
    ReadU32(s, 4 * k, ws[k]);
  }

  /** The packet with these words as payload that starts something with all devices. */
  function Call(flag: bv8, ws: seq<u32>): (p: Packet)
    requires |ws| <= 10
    ensures Sendable(p) && |p.data| <= 40
  {
    Packet(CTRL_MASTER, SERIAL_BROADCAST, flag, 0, true, Words(ws))
  }

  /** The reply to one device. */
  function Reply(serial: u32, flag: bv8, start: bool, ws: seq<u32>): (p: Packet)
    requires |ws| <= 10
    ensures Sendable(p) && |p.data| <= 40
  {
    Packet(CTRL_MASTER | CTRL_UNKNOWN | CTRL_NO_BROADCAST, serial, flag, 0, start, Words(ws))
  }

  function LogoutPacket(): Packet { Call(0x03, [0xfffd_010e, 0xffff_ffff]) }

  /** The bytes 00 and 02, the channel and the two indices. */
  function ChannelPacket(serial: u32, channel: u16, fromIdx: u32, toIdx: u32): (p: Packet)
    ensures Sendable(p) && |p.data| <= 40
  {
    Packet(CTRL_MASTER, serial, 0x00, 0, true, [0x00, 0x02] + FromU16(channel) + FromU32(fromIdx) + FromU32(toIdx))
  }

  /** Twelve characters of the password, masked and filled up. */
  function MaskedPassword(password: seq<bv8>): (s: seq<bv8>)
    ensures |s| == 12
  {
    seq(12, k => if 0 <= k < |password| then password[k] ^ 0x88 else 0x88)
  }

  /** Five words and twelve masked characters. */
  function LoginPacket(ws: seq<u32>, masked: seq<bv8>): (p: Packet)
    requires |ws| == 5 && |masked| == 12
    ensures Sendable(p) && |p.data| <= 40
  {
    Packet(CTRL_MASTER, SERIAL_BROADCAST, 0x01, 0, true, Words(ws) + masked)
  }

  function PasswordWords(now: int): (ws: seq<u32>)
    ensures |ws| == 5
  {
    [0xfffd_040c, 0x0000_0007, 40 * 365 * 24 * 60 * 60, Truncated(now), 0]
  }

  function PasswordPacket(password: seq<bv8>, now: int): (p: Packet)
    ensures Sendable(p) && |p.data| <= 40
  {
    LoginPacket(PasswordWords(now), MaskedPassword(password))
  }

  function AckPacket(serial: u32): Packet { Reply(serial, 0x01, true, [0xfffd_040d, 0x0000_0001]) }

  function Truncated(time: int): u32 { time % 0x1_0000_0000 }

  /** The words of a message about times: three times, the time zone and a count, between words that
      are always the same. */
  function TimeWords(t: seq<u32>): (ws: seq<u32>)
    requires |t| == 5
    ensures |ws| == 10
  {
    seq(10, k requires 0 <= k < 10 =>
      if k == 0 then 0xf000_020a else if k < 4 then 0x0023_6d00 else if k < 9 then t[k - 4] else 0x0000_0001)
  }

  // ---- sending in transactions ----

  /** Sends a packet in the open transaction. */
  method Ask(sma: Smadata2plus, p: Packet) returns (ret: int)
    requires sma.Valid() && sma.transactionActive && Sendable(p)
    modifies sma`log, sma.net`accepts, sma.net`sent
    ensures sma.Valid()
    ensures ret == if Works(sma.devices, p, old(sma.net.accepts)) then 0 else -1
    ensures sma.net.accepts == LaterWrites(sma.devices, p, old(sma.net.accepts))
    ensures sma.log == old(sma.log) + if ret == 0 then Post(sma.devices, p, sma.transactionCntr, Within(|sma.begun| - 1)) else []
  {
    ret := sma.Write(p);
  }

  /** Begins a transaction, sends a packet in it, and ends it if that worked. Otherwise it stays
      open until the caller leaves. */
  method Announce(sma: Smadata2plus, p: Packet) returns (ret: int)
    requires sma.Idle() && Sendable(p)
    modifies sma`transactionActive, sma`transactionCntr, sma`begun, sma`log, sma.net`accepts, sma.net`sent
    ensures sma.Valid() && |sma.begun| == |old(sma.begun)| + 1
    ensures ret == if Works(sma.devices, p, old(sma.net.accepts)) then 0 else -1
    ensures sma.net.accepts == LaterWrites(sma.devices, p, old(sma.net.accepts))
    ensures ret == 0 ==> sma.Idle()
    ensures sma.log == old(sma.log) + if ret == 0 then InTransaction(sma.devices, p, |old(sma.begun)|) else []
  {
    sma.Begin();
    ret := Ask(sma, p);
    if ret < 0 {
      return;
    }
    sma.End();
  }

  /** The entry of a packet that is sent in the k-th transaction of a session. */
  function InTransaction(devices: seq<Device>, p: Packet, k: nat): seq<Entry> {
    Post(devices, p, CounterAt(k), Within(k))
  }

  // ---- logout ----

  method Logout(sma: Smadata2plus) returns (ret: int)
    requires sma.Idle()
    modifies sma, sma.net
    ensures sma.Idle() && sma.devices == old(sma.devices) && |sma.begun| == |old(sma.begun)| + 1
    ensures ret == if BtFraming.Accepted(old(sma.net.accepts)) then 0 else -1
    ensures sma.net.accepts == BtFraming.Later(old(sma.net.accepts)) && sma.net.incoming == old(sma.net.incoming)
    ensures sma.log == old(sma.log) + if ret == 0 then InTransaction(sma.devices, LogoutPacket(), |old(sma.begun)|) else []
  {
    ret := Announce(sma, LogoutPacket());
    sma.Leave();
  }

  // ---- what is heard ----

  /** These are all of the next `n` payloads up to a failure. */
  predicate UpToFailure(heard: seq<Heard>, incoming: seq<Incoming>, n: nat) {
    FromPort(heard, incoming) && |heard| <= n && (|heard| < n ==> Next(incoming[|heard|..]).Failure?)
  }

  /** `heard` is what the port has delivered since `before`. */
  ghost predicate HeardSince(before: seq<Incoming>, heard: seq<Heard>, now: seq<Incoming>) {
    FromPort(heard, before) && now == before[|heard|..]
  }

  lemma HeardOneMore(before: seq<Incoming>, heard: seq<Heard>, now: seq<Incoming>, h: Heard)
    requires HeardSince(before, heard, now) && Next(now) == Data(h.from, h.bytes)
    ensures HeardSince(before, heard + [h], LaterIn(now))
  {
  }

  /** `now` is what is left of `before`. */
  predicate Remains(now: seq<Incoming>, before: seq<Incoming>) {
    |now| <= |before| && now == before[|before| - |now|..]
  }

  lemma RemainsLater(now: seq<Incoming>, before: seq<Incoming>)
    requires Remains(now, before)
    ensures Remains(LaterIn(now), before)
  {
  }

  /** The room for the k-th packet, if there are `first` bytes for the first one: what the packet
      before it filled. */
  function RoomAfter(first: nat, news: seq<Heard>): nat {
    if news == [] then first else |news[|news| - 1].answer.data|
  }

  predicate Roomed(first: nat, news: seq<Heard>, k: nat)
    requires k < |news|
  {
    news[k].limit == RoomAfter(first, news[..k])
  }

  predicate AllRoomed(first: nat, news: seq<Heard>) {
    forall k {:trigger Roomed(first, news, k)} :: 0 <= k < |news| ==> Roomed(first, news, k)
  }

  lemma RoomedMore(first: nat, news: seq<Heard>, h: Heard)
    requires AllRoomed(first, news) && h.limit == RoomAfter(first, news)
    ensures AllRoomed(first, news + [h])
  {
    forall k | 0 <= k < |news + [h]| ensures Roomed(first, news + [h], k) {
      assert (news + [h])[..k] == if k < |news| then news[..k] else news;
      assert k < |news| ==> Roomed(first, news, k);
    }
  }

  // ---- authentication ----

  /** Whether the next `n` reads all deliver something. */
  predicate AllDelivered(incoming: seq<Incoming>, n: nat) {
    n == 0 || (Next(incoming).Data? && AllDelivered(LaterIn(incoming), n - 1))
  }

  /** Some of the `n` answers are heard, `left` are still to be read, with as much room for the payload
      of the next one as the last one filled. */
  ghost predicate Answering(room: nat, news: seq<Heard>, now: seq<Incoming>, before: seq<Incoming>, left: nat, n: nat) {
    && AllRoomed(52, news) && room == RoomAfter(52, news) && room <= 512
    && Remains(now, before) && AllDelivered(now, left) == AllDelivered(before, n)
  }

  lemma NothingAnswered(incoming: seq<Incoming>, n: nat)
    ensures Answering(52, [], incoming, incoming, n, n)
  {
  }

  lemma AnsweringMore(room: nat, news: seq<Heard>, now: seq<Incoming>, before: seq<Incoming>, left: nat, n: nat, h: Heard)
    requires Answering(room, news, now, before, left, n) && left > 0 && Next(now).Data?
    requires h.limit == room && |h.answer.data| <= 512
    ensures Answering(|h.answer.data|, news + [h], LaterIn(now), before, left - 1, n)
  {
    RoomedMore(52, news, h);
    RemainsLater(now, before);
  }

  method ReadAnswer(sma: Smadata2plus, room: nat, ghost heard: seq<Heard>, ghost news: seq<Heard>, ghost before: seq<Incoming>,
      ghost left: nat, ghost n: nat)
    returns (ret: int, filled: nat, ghost all: seq<Heard>)
    requires sma.Valid() && sma.heard == heard + news && left > 0
    requires Answering(room, news, sma.net.incoming, before, left, n)
    modifies sma`heard, sma.net`incoming
    ensures sma.Valid() && sma.heard == heard + all
    ensures ret == 0 ==> Answering(filled, all, sma.net.incoming, before, left - 1, n)
    ensures ret != 0 ==> ret == -1 && !AllDelivered(before, n) && AllRoomed(52, all) && Remains(sma.net.incoming, before)
  {
    ghost var now := sma.net.incoming;
    var from, a;
    ret, from, a := sma.Read(room);
    filled, all := |a.data|, news;
    if ret == 0 {
      ghost var h := sma.heard[|sma.heard| - 1];
      AnsweringMore(room, news, now, before, left, n, h);
      all := news + [h];
    } else {
      RemainsLater(now, before);
    }
  }

  method ReadAnswers(sma: Smadata2plus, n: nat) returns (ret: int, ghost news: seq<Heard>)
    requires sma.Valid()
    modifies sma`heard, sma.net`incoming
    ensures sma.Valid() && sma.heard == old(sma.heard) + news && AllRoomed(52, news)
    ensures Remains(sma.net.incoming, old(sma.net.incoming))
    ensures ret == if AllDelivered(old(sma.net.incoming), n) then 0 else -1
  {
    ghost var before, heard := sma.net.incoming, sma.heard;
    news := [];
    var j, room: nat := 0, 52;
    NothingAnswered(before, n);
    while j < n
      invariant 0 <= j <= n
      invariant sma.Valid() && sma.heard == heard + news
      invariant Answering(room, news, sma.net.incoming, before, n - j, n)
    {
      ret, room, news := ReadAnswer(sma, room, heard, news, before, n - j, n);
      if ret < 0 {
        return;
      }
      j := j + 1;
    }
    ret := 0;
  }

  /** Only a single device gets an acknowledgement. */
  function AckFor(devices: seq<Device>): (p: Option<Packet>)
    ensures Possible(p)
  {
    if |devices| == 1 then Some(AckPacket(devices[0].serial)) else None
  }

  predicate Possible(p: Option<Packet>) { p.Some? ==> Sendable(p.value) }

  function MaybeInTransaction(devices: seq<Device>, p: Option<Packet>, k: nat): seq<Entry> {
    if p.Some? then InTransaction(devices, p.value, k) else []
  }

  method MaybeAsk(sma: Smadata2plus, p: Option<Packet>) returns (ret: int)
    requires sma.Valid() && sma.transactionActive && Possible(p)
    modifies sma`log, sma.net`accepts, sma.net`sent
    ensures sma.Valid()
    ensures ret == 0 || ret == -1
    ensures sma.log == old(sma.log) + if ret == 0 then MaybeInTransaction(sma.devices, p, |sma.begun| - 1) else []
  {
    ret := 0;
    if p.Some? {
      ret := Ask(sma, p.value);
    }
  }

  /** What authentication in the k-th transaction has sent and read when it returns. */
  ghost predicate Authenticated(ret: int, devices: seq<Device>, k: nat, login: Packet, ack: Option<Packet>,
      incoming: seq<Incoming>, sent: seq<Entry>)
  {
    if ret == 0 then
      AllDelivered(incoming, |devices|) && sent == InTransaction(devices, login, k) + MaybeInTransaction(devices, ack, k)
    else
      ret == -1 && (sent == [] || sent == InTransaction(devices, login, k))
  }

  method LogIn(sma: Smadata2plus, login: Packet, ack: Option<Packet>)
    returns (ret: int, ghost sent: seq<Entry>, ghost news: seq<Heard>)
    requires sma.Valid() && sma.transactionActive && Sendable(login) && Possible(ack)
    modifies sma`log, sma`heard, sma.net
    ensures sma.Valid() && sma.log == old(sma.log) + sent && sma.heard == old(sma.heard) + news
    ensures AllRoomed(52, news) && Remains(sma.net.incoming, old(sma.net.incoming))
    ensures Authenticated(ret, sma.devices, |sma.begun| - 1, login, ack, old(sma.net.incoming), sent)
  {
    sent, news := [], [];
    ret := Ask(sma, login);
    if ret < 0 {
      return;
    }
    sent := InTransaction(sma.devices, login, |sma.begun| - 1);
    ret, news := ReadAnswers(sma, |sma.devices|);
    if ret < 0 {
      return;
    }
    ret := MaybeAsk(sma, ack);
    if ret == 0 {
      sent := sent + MaybeInTransaction(sma.devices, ack, |sma.begun| - 1);
    }
  }

  // What is sent for it, word by word.

  lemma WordInFront(ws: seq<u32>, rest: seq<bv8>, k: nat)
    requires k < |ws|
    ensures U32(Words(ws) + rest, 4 * k) == ws[k]
  {
    WordAt(ws, k);
    CutKeeps(Words(ws) + rest, Words(ws), 4 * k, 4);
  }

  lemma LoginIs(ws: seq<u32>, masked: seq<bv8>)
    requires |ws| == 5 && |masked| == 12
    ensures var d := LoginPacket(ws, masked).data;
      && |d| == 32 && U32(d, 0) == ws[0] && U32(d, 4) == ws[1] && U32(d, 8) == ws[2] && U32(d, 12) == ws[3] && U32(d, 16) == ws[4]
      && forall i :: 0 <= i < 12 ==> d[20 + i] == masked[i]
  {
    WordInFront(ws, masked, 0);
    WordInFront(ws, masked, 1);
    WordInFront(ws, masked, 2);
    WordInFront(ws, masked, 3);
    WordInFront(ws, masked, 4);
  }

  /** The password goes to everybody: five words, and twelve characters masked with 88 and filled up. */
  lemma PasswordIs(password: seq<bv8>, now: int)
    ensures var p := PasswordPacket(password, now);
      && p.ctrl == 0xa0 && p.dstSerial == 0xffff_ffff && p.flag == 0x01 && p.packetNum == 0 && p.start && |p.data| == 32
      && U32(p.data, 0) == 0xfffd_040c && U32(p.data, 4) == 7 && U32(p.data, 8) == 1261440000
      && U32(p.data, 12) == now % 0x1_0000_0000 && U32(p.data, 16) == 0
      && forall i :: 0 <= i < 12 ==> p.data[20 + i] == if i < |password| then password[i] ^ 0x88 else 0x88
  {
    var masked := MaskedPassword(password);
    LoginIs(PasswordWords(now), masked);
    PasswordWordsAre(now);
  }

  lemma PasswordWordsAre(now: int)
    ensures var ws := PasswordWords(now);
      ws[0] == 0xfffd_040c && ws[1] == 7 && ws[2] == 1261440000 && ws[3] == now % 0x1_0000_0000 && ws[4] == 0
  {
  }

  lemma AckIs(serial: u32)
    ensures var p := AckPacket(serial);
      && p.ctrl == 0xe8 && p.dstSerial == serial && p.flag == 0x01 && p.packetNum == 0 && p.start && |p.data| == 8
      && U32(p.data, 0) == 0xfffd_040d && U32(p.data, 4) == 1
  {
    WordAt([0xfffd_040d, 0x0000_0001], 0);
    WordAt([0xfffd_040d, 0x0000_0001], 1);
  }

  lemma LogoutIs()
    ensures var p := LogoutPacket();
      && p.ctrl == 0xa0 && p.dstSerial == 0xffff_ffff && p.flag == 0x03 && p.packetNum == 0 && p.start && |p.data| == 8
      && U32(p.data, 0) == 0xfffd_010e && U32(p.data, 4) == 0xffff_ffff
  {
    WordAt([0xfffd_010e, 0xffff_ffff], 0);
    WordAt([0xfffd_010e, 0xffff_ffff], 1);
  }

  /** A request for a channel: bytes 00 02, the channel, the first index and the last. */
  lemma ChannelIs(serial: u32, channel: u16, fromIdx: u32, toIdx: u32)
    ensures var p := ChannelPacket(serial, channel, fromIdx, toIdx);
      && p.ctrl == 0xa0 && p.dstSerial == serial && p.flag == 0x00 && p.packetNum == 0 && p.start && |p.data| == 12
      && p.data[0] == 0x00 && p.data[1] == 0x02 && U16(p.data, 2) == channel && U32(p.data, 4) == fromIdx && U32(p.data, 8) == toIdx
  {
    var s := ChannelPacket(serial, channel, fromIdx, toIdx).data;
    AtParts(s, 0, [0x00, 0x02] + FromU16(channel) + FromU32(fromIdx), FromU32(toIdx));
    AtParts(s, 0, [0x00, 0x02] + FromU16(channel), FromU32(fromIdx));
    AtParts(s, 0, [0x00, 0x02], FromU16(channel));
    ReadU16(s, 2, channel);
    ReadU32(s, 4, fromIdx);
    ReadU32(s, 8, toIdx);
  }

  /** What an authentication that works has sent: the password, and, to a single device, an acknowledgement. */
  ghost predicate LoggedInAs(devices: seq<Device>, k: nat, password: seq<bv8>, now: int, sent: seq<Entry>) {
    && |sent| == (if |devices| == 1 then 2 else 1)
    && sent[0].packet == PasswordPacket(password, now) && sent[0].owner == Within(k)
    && sent[0].sysId == 0xffff && sent[0].mac == [0xff, 0xff, 0xff, 0xff, 0xff, 0xff]
    && (|devices| == 1 ==>
          && sent[1].packet == AckPacket(devices[0].serial) && sent[1].owner == Within(k)
          && (devices[0].serial != 0xffff_ffff ==> sent[1].sysId == devices[0].sysId && sent[1].mac == devices[0].mac))
  }

  lemma AuthenticatedIsLoggedIn(devices: seq<Device>, k: nat, password: seq<bv8>, now: int, incoming: seq<Incoming>, sent: seq<Entry>)
    requires Authenticated(0, devices, k, PasswordPacket(password, now), AckFor(devices), incoming, sent)
    ensures LoggedInAs(devices, k, password, now, sent)
  {
    var login := PasswordPacket(password, now);
    OneInTransaction(devices, login, k);
    if |devices| == 1 {
      var ack := AckPacket(devices[0].serial);
      TargetIs(devices, devices[0].serial);
      FirstDeviceFound(devices);
      assert IsFirst(devices, devices[0].serial, 0);
      OneInTransaction(devices, ack, k);
    }
  }

  lemma OneInTransaction(devices: seq<Device>, p: Packet, k: nat)
    requires Target(devices, p.dstSerial).Some?
    ensures |InTransaction(devices, p, k)| == 1
    ensures var (sysId, mac) := Target(devices, p.dstSerial).value;
      InTransaction(devices, p, k)[0] == Entry(p, sysId, mac, CounterAt(k), Within(k))
  {
  }

  /** Sends the password and reads one answer of every device. */
  method Authenticate(sma: Smadata2plus, password: seq<bv8>, now: int)
    returns (ret: int, ghost sent: seq<Entry>, ghost news: seq<Heard>)
    requires sma.Idle()
    modifies sma, sma.net
    ensures sma.Idle() && sma.devices == old(sma.devices) && |sma.begun| == |old(sma.begun)| + 1
    ensures sma.log == old(sma.log) + sent && sma.heard == old(sma.heard) + news
    ensures AllRoomed(52, news) && Remains(sma.net.incoming, old(sma.net.incoming))
    ensures Authenticated(ret, sma.devices, |old(sma.begun)|, PasswordPacket(password, now), AckFor(sma.devices),
      old(sma.net.incoming), sent)
    ensures ret == 0 ==> LoggedInAs(sma.devices, |old(sma.begun)|, password, now, sent)
  {
    ghost var k, incoming := |sma.begun|, sma.net.incoming;
    sma.Begin();
    ret, sent, news := LogIn(sma, PasswordPacket(password, now), AckFor(sma.devices));
    if ret == 0 {
      AuthenticatedIsLoggedIn(sma.devices, k, password, now, incoming, sent);
    }
    sma.Leave();
  }

  // ---- time ----

  /** The question: no time is told. */
  function QueryWords(): (ws: seq<u32>)
    ensures |ws| == 10
  {
    TimeWords([0, 0, 0, 0, 1])
  }

  /** The times in an inverter's answer. */
  function Times(d: seq<bv8>): (t: seq<u32>)
    requires |d| == 40
    ensures |t| == 5
  {
    seq(5, k requires 0 <= k < 5 => U32(d, 16 + 4 * k))
  }

  /** The reply to the time an inverter told: its own times come back to it. */
  function EchoWords(d: seq<bv8>): (ws: seq<u32>)
    requires |d| == 40
    ensures |ws| == 10
  {
    TimeWords(Times(d))
  }

  /** The time zone and its lowest bit for daylight saving time, without the highest byte. */
  function ZoneAndSummer(zone: u32): u32 { zone % 0x100_0000 }

  function Counted(n: u32): u32 { if n == 0xffff_ffff then 0 else n + 1 }

  /** The message that sets the clock. */
  function SetWords(d: seq<bv8>, now: int): (ws: seq<u32>)
    requires |d| == 40
    ensures |ws| == 10
  {
    TimeWords([Truncated(now), Truncated(now), Truncated(now), ZoneAndSummer(Times(d)[3]), Counted(Times(d)[4])])
  }

  /** The clock is set when it is off by more than 15 seconds and less than five minutes. */
  predicate ToBeSet(d: seq<bv8>, now: int)
    requires |d| == 40
  {
    var off := if now >= U32(d, 16) then now - U32(d, 16) else U32(d, 16) - now;
    15 < off < 60 * 5
  }

  /** What the answer of an inverter makes the program send: an acknowledgement with the inverter's
      own counter, the inverter's times, and the new time if it is to be set. */
  datatype Plan = Plan(serial: u32, ack: seq<u32>, cntr: u16, echo: seq<u32>, change: Option<seq<u32>>)

  predicate PossiblePlan(p: Plan) {
    |p.ack| == 2 && |p.echo| == 10 && (p.change.Some? ==> |p.change.value| == 10)
  }

  function PlanFor(devices: seq<Device>, a: Answer, now: int): (p: Plan)
    requires devices != [] && |a.data| == 40
    ensures PossiblePlan(p) && p.serial == devices[0].serial
  {
    Plan(devices[0].serial, [0xf000_010a, 0x0000_0001], a.transactionCntr, EchoWords(a.data),
         if ToBeSet(a.data, now) then Some(SetWords(a.data, now)) else None)
  }

  /** The acknowledgement is no part of a transaction of ours. */
  function TimeAck(devices: seq<Device>, p: Plan): seq<Entry>
    requires PossiblePlan(p)
  {
    Post(devices, Reply(p.serial, 0x00, false, p.ack), p.cntr, Foreign)
  }

  function Told(devices: seq<Device>, ws: seq<u32>, k: nat): seq<Entry>
    requires |ws| == 10
  {
    InTransaction(devices, Call(0x00, ws), k)
  }

  /** Everything a plan sends, from transaction `k` on. */
  function Script(devices: seq<Device>, k: nat, p: Plan): seq<Entry>
    requires PossiblePlan(p)
  {
    TimeAck(devices, p) + Told(devices, p.echo, k) + if p.change.Some? then Told(devices, p.change.value, k + 1) else []
  }

  /** What was sent of a plan, and how many transactions it took. */
  ghost predicate Carried(ret: int, devices: seq<Device>, k: nat, p: Plan, sent: seq<Entry>, count: nat)
    requires PossiblePlan(p)
  {
    var all := Script(devices, k, p);
    && |sent| <= |all| && sent == all[..|sent|]
    && (ret == 0 <==> sent == all) && -1 <= ret <= 0
    && count == (if ret == 0 then |sent| - 1 else |sent|)
  }

  /** The plan for what was heard, if it is the answer it should be. */
  function PlanAfter(devices: seq<Device>, news: seq<Heard>, now: int): (p: Option<Plan>)
    ensures p.Some? ==> PossiblePlan(p.value) && devices != [] && p.value.serial == devices[0].serial
  {
    if devices != [] && news != [] && |news[0].answer.data| == 40 then Some(PlanFor(devices, news[0].answer, now)) else None
  }

  /** What time synchronisation has sent when it returns, and how many transactions it began. */
  ghost predicate Synced(ret: int, devices: seq<Device>, query: seq<Entry>, k: nat, plan: Option<Plan>, sent: seq<Entry>, count: nat)
    requires plan.Some? ==> PossiblePlan(plan.value)
  {
    if |sent| < |query| then
      ret == -1 && sent == [] && count == 1
    else if plan.None? then
      ret == -1 && sent == query && count == 1
    else
      && sent[..|query|] == query && count >= 1
      && Carried(ret, devices, k + 1, plan.value, sent[|query|..], count - 1)
  }

  /** Tells all devices some words in a transaction of their own. */
  method Tell(sma: Smadata2plus, ws: seq<u32>) returns (ret: int)
    requires sma.Idle() && |ws| == 10
    modifies sma`transactionActive, sma`transactionCntr, sma`begun, sma`log, sma.net`accepts, sma.net`sent
    ensures sma.Valid() && |sma.begun| == |old(sma.begun)| + 1
    ensures ret == if BtFraming.Accepted(old(sma.net.accepts)) then 0 else -1
    ensures ret == 0 ==> sma.Idle()
    ensures sma.log == old(sma.log) + if ret == 0 then Told(sma.devices, ws, |old(sma.begun)|) else []
  {
    ret := Announce(sma, Call(0x00, ws));
  }

  method Acknowledge(sma: Smadata2plus, p: Plan) returns (ret: int)
    requires sma.Valid() && PossiblePlan(p)
    modifies sma`log, sma.net`accepts, sma.net`sent
    ensures sma.Valid()
    ensures ret == 0 || ret == -1
    ensures sma.log == old(sma.log) + if ret == 0 then TimeAck(sma.devices, p) else []
  {
    ret := sma.WriteReplay(Reply(p.serial, 0x00, false, p.ack), p.cntr, Foreign);
  }

  lemma OneTold(devices: seq<Device>, ws: seq<u32>, k: nat)
    requires |ws| == 10
    ensures |Told(devices, ws, k)| == 1
  {
  }

  lemma OneEach(devices: seq<Device>, p: Plan, ws: seq<u32>, k: nat)
    requires PossiblePlan(p) && Target(devices, p.serial).Some? && |ws| == 10
    ensures |TimeAck(devices, p)| == 1 && |Told(devices, ws, k)| == 1
  {
  }

  /** The points at which sending a plan can stop. */
  lemma Stops(devices: seq<Device>, k: nat, p: Plan)
    requires PossiblePlan(p) && Target(devices, p.serial).Some?
    ensures Carried(-1, devices, k, p, [], 0) && Carried(-1, devices, k, p, TimeAck(devices, p), 1)
    ensures var most := TimeAck(devices, p) + Told(devices, p.echo, k);
      if p.change.None? then Carried(0, devices, k, p, most, 1)
      else Carried(-1, devices, k, p, most, 2) && Carried(0, devices, k, p, most + Told(devices, p.change.value, k + 1), 2)
  {
    OneEach(devices, p, p.echo, k);
    var ack, all := TimeAck(devices, p), Script(devices, k, p);
    var most := ack + Told(devices, p.echo, k);
    if p.change.Some? {
      OneEach(devices, p, p.change.value, k + 1);
    }
    assert all[..0] == [] && all[..1] == ack && all[..2] == most;
  }

  /** Sends a plan; a transaction whose packet was not sent stays open. */
  method SyncReplies(sma: Smadata2plus, p: Plan) returns (ret: int, ghost sent: seq<Entry>)
    requires sma.Idle() && PossiblePlan(p) && Target(sma.devices, p.serial).Some?
    modifies sma`transactionActive, sma`transactionCntr, sma`begun, sma`log, sma.net`accepts, sma.net`sent
    ensures sma.Valid() && sma.log == old(sma.log) + sent && |sma.begun| >= |old(sma.begun)|
    ensures Carried(ret, sma.devices, |old(sma.begun)|, p, sent, |sma.begun| - |old(sma.begun)|)
  {
    ghost var k := |sma.begun|;
    Stops(sma.devices, k, p);
    sent := [];
    ret := Acknowledge(sma, p);
    if ret < 0 {
      return;
    }
    sent := TimeAck(sma.devices, p);
    ret := Tell(sma, p.echo);
    if ret < 0 {
      return;
    }
    sent := sent + Told(sma.devices, p.echo, k);
    if p.change.Some? {
      ret := Tell(sma, p.change.value);
      if ret == 0 {
        sent := sent + Told(sma.devices, p.change.value, k + 1);
      }
    }
  }

  lemma FirstDeviceFound(devices: seq<Device>)
    requires devices != []
    ensures Target(devices, devices[0].serial).Some?
  {
  }

  /** A packet that is long enough for an answer about times. */
  predicate TellsTime(i: Incoming) { i.Data? && |i.bytes| >= HEADER_SIZE + 40 }

  lemma FullAnswer(h: Heard)
    requires Understood(h) && h.limit == 40 && |h.answer.data| == 40
    ensures TellsTime(Data(h.from, h.bytes))
  {
  }

  /** The first device is looked up only after a good answer. */
  method ReadPlan(sma: Smadata2plus, now: int) returns (p: Option<Plan>, ghost news: seq<Heard>)
    requires sma.Valid() && (sma.devices != [] || !TellsTime(Next(sma.net.incoming)))
    modifies sma`heard, sma.net`incoming
    ensures sma.Valid() && sma.heard == old(sma.heard) + news
    ensures UpToFailure(news, old(sma.net.incoming), 1) && Remains(sma.net.incoming, old(sma.net.incoming))
    ensures p == PlanAfter(sma.devices, news, now)
  {
    RemainsLater(sma.net.incoming, sma.net.incoming);
    var r, from, a := sma.Read(40);
    if r < 0 {
      news := [];
      return None, news;
    }
    news := [sma.heard[|sma.heard| - 1]];
    if |a.data| != 40 {
      return None, news;
    }
    assert Understood(news[0]) by {
      assert Understood(sma.heard[|sma.heard| - 1]);
    }
    FullAnswer(news[0]);
    p := Some(PlanFor(sma.devices, a, now));
  }

  /** The question goes out, and what comes back is long enough. */
  predicate TimeComes(incoming: seq<Incoming>, accepts: seq<bool>) {
    BtFraming.Accepted(accepts) && TellsTime(Next(incoming))
  }

  /** Asks for the time. The transaction of the question stays open if it could not be sent. */
  method AskTime(sma: Smadata2plus, query: seq<u32>, now: int)
    returns (ret: int, p: Option<Plan>, ghost sent: seq<Entry>, ghost news: seq<Heard>)
    requires sma.Idle() && |query| == 10
    requires sma.devices != [] || !TimeComes(sma.net.incoming, sma.net.accepts)
    modifies sma`transactionActive, sma`transactionCntr, sma`begun, sma`log, sma`heard, sma.net
    ensures sma.Valid() && |sma.begun| == |old(sma.begun)| + 1
    ensures sma.log == old(sma.log) + sent && sma.heard == old(sma.heard) + news
    ensures ret == 0 || ret == -1
    ensures ret == 0 ==> sma.Idle()
    ensures sent == if ret == 0 then Told(sma.devices, query, |old(sma.begun)|) else []
    ensures if ret == 0 then UpToFailure(news, old(sma.net.incoming), 1) else news == []
    ensures Remains(sma.net.incoming, old(sma.net.incoming))
    ensures p == PlanAfter(sma.devices, news, now)
  {
    sent, news, p := [], [], None;
    ret := Tell(sma, query);
    if ret == 0 {
      sent := Told(sma.devices, query, |old(sma.begun)|);
      p, news := ReadPlan(sma, now);
    }
  }

  /** What follows the question, if it was asked and answered. */
  method SyncRest(sma: Smadata2plus, asking: int, p: Option<Plan>, ghost query: seq<Entry>) returns (ret: int, ghost replies: seq<Entry>)
    requires sma.Valid() && (asking == 0 ==> sma.Idle()) && -1 <= asking <= 0 && |query| == 1
    requires p.Some? ==> PossiblePlan(p.value) && Target(sma.devices, p.value.serial).Some?
    requires |sma.begun| > 0
    modifies sma`transactionActive, sma`transactionCntr, sma`begun, sma`log, sma.net`accepts, sma.net`sent
    ensures sma.Valid() && |sma.begun| >= |old(sma.begun)|
    ensures sma.log == old(sma.log) + replies && (asking < 0 || p.None? ==> replies == [])
    ensures Synced(ret, sma.devices, query, |old(sma.begun)| - 1, p, (if asking == 0 then query else []) + replies,
      |sma.begun| - |old(sma.begun)| + 1)
  {
    replies := [];
    if asking < 0 || p.None? {
      assert (if asking == 0 then query else []) + replies == if asking == 0 then query else [];
      ret := -1;
      return;
    }
    ret, replies := SyncReplies(sma, p.value);
    assert (query + replies)[..|query|] == query && (query + replies)[|query|..] == replies;
  }

  /** The steps of time synchronisation. */
  method SyncSteps(sma: Smadata2plus, words: seq<u32>, now: int)
    returns (ret: int, ghost sent: seq<Entry>, ghost news: seq<Heard>, p: Option<Plan>)
    requires sma.Idle() && |words| == 10
    requires sma.devices != [] || !TimeComes(sma.net.incoming, sma.net.accepts)
    modifies sma`transactionActive, sma`transactionCntr, sma`begun, sma`log, sma`heard, sma.net
    ensures sma.Valid() && |sma.begun| >= |old(sma.begun)|
    ensures sma.log == old(sma.log) + sent && sma.heard == old(sma.heard) + news
    ensures sent != [] ==> UpToFailure(news, old(sma.net.incoming), 1)
    ensures Remains(sma.net.incoming, old(sma.net.incoming))
    ensures p == PlanAfter(sma.devices, news, now)
    ensures Synced(ret, sma.devices, Told(sma.devices, words, |old(sma.begun)|), |old(sma.begun)|, p, sent,
      |sma.begun| - |old(sma.begun)|)
  {
    ghost var query := Told(sma.devices, words, |sma.begun|);
    OneTold(sma.devices, words, |sma.begun|);
    var asking;
    asking, p, sent, news := AskTime(sma, words, now);
    if p.Some? {
      FirstDeviceFound(sma.devices);
    }
    ghost var replies;
    ret, replies := SyncRest(sma, asking, p, query);
    Regroup(old(sma.log), sent, replies);
    sent := sent + replies;
  }

  // What that comes to, word by word.

  /** A message to everybody that says these words. */
  ghost predicate Says(e: Entry, owner: Owner, words: seq<u32>) {
    && e.packet.ctrl == 0xa0 && e.packet.dstSerial == 0xffff_ffff && e.packet.flag == 0x00
    && e.packet.packetNum == 0 && e.packet.start
    && e.sysId == 0xffff && e.mac == [0xff, 0xff, 0xff, 0xff, 0xff, 0xff] && e.owner == owner
    && |e.packet.data| == 4 * |words| && forall k :: 0 <= k < |words| ==> U32(e.packet.data, 4 * k) == words[k]
  }

  lemma ToldSays(devices: seq<Device>, ws: seq<u32>, k: nat)
    requires |ws| == 10
    ensures |Told(devices, ws, k)| == 1 && Says(Told(devices, ws, k)[0], Within(k), ws)
  {
    forall j | 0 <= j < |ws| ensures U32(Words(ws), 4 * j) == ws[j] {
      WordAt(ws, j);
    }
  }

  /** The reply that acknowledges the time. */
  ghost predicate Acknowledges(e: Entry, d: Device, cntr: u16) {
    && e.packet.ctrl == 0xe8 && e.packet.dstSerial == d.serial && e.packet.flag == 0x00 && e.packet.packetNum == 0 && !e.packet.start
    && e.cntr == cntr && e.owner == Foreign && (d.serial != 0xffff_ffff ==> e.sysId == d.sysId && e.mac == d.mac)
    && |e.packet.data| == 8 && U32(e.packet.data, 0) == 0xf000_010a && U32(e.packet.data, 4) == 1
  }

  lemma AckAcknowledges(devices: seq<Device>, p: Plan)
    requires PossiblePlan(p) && devices != [] && p.serial == devices[0].serial && p.ack == [0xf000_010a, 1]
    ensures |TimeAck(devices, p)| == 1 && Acknowledges(TimeAck(devices, p)[0], devices[0], p.cntr)
  {
    TargetIs(devices, p.serial);
    FirstDeviceFound(devices);
    assert IsFirst(devices, p.serial, 0);
    WordAt(p.ack, 0);
    WordAt(p.ack, 1);
  }

  /** The words of the answer the plan is made of. */
  lemma PlanIs(devices: seq<Device>, a: Answer, now: int)
    requires devices != [] && |a.data| == 40
    ensures var d, p := a.data, PlanFor(devices, a, now);
      var off := if now < U32(d, 16) then U32(d, 16) - now else now - U32(d, 16);
      && p.serial == devices[0].serial && p.cntr == a.transactionCntr && p.ack == [0xf000_010a, 1]
      && p.echo == [0xf000_020a, 0x0023_6d00, 0x0023_6d00, 0x0023_6d00,
                    U32(d, 16), U32(d, 20), U32(d, 24), U32(d, 28), U32(d, 32), 1]
      && (p.change.Some? <==> 16 <= off <= 299)
      && (p.change.Some? ==> (
            var time, zone, count := now % 0x1_0000_0000, U32(d, 28) % 0x100_0000, (U32(d, 32) + 1) % 0x1_0000_0000;
            p.change.value == [0xf000_020a, 0x0023_6d00, 0x0023_6d00, 0x0023_6d00, time, time, time, zone, count, 1]))
  {
  }

  /** What a synchronisation that works has sent: the question, the acknowledgement with the inverter's own
      counter, its times as they were, and, exactly if its clock is off by 16 to 299 seconds, the new
      time with the time zone without its highest byte and the count raised by one. */
  ghost predicate Clocked(devices: seq<Device>, k: nat, d: seq<bv8>, cntr: u16, now: int, sent: seq<Entry>) {
    var t: u32 := 0x0023_6d00;
    && devices != [] && |d| == 40
    && var off := if now < U32(d, 16) then U32(d, 16) - now else now - U32(d, 16);
       && |sent| == (if 16 <= off <= 299 then 4 else 3)
       && Says(sent[0], Within(k), [0xf000_020a, t, t, t, 0, 0, 0, 0, 1, 1])
       && Acknowledges(sent[1], devices[0], cntr)
       && Says(sent[2], Within(k + 1), [0xf000_020a, t, t, t, U32(d, 16), U32(d, 20), U32(d, 24), U32(d, 28), U32(d, 32), 1])
       && (|sent| == 4 ==> (
             var time: u32, zone: u32, count: u32 := now % 0x1_0000_0000, U32(d, 28) % 0x100_0000, (U32(d, 32) + 1) % 0x1_0000_0000;
             Says(sent[3], Within(k + 2), [0xf000_020a, t, t, t, time, time, time, zone, count, 1])))
  }

  lemma QueryIs()
    ensures QueryWords() == [0xf000_020a, 0x0023_6d00, 0x0023_6d00, 0x0023_6d00, 0, 0, 0, 0, 1, 1]
  {
  }

  lemma EntriesOfScript(devices: seq<Device>, k: nat, p: Plan, query: seq<Entry>, sent: seq<Entry>)
    requires PossiblePlan(p) && |TimeAck(devices, p)| == 1 && |Told(devices, p.echo, k)| == 1 && |query| == 1
    requires p.change.Some? ==> |Told(devices, p.change.value, k + 1)| == 1
    requires sent == query + Script(devices, k, p)
    ensures |sent| == (if p.change.Some? then 4 else 3) && sent[0] == query[0] && sent[1] == TimeAck(devices, p)[0]
    ensures sent[2] == Told(devices, p.echo, k)[0] && (p.change.Some? ==> sent[3] == Told(devices, p.change.value, k + 1)[0])
  {
  }

  lemma SyncedWhole(devices: seq<Device>, k: nat, p: Plan, query: seq<Entry>, sent: seq<Entry>, count: nat)
    requires PossiblePlan(p) && |query| == 1 && Synced(0, devices, query, k, Some(p), sent, count)
    ensures sent == query + Script(devices, k + 1, p)
  {
    assert sent == sent[..1] + sent[1..];
  }

  lemma SyncedIsClocked(devices: seq<Device>, k: nat, a: Answer, now: int, sent: seq<Entry>, count: nat)
    requires devices != [] && |a.data| == 40
    requires Synced(0, devices, Told(devices, QueryWords(), k), k, Some(PlanFor(devices, a, now)), sent, count)
    ensures Clocked(devices, k, a.data, a.transactionCntr, now, sent)
  {
    var p, query := PlanFor(devices, a, now), Told(devices, QueryWords(), k);
    PlanIs(devices, a, now);
    QueryIs();
    ToldSays(devices, QueryWords(), k);
    AckAcknowledges(devices, p);
    ToldSays(devices, p.echo, k + 1);
    if p.change.Some? {
      ToldSays(devices, p.change.value, k + 2);
    }
    SyncedWhole(devices, k, p, query, sent, count);
    EntriesOfScript(devices, k + 1, p, query, sent);
  }

  lemma SyncedSays(ret: int, devices: seq<Device>, k: nat, news: seq<Heard>, incoming: seq<Incoming>, now: int, sent: seq<Entry>, count: nat)
    requires Synced(ret, devices, Told(devices, QueryWords(), k), k, PlanAfter(devices, news, now), sent, count)
    requires sent != [] ==> UpToFailure(news, incoming, 1)
    ensures ret == 0 ==> (
      |news| == 1 && var a := news[0].answer; Clocked(devices, k, a.data, a.transactionCntr, now, sent))
  {
    OneTold(devices, QueryWords(), k);
    if ret == 0 {
      SyncedIsClocked(devices, k, news[0].answer, now, sent, count);
    }
  }

  /** Reads the time of an inverter, acknowledges it with the inverter's own counter, sends it back,
      and sets it if it is off. Each of its own messages is a transaction. */
  method SyncTime(sma: Smadata2plus, now: int)
    returns (ret: int, ghost sent: seq<Entry>, ghost news: seq<Heard>, ghost plan: Option<Plan>)
    requires sma.Idle() && (sma.devices != [] || !TimeComes(sma.net.incoming, sma.net.accepts))
    modifies sma, sma.net
    ensures sma.Idle() && sma.devices == old(sma.devices) && |sma.begun| >= |old(sma.begun)|
    ensures Remains(sma.net.incoming, old(sma.net.incoming))
    ensures sma.log == old(sma.log) + sent && sma.heard == old(sma.heard) + news
    ensures sent != [] ==> UpToFailure(news, old(sma.net.incoming), 1)
    ensures plan == PlanAfter(sma.devices, news, now)
    ensures Synced(ret, sma.devices, Told(sma.devices, QueryWords(), |old(sma.begun)|), |old(sma.begun)|, plan, sent,
      |sma.begun| - |old(sma.begun)|)
    ensures ret == 0 ==> (
      |news| == 1 && var a := news[0].answer; Clocked(sma.devices, |old(sma.begun)|, a.data, a.transactionCntr, now, sent))
  {
    var p;
    ghost var k, incoming := |sma.begun|, sma.net.incoming;
    ret, sent, news, p := SyncSteps(sma, QueryWords(), now);
    plan := p;
    SyncedSays(ret, sma.devices, k, news, incoming, now, sent, |sma.begun| - k);
    sma.Leave();
  }

  /** The times an inverter told come back to it, word by word. */
  lemma EchoReturnsTimes(d: seq<bv8>, ws: seq<u32>, k: nat)
    requires |d| == 40 && ws == EchoWords(d) && 4 <= k <= 8
    ensures U32(Words(ws), 4 * k) == U32(d, 4 * k)
  {
    WordAt(ws, k);
    EchoWord(d, k);
  }

  lemma EchoWord(d: seq<bv8>, k: nat)
    requires |d| == 40 && 4 <= k <= 8
    ensures EchoWords(d)[k] == U32(d, 4 * k)
  {
  }

  /** Time synchronisation takes one to three transactions: two or three if it works. */
  lemma SyncTransactions(ret: int, devices: seq<Device>, k: nat, plan: Option<Plan>, sent: seq<Entry>, count: nat)
    requires plan.Some? ==> PossiblePlan(plan.value) && Target(devices, plan.value.serial).Some?
    requires Synced(ret, devices, Told(devices, QueryWords(), k), k, plan, sent, count)
    ensures 1 <= count <= 3 && -1 <= ret <= 0
    ensures ret == 0 ==> plan.Some? && |sent| == count + 1 && count == if plan.value.change.Some? then 3 else 2
  {
    if plan.Some? {
      OneEach(devices, plan.value, QueryWords(), k);
      OneEach(devices, plan.value, plan.value.echo, k + 1);
      if plan.value.change.Some? {
        OneEach(devices, plan.value, plan.value.change.value, k + 2);
      }
    }
  }
}
