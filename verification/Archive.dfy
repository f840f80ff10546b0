/** The archive readers of src/smadata2plus.cpp: they collect records over several packets. */
module Archive {
  import opened ByteOrder
  import opened Smadata2plus
  import Transactions
  import BtFraming

  const ROOM := 512
  const DAY_SIZE := 12
  const EVENT_SIZE := 48
  const PVLIB_INVALID_U64: u64 := 0xffff_ffff_ffff_ffff

  datatype TotalDayData = TotalDayData(time: int, totalYield: u64)

  datatype EventData = EventData(time: int, entryId: u16, sysId: u16, serial: u32, eventCode: u16, eventFlags: u16,
    group: u32, unknown: u32, tag: u32, counter: u32, dtChange: u32, parameter: u32, newVal: u32, oldVal: u32)

  // ---- one packet ----

  /** The length of an index range, computed on 32 bits. */
  function RangeLength(first: u32, last: u32): int { Int32((last - first + 1) % 0x1_0000_0000) }

  /** The number of entries a packet announces. */
  function Entries(d: seq<bv8>): int
    requires |d| >= 12
  {
    RangeLength(U32(d, 4), U32(d, 8))
  }

  /** A packet that is not refused. */
  predicate Good(d: seq<bv8>, obj: u16) {
    |d| >= 12 && U16(d, 2) == obj && Entries(d) > 0
  }

  /** How many records are taken: as many as are announced, if that many are there. */
  function Count(d: seq<bv8>, obj: u16, size: nat): (n: nat)
    requires Good(d, obj) && size > 0
    ensures 12 + n * size <= |d|
    ensures n == Entries(d) || (n < Entries(d) && |d| < 12 + (n + 1) * size)
  {
    var there := (|d| - 12) / size;
    Quotient(|d| - 12, size);
    if there < Entries(d) then there else (Fits(Entries(d), there, size); Entries(d))
  }

  lemma Quotient(a: nat, b: nat)
    requires b > 0
    ensures a / b * b <= a < (a / b + 1) * b
  {
  }

  lemma Fits(n: nat, m: nat, size: nat)
    requires n <= m
    ensures n * size <= m * size
  {
  }

  /** What the first `n` records contribute; `take` makes at most one item of a record. */
  function Kept<T>(d: seq<bv8>, size: nat, n: nat, take: (seq<bv8>, nat) -> seq<T>): seq<T> {
    if n == 0 then [] else Kept(d, size, n - 1, take) + take(d, 12 + (n - 1) * size)
  }

  /** What a packet contributes. */
  function Harvest<T>(d: seq<bv8>, obj: u16, size: nat, take: (seq<bv8>, nat) -> seq<T>): seq<T>
    requires Good(d, obj) && size > 0
  {
    Kept(d, size, Count(d, obj, size), take)
  }

  function DayAt(d: seq<bv8>, at: nat): TotalDayData
    requires at + DAY_SIZE <= |d|
  {
    TotalDayData(Int32(U32(d, at)), U64(d, at + 4))
  }

  function EventAt(d: seq<bv8>, at: nat): EventData
    requires at + EVENT_SIZE <= |d|
  {
    EventData(Int32(U32(d, at)), U16(d, at + 4), U16(d, at + 6), U32(d, at + 8), U16(d, at + 12), U16(d, at + 14),
      U32(d, at + 16), U32(d, at + 20), U32(d, at + 24), U32(d, at + 28), U32(d, at + 32), U32(d, at + 36),
      U32(d, at + 40), U32(d, at + 44))
  }

  predicate WantedDay(day: TotalDayData, from: int, to: int) {
    from <= day.time <= to && day.totalYield != PVLIB_INVALID_U64
  }

  predicate WantedEvent(event: EventData, from: int, to: int) { from <= event.time <= to }

  /** Days in the time asked for whose total is valid. */
  function DayTaker(from: int, to: int): (seq<bv8>, nat) -> seq<TotalDayData> {
    (d: seq<bv8>, at: nat) => if at + DAY_SIZE <= |d| && WantedDay(DayAt(d, at), from, to) then [DayAt(d, at)] else []
  }

  function EventTaker(from: int, to: int): (seq<bv8>, nat) -> seq<EventData> {
    (d: seq<bv8>, at: nat) => if at + EVENT_SIZE <= |d| && WantedEvent(EventAt(d, at), from, to) then [EventAt(d, at)] else []
  }

  method ParseTotalDayData(d: seq<bv8>, at: nat) returns (day: TotalDayData)
    requires at + DAY_SIZE <= |d|
    ensures day == DayAt(d, at)
  {
    var dr := new DataReader(d, at, DAY_SIZE);
    var time := dr.U32le();
    var totalYield := dr.U64le();
    day := TotalDayData(Int32(time), totalYield);
  }

  /** Four words one behind the other. */
  method ParseFour(dr: DataReader) returns (a: u32, b: u32, c: u32, d: u32)
    requires dr.Valid() && dr.pos + 16 <= dr.end
    modifies dr`pos
    ensures dr.Valid() && dr.pos == old(dr.pos) + 16
    ensures a == U32(dr.buf, old(dr.pos)) && b == U32(dr.buf, old(dr.pos) + 4)
    ensures c == U32(dr.buf, old(dr.pos) + 8) && d == U32(dr.buf, old(dr.pos) + 12)
  {
    a := dr.U32le();
    b := dr.U32le();
    c := dr.U32le();
    d := dr.U32le();
  }

  method ParseEntry(dr: DataReader) returns (a: u32, b: u16, c: u16)
    requires dr.Valid() && dr.pos + 8 <= dr.end
    modifies dr`pos
    ensures dr.Valid() && dr.pos == old(dr.pos) + 8
    ensures a == U32(dr.buf, old(dr.pos)) && b == U16(dr.buf, old(dr.pos) + 4) && c == U16(dr.buf, old(dr.pos) + 6)
  {
    a := dr.U32le();
    b := dr.U16le();
    c := dr.U16le();
  }

  method ParseEventData(d: seq<bv8>, at: nat) returns (event: EventData)
    requires at + EVENT_SIZE <= |d|
    ensures event == EventAt(d, at)
  {
    var dr := new DataReader(d, at, EVENT_SIZE);
    var time, entryId, sysId := ParseEntry(dr);
    var serial, eventCode, eventFlags := ParseEntry(dr);
    var group, unknown, tag, counter := ParseFour(dr);
    var dtChange, parameter, newVal, oldVal := ParseFour(dr);
    event := EventData(Int32(time), entryId, sysId, serial, eventCode, eventFlags, group, unknown, tag, counter,
      dtChange, parameter, newVal, oldVal);
  }

  /** The checks on a packet. */
  method CheckPacket(d: seq<bv8>, reqObj: u16) returns (ok: bool, entries: int)
    ensures ok <==> Good(d, reqObj)
    ensures ok ==> entries == Entries(d)
  {
    entries := 0;
    if |d| < 12 {
      return false, entries;
    }
    var obj := U16(d, 2);
    if obj != reqObj {
      return false, entries;
    }
    var dataFrom := U32(d, 4);
    var dataTo := U32(d, 8);
    entries := RangeLength(dataFrom, dataTo);
    ok := entries > 0;
  }

  lemma CountIs(d: seq<bv8>, obj: u16, size: nat, n: nat)
    requires Good(d, obj) && size > 0 && n <= Entries(d) && 12 + n * size <= |d|
    requires n == Entries(d) || |d| < 12 + (n + 1) * size
    ensures n == Count(d, obj, size)
  {
    var m := Count(d, obj, size);
    if n < m {
      Fits(n + 1, m, size);
    } else if m < n {
      Fits(m + 1, n, size);
    }
  }

  /** One round of the loop over the records: the record, if it is wanted. */
  method TakeDay(d: seq<bv8>, at: nat, from: int, to: int) returns (days: seq<TotalDayData>)
    requires at + DAY_SIZE <= |d|
    ensures days == DayTaker(from, to)(d, at)
  {
    var day := ParseTotalDayData(d, at);
    days := if from <= day.time && day.time <= to && day.totalYield != PVLIB_INVALID_U64 then [day] else [];
  }

  method TakeEvent(d: seq<bv8>, at: nat, from: int, to: int) returns (events: seq<EventData>)
    requires at + EVENT_SIZE <= |d|
    ensures events == EventTaker(from, to)(d, at)
  {
    var event := ParseEventData(d, at);
    events := if from <= event.time && event.time <= to then [event] else [];
  }

  /** The loop over the records. */
  method TakeDaysOf(d: seq<bv8>, entries: nat, from: int, to: int) returns (days: seq<TotalDayData>, ghost n: nat)
    requires |d| >= 12
    ensures n <= entries && 12 + n * DAY_SIZE <= |d| && (n == entries || |d| < 12 + (n + 1) * DAY_SIZE)
    ensures days == Kept(d, DAY_SIZE, n, DayTaker(from, to))
  {
    days, n := [], 0;
    var i := 12;
    while i + DAY_SIZE <= |d| && (i - 12) / DAY_SIZE < entries
      invariant i == 12 + n * DAY_SIZE && 0 <= n <= entries && i <= |d|
      invariant days == Kept(d, DAY_SIZE, n, DayTaker(from, to))
      decreases |d| - i
    {
      var day := TakeDay(d, i, from, to);
      days := days + day;
      i := i + DAY_SIZE;
      n := n + 1;
    }
  }

  method TakeDays(d: seq<bv8>, reqObj: u16, from: int, to: int) returns (ok: bool, days: seq<TotalDayData>)
    ensures ok <==> Good(d, reqObj)
    ensures ok ==> days == Harvest(d, reqObj, DAY_SIZE, DayTaker(from, to))
  {
    days := [];
    var entries;
    ok, entries := CheckPacket(d, reqObj);
    if ok {
      ghost var n;
      days, n := TakeDaysOf(d, entries, from, to);
      CountIs(d, reqObj, DAY_SIZE, n);
    }
  }

  method TakeEventsOf(d: seq<bv8>, entries: nat, from: int, to: int) returns (events: seq<EventData>, ghost n: nat)
    requires |d| >= 12
    ensures n <= entries && 12 + n * EVENT_SIZE <= |d| && (n == entries || |d| < 12 + (n + 1) * EVENT_SIZE)
    ensures events == Kept(d, EVENT_SIZE, n, EventTaker(from, to))
  {
    events, n := [], 0;
    var i := 12;
    while i + EVENT_SIZE <= |d| && (i - 12) / EVENT_SIZE < entries
      invariant i == 12 + n * EVENT_SIZE && 0 <= n <= entries && i <= |d|
      invariant events == Kept(d, EVENT_SIZE, n, EventTaker(from, to))
      decreases |d| - i
    {
      var event := TakeEvent(d, i, from, to);
      events := events + event;
      i := i + EVENT_SIZE;
      n := n + 1;
    }
  }

  method TakeEvents(d: seq<bv8>, reqObj: u16, from: int, to: int) returns (ok: bool, events: seq<EventData>)
    ensures ok <==> Good(d, reqObj)
    ensures ok ==> events == Harvest(d, reqObj, EVENT_SIZE, EventTaker(from, to))
  {
    events := [];
    var entries;
    ok, entries := CheckPacket(d, reqObj);
    if ok {
      ghost var n;
      events, n := TakeEventsOf(d, entries, from, to);
      CountIs(d, reqObj, EVENT_SIZE, n);
    }
  }

  // ---- all packets of an archive ----

  /** A packet that is good and not the last. */
  predicate Continues(h: Heard, obj: u16) { Good(h.answer.data, obj) && h.answer.packetNum > 0 }

  predicate AllContinue(news: seq<Heard>, obj: u16) {
    forall k :: 0 <= k < |news| ==> Continues(news[k], obj)
  }

  predicate AllGood(news: seq<Heard>, obj: u16) {
    forall k :: 0 <= k < |news| ==> Good(news[k].answer.data, obj)
  }

  /** What good packets contribute, in order. */
  function Gathered<T>(news: seq<Heard>, obj: u16, size: nat, take: (seq<bv8>, nat) -> seq<T>): seq<T>
    requires AllGood(news, obj) && size > 0
  {
    if news == [] then []
    else Gathered(news[..|news| - 1], obj, size, take) + Harvest(news[|news| - 1].answer.data, obj, size, take)
  }

  /** `items` is what the packets contribute, all of them good. */
  ghost predicate Collected<T>(items: seq<T>, news: seq<Heard>, obj: u16, size: nat, take: (seq<bv8>, nat) -> seq<T>)
    requires size > 0
  {
    AllGood(news, obj) && items == Gathered(news, obj, size, take)
  }

  lemma GatheredMore<T>(news: seq<Heard>, h: Heard, obj: u16, size: nat, take: (seq<bv8>, nat) -> seq<T>)
    requires AllGood(news, obj) && Good(h.answer.data, obj) && size > 0
    ensures AllGood(news + [h], obj)
    ensures Gathered(news + [h], obj, size, take) == Gathered(news, obj, size, take) + Harvest(h.answer.data, obj, size, take)
  {
    assert (news + [h])[..|news|] == news;
  }

  /** Packets that have been read, with more to come. */
  ghost predicate Going(obj: u16, news: seq<Heard>, before: seq<Incoming>, now: seq<Incoming>, room: nat) {
    && Transactions.HeardSince(before, news, now) && Transactions.AllRoomed(ROOM, news)
    && AllContinue(news, obj) && room == Transactions.RoomAfter(ROOM, news) && room <= ROOM
  }

  /** How reading an archive ends. It works exactly when all packets up to the first with number 0
      arrive and are good; it fails at the first that does not arrive or is not good. */
  ghost predicate Ended(ret: int, obj: u16, news: seq<Heard>, before: seq<Incoming>) {
    && FromPort(news, before) && Transactions.AllRoomed(ROOM, news)
    && (if news != [] && !Continues(news[|news| - 1], obj) then
          var last := news[|news| - 1].answer;
          AllContinue(news[..|news| - 1], obj) && ret == (if Good(last.data, obj) then 0 else -1)
        else
          AllContinue(news, obj) && ret == -1 && Next(before[|news|..]).Failure?)
  }

  lemma OneMore(obj: u16, news: seq<Heard>, before: seq<Incoming>, now: seq<Incoming>, room: nat, h: Heard)
    requires Going(obj, news, before, now, room) && Next(now) == Data(h.from, h.bytes)
    requires h.limit == room && |h.answer.data| <= room
    ensures Continues(h, obj) ==> Going(obj, news + [h], before, LaterIn(now), |h.answer.data|)
    ensures !Continues(h, obj) ==> Ended(if Good(h.answer.data, obj) then 0 else -1, obj, news + [h], before)
  {
    Transactions.HeardOneMore(before, news, now, h);
    Transactions.RoomedMore(ROOM, news, h);
    assert (news + [h])[..|news|] == news;
  }

  /** Reads one packet and adds its wanted records to those already taken. */
  method ReadDays(sma: Smadata2plus, room: nat, reqObj: u16, from: int, to: int, done: seq<TotalDayData>,
      ghost news: seq<Heard>, ghost before: seq<Incoming>, ghost heard: seq<Heard>)
    returns (ret: int, a: Answer, days: seq<TotalDayData>, ghost all: seq<Heard>)
    requires sma.Valid() && sma.heard == heard + news && Going(reqObj, news, before, sma.net.incoming, room)
    requires Collected(done, news, reqObj, DAY_SIZE, DayTaker(from, to))
    modifies sma`heard, sma.net`incoming
    ensures sma.Valid() && sma.heard == heard + all
    ensures ret == 0 || ret == -1
    ensures ret < 0 ==> Ended(-1, reqObj, all, before)
    ensures ret == 0 ==> Collected(days, all, reqObj, DAY_SIZE, DayTaker(from, to))
    ensures ret == 0 && a.packetNum > 0 ==> Going(reqObj, all, before, sma.net.incoming, |a.data|)
    ensures ret == 0 && a.packetNum == 0 ==> Ended(0, reqObj, all, before)
    ensures ret == 0 ==> |sma.net.incoming| < |old(sma.net.incoming)|
  {
    days, all := done, news;
    ghost var incoming := sma.net.incoming;
    var src;
    ret, src, a := sma.Read(room);
    if ret < 0 {
      return;
    }
    ghost var h := sma.heard[|sma.heard| - 1];
    all := news + [h];
    OneMore(reqObj, news, before, incoming, room, h);
    var ok, taken := TakeDays(a.data, reqObj, from, to);
    if ok {
      GatheredMore(news, h, reqObj, DAY_SIZE, DayTaker(from, to));
    }
    days := done + taken;
    ret := if ok then 0 else -1;
  }

  method ReadEvents(sma: Smadata2plus, room: nat, reqObj: u16, from: int, to: int, done: seq<EventData>,
      ghost news: seq<Heard>, ghost before: seq<Incoming>, ghost heard: seq<Heard>)
    returns (ret: int, a: Answer, events: seq<EventData>, ghost all: seq<Heard>)
    requires sma.Valid() && sma.heard == heard + news && Going(reqObj, news, before, sma.net.incoming, room)
    requires Collected(done, news, reqObj, EVENT_SIZE, EventTaker(from, to))
    modifies sma`heard, sma.net`incoming
    ensures sma.Valid() && sma.heard == heard + all
    ensures ret == 0 || ret == -1
    ensures ret < 0 ==> Ended(-1, reqObj, all, before)
    ensures ret == 0 ==> Collected(events, all, reqObj, EVENT_SIZE, EventTaker(from, to))
    ensures ret == 0 && a.packetNum > 0 ==> Going(reqObj, all, before, sma.net.incoming, |a.data|)
    ensures ret == 0 && a.packetNum == 0 ==> Ended(0, reqObj, all, before)
    ensures ret == 0 ==> |sma.net.incoming| < |old(sma.net.incoming)|
  {
    events, all := done, news;
    ghost var incoming := sma.net.incoming;
    var src;
    ret, src, a := sma.Read(room);
    if ret < 0 {
      return;
    }
    ghost var h := sma.heard[|sma.heard| - 1];
    all := news + [h];
    OneMore(reqObj, news, before, incoming, room, h);
    var ok, taken := TakeEvents(a.data, reqObj, from, to);
    if ok {
      GatheredMore(news, h, reqObj, EVENT_SIZE, EventTaker(from, to));
    }
    events := done + taken;
    ret := if ok then 0 else -1;
  }

  /** The caller's vector. */
  class Vector<T> {
    var items: seq<T>

    constructor ()
      ensures items == []
    {
      items := [];
    }
  }

  function ArchivePacket(serial: u32, obj: u16, from: int, to: int): (p: Packet)
    ensures Sendable(p) && |p.data| <= 40
  {
    Packet(CTRL_MASTER | CTRL_NO_BROADCAST, serial, 0x00, 0, true,
      FromU16(0x0200) + FromU16(obj) + Transactions.Words([Transactions.Truncated(from), Transactions.Truncated(to)]))
  }

  /** The loop over the packets of an archive of days. */
  method GatherDays(sma: Smadata2plus, reqObj: u16, from: int, to: int)
    returns (ret: int, dayData: seq<TotalDayData>, ghost news: seq<Heard>)
    requires sma.Valid()
    modifies sma`heard, sma.net`incoming
    ensures sma.Valid() && sma.heard == old(sma.heard) + news
    ensures Ended(ret, reqObj, news, old(sma.net.incoming)) && -1 <= ret <= 0
    ensures ret == 0 ==> Collected(dayData, news, reqObj, DAY_SIZE, DayTaker(from, to))
  {
    ghost var before, heard := sma.net.incoming, sma.heard;
    var room: nat := ROOM;
    dayData, news := [], [];
    while true
      invariant sma.Valid() && sma.heard == heard + news
      invariant Going(reqObj, news, before, sma.net.incoming, room)
      invariant Collected(dayData, news, reqObj, DAY_SIZE, DayTaker(from, to))
      decreases |sma.net.incoming|
    {
      var a;
      ret, a, dayData, news := ReadDays(sma, room, reqObj, from, to, dayData, news, before, heard);
      if ret < 0 {
        return;
      }
      room := |a.data|;
      if a.packetNum == 0 {
        return;
      }
    }
  }

  method GatherEvents(sma: Smadata2plus, reqObj: u16, from: int, to: int)
    returns (ret: int, eventData: seq<EventData>, ghost news: seq<Heard>)
    requires sma.Valid()
    modifies sma`heard, sma.net`incoming
    ensures sma.Valid() && sma.heard == old(sma.heard) + news
    ensures Ended(ret, reqObj, news, old(sma.net.incoming)) && -1 <= ret <= 0
    ensures ret == 0 ==> Collected(eventData, news, reqObj, EVENT_SIZE, EventTaker(from, to))
  {
    ghost var before, heard := sma.net.incoming, sma.heard;
    var room: nat := ROOM;
    eventData, news := [], [];
    while true
      invariant sma.Valid() && sma.heard == heard + news
      invariant Going(reqObj, news, before, sma.net.incoming, room)
      invariant Collected(eventData, news, reqObj, EVENT_SIZE, EventTaker(from, to))
      decreases |sma.net.incoming|
    {
      var a;
      ret, a, eventData, news := ReadEvents(sma, room, reqObj, from, to, eventData, news, before, heard);
      if ret < 0 {
        return;
      }
      room := |a.data|;
      if a.packetNum == 0 {
        return;
      }
    }
  }

  /** What reading an archive in the k-th transaction has sent and heard when it returns. */
  ghost predicate ArchiveRead(ret: int, devices: seq<Device>, k: nat, request: Packet, obj: u16, incoming: seq<Incoming>,
      accepts: seq<bool>, sent: seq<Entry>, news: seq<Heard>)
  {
    -1 <= ret <= 0
    && if Works(devices, request, accepts) then
         sent == Transactions.InTransaction(devices, request, k) && Ended(ret, obj, news, incoming)
       else ret == -1 && sent == [] && news == []
  }

  /** The request for an archive and the loop over its packets, in an open transaction. */
  method FetchDays(sma: Smadata2plus, request: Packet, reqObj: u16, from: int, to: int)
    returns (ret: int, dayData: seq<TotalDayData>, ghost sent: seq<Entry>, ghost news: seq<Heard>)
    requires sma.Valid() && sma.transactionActive && Sendable(request)
    modifies sma`log, sma`heard, sma.net
    ensures sma.Valid() && sma.log == old(sma.log) + sent && sma.heard == old(sma.heard) + news
    ensures ArchiveRead(ret, sma.devices, |sma.begun| - 1, request, reqObj, old(sma.net.incoming), old(sma.net.accepts), sent, news)
    ensures ret == 0 ==> Collected(dayData, news, reqObj, DAY_SIZE, DayTaker(from, to))
  {
    sent, news, dayData := [], [], [];
    ret := Transactions.Ask(sma, request);
    if ret == 0 {
      sent := Transactions.InTransaction(sma.devices, request, |sma.begun| - 1);
      ret, dayData, news := GatherDays(sma, reqObj, from, to);
    }
  }

  method FetchEvents(sma: Smadata2plus, request: Packet, reqObj: u16, from: int, to: int)
    returns (ret: int, eventData: seq<EventData>, ghost sent: seq<Entry>, ghost news: seq<Heard>)
    requires sma.Valid() && sma.transactionActive && Sendable(request)
    modifies sma`log, sma`heard, sma.net
    ensures sma.Valid() && sma.log == old(sma.log) + sent && sma.heard == old(sma.heard) + news
    ensures ArchiveRead(ret, sma.devices, |sma.begun| - 1, request, reqObj, old(sma.net.incoming), old(sma.net.accepts), sent, news)
    ensures ret == 0 ==> Collected(eventData, news, reqObj, EVENT_SIZE, EventTaker(from, to))
  {
    sent, news, eventData := [], [], [];
    ret := Transactions.Ask(sma, request);
    if ret == 0 {
      sent := Transactions.InTransaction(sma.devices, request, |sma.begun| - 1);
      ret, eventData, news := GatherEvents(sma, reqObj, from, to);
    }
  }

  const DAY_OBJECT: u16 := 0x7020

  datatype UserType = USER | INSTALLER

  function EventObject(user: UserType): u16 { if user.USER? then 0x7010 else 0x7012 }

  /** Reads the daily totals of an inverter. The caller's vector gets the wanted records of all
      packets in order, or is left alone on a failure. */
  method ReadTotalDayData(sma: Smadata2plus, serial: u32, from: int, to: int, totalDayData: Vector<TotalDayData>)
    returns (ret: int, ghost sent: seq<Entry>, ghost news: seq<Heard>)
    requires sma.Idle()
    modifies sma, sma.net, totalDayData
    ensures sma.Idle() && sma.devices == old(sma.devices) && |sma.begun| == |old(sma.begun)| + 1
    ensures sma.log == old(sma.log) + sent && sma.heard == old(sma.heard) + news
    ensures ArchiveRead(ret, sma.devices, |old(sma.begun)|, ArchivePacket(serial, DAY_OBJECT, from, to), DAY_OBJECT,
      old(sma.net.incoming), old(sma.net.accepts), sent, news)
    ensures ret < 0 ==> totalDayData.items == old(totalDayData.items)
    ensures ret == 0 ==> Collected(totalDayData.items, news, DAY_OBJECT, DAY_SIZE, DayTaker(from, to))
  {
    sma.Begin();
    var dayData;
    ret, dayData, sent, news := FetchDays(sma, ArchivePacket(serial, DAY_OBJECT, from, to), DAY_OBJECT, from, to);
    if ret == 0 {
      totalDayData.items := dayData;
    }
    sma.Leave();
  }

  /** The same for events. */
  method ReadEventData(sma: Smadata2plus, serial: u32, from: int, to: int, user: UserType, eventData: Vector<EventData>)
    returns (ret: int, ghost sent: seq<Entry>, ghost news: seq<Heard>)
    requires sma.Idle()
    modifies sma, sma.net, eventData
    ensures sma.Idle() && sma.devices == old(sma.devices) && |sma.begun| == |old(sma.begun)| + 1
    ensures sma.log == old(sma.log) + sent && sma.heard == old(sma.heard) + news
    ensures ArchiveRead(ret, sma.devices, |old(sma.begun)|, ArchivePacket(serial, EventObject(user), from, to),
      EventObject(user), old(sma.net.incoming), old(sma.net.accepts), sent, news)
    ensures ret < 0 ==> eventData.items == old(eventData.items)
    ensures ret == 0 ==> Collected(eventData.items, news, EventObject(user), EVENT_SIZE, EventTaker(from, to))
  {
    sma.Begin();
    var events;
    var reqObj := EventObject(user);
    ret, events, sent, news := FetchEvents(sma, ArchivePacket(serial, reqObj, from, to), reqObj, from, to);
    if ret == 0 {
      eventData.items := events;
    }
    sma.Leave();
  }

  // ---- what the running limit costs ----

  /** The payload of a received packet. */
  function Body(h: Heard): seq<bv8> { h.bytes[HEADER_SIZE..] }

  predicate Whole(h: Heard) { h.answer.data == Body(h) }

  /** No payload is longer than the one before it, and the first one fits. */
  predicate Shrinking(news: seq<Heard>) {
    forall k {:trigger NoLonger(news, k)} :: 0 <= k < |news| ==> NoLonger(news, k)
  }

  predicate NoLonger(news: seq<Heard>, k: nat)
    requires k < |news|
  {
    |Body(news[k])| <= if k == 0 then ROOM else |Body(news[k - 1])|
  }

  lemma LastRoom(news: seq<Heard>, k: nat)
    requires Transactions.AllRoomed(ROOM, news) && k < |news|
    ensures news[k].limit == if k == 0 then ROOM else |news[k - 1].answer.data|
  {
    assert Transactions.Roomed(ROOM, news, k);
    assert k > 0 ==> news[..k][k - 1] == news[k - 1];
  }

  lemma HeardWhole(h: Heard)
    requires Understood(h)
    ensures Whole(h) <==> |Body(h)| <= h.limit
    ensures |h.answer.data| <= |Body(h)|
  {
  }

  /** Every packet is taken whole exactly when no payload is longer than the one before it: the
      length of each is the limit for the next. */
  lemma {:induction false} WholeIffShrinking(news: seq<Heard>)
    requires Transactions.AllRoomed(ROOM, news) && AllUnderstood(news)
    ensures (forall k :: 0 <= k < |news| ==> Whole(news[k])) <==> Shrinking(news)
  {
    if Shrinking(news) {
      forall k | 0 <= k < |news| ensures Whole(news[k]) {
        ShrinkingIsWhole(news, k);
      }
    } else if forall k :: 0 <= k < |news| ==> Whole(news[k]) {
      forall k | 0 <= k < |news| ensures NoLonger(news, k) {
        assert Understood(news[k]);
        HeardWhole(news[k]);
        LastRoom(news, k);
      }
    }
  }

  /** The packets in front of it are whole, so there is room for it. */
  lemma {:induction false} ShrinkingIsWhole(news: seq<Heard>, k: nat)
    requires Transactions.AllRoomed(ROOM, news) && AllUnderstood(news) && Shrinking(news) && k < |news|
    ensures Whole(news[k])
  {
    if k > 0 {
      ShrinkingIsWhole(news, k - 1);
      assert |news[k - 1].answer.data| == |Body(news[k - 1])|;
    }
    assert Understood(news[k]);
    HeardWhole(news[k]);
    LastRoom(news, k);
    assert NoLonger(news, k);
  }

  predicate AllGoodBodies(news: seq<Heard>, obj: u16) {
    forall k :: 0 <= k < |news| ==> Good(Body(news[k]), obj)
  }

  /** What the packets hold, whatever the reader takes of it. */
  function Contents<T>(news: seq<Heard>, obj: u16, size: nat, take: (seq<bv8>, nat) -> seq<T>): seq<T>
    requires AllGoodBodies(news, obj) && size > 0
  {
    if news == [] then []
    else Contents(news[..|news| - 1], obj, size, take) + Harvest(Body(news[|news| - 1]), obj, size, take)
  }

  /** `take` looks at the bytes of its record only. */
  ghost predicate Local<T(!new)>(size: nat, take: (seq<bv8>, nat) -> seq<T>) {
    forall c: seq<bv8>, d: seq<bv8>, at: nat {:trigger take(c, at), take(d, at)} ::
      |c| <= |d| && c == d[..|c|] && at + size <= |c| ==> take(c, at) == take(d, at)
  }

  lemma DayTakerLocal(from: int, to: int)
    ensures Local(DAY_SIZE, DayTaker(from, to))
  {
    forall c: seq<bv8>, d: seq<bv8>, at: nat | |c| <= |d| && c == d[..|c|] && at + DAY_SIZE <= |c|
      ensures DayTaker(from, to)(c, at) == DayTaker(from, to)(d, at) {
      SameDayTaken(c, d, at, from, to);
    }
  }

  lemma DayTaken(d: seq<bv8>, at: nat, from: int, to: int, day: TotalDayData)
    requires at + DAY_SIZE <= |d| && day == DayAt(d, at)
    ensures DayTaker(from, to)(d, at) == if WantedDay(day, from, to) then [day] else []
  {
  }

  lemma SameDayTaken(c: seq<bv8>, d: seq<bv8>, at: nat, from: int, to: int)
    requires |c| <= |d| && c == d[..|c|] && at + DAY_SIZE <= |c|
    ensures DayTaker(from, to)(c, at) == DayTaker(from, to)(d, at)
  {
    var day := DayAt(d, at);
    CutKeeps(d, c, at, 4);
    CutKeeps(d, c, at + 4, 8);
    DayTaken(c, at, from, to, day);
    DayTaken(d, at, from, to, day);
  }

  lemma {:induction false} KeptOfPrefix<T(!new)>(c: seq<bv8>, d: seq<bv8>, size: nat, n: nat, take: (seq<bv8>, nat) -> seq<T>)
    requires Local(size, take) && |c| <= |d| && c == d[..|c|] && 12 + n * size <= |c|
    ensures Kept(c, size, n, take) == Kept(d, size, n, take)
  {
    if n > 0 {
      assert 12 + (n - 1) * size + size <= |c|;
      KeptOfPrefix(c, d, size, n - 1, take);
    }
  }

  /** A good packet that was cut off is good as a whole too, with the same announcement. */
  lemma CutIsGood(c: seq<bv8>, d: seq<bv8>, obj: u16)
    requires |c| <= |d| && c == d[..|c|] && Good(c, obj)
    ensures Good(d, obj) && Entries(d) == Entries(c)
  {
    CutKeeps(d, c, 2, 2);
    CutKeeps(d, c, 4, 4);
    CutKeeps(d, c, 8, 4);
  }

  lemma HeardIsPrefix(h: Heard)
    requires Understood(h)
    ensures |h.answer.data| <= |Body(h)| && h.answer.data == Body(h)[..|h.answer.data|]
    ensures |h.answer.data| == |Body(h)| || |h.answer.data| == h.limit
  {
  }

  /** There was room for all records of a packet. */
  predicate Roomy(h: Heard, obj: u16, size: nat)
    requires Good(Body(h), obj) && size > 0
  {
    12 + Count(Body(h), obj, size) * size <= h.limit
  }

  /** No record of a packet is lost exactly when there was room for all of them. */
  lemma AllTakenIffRoomy(h: Heard, obj: u16, size: nat)
    requires Understood(h) && Good(h.answer.data, obj) && size > 0
    ensures Good(Body(h), obj) && Count(h.answer.data, obj, size) <= Count(Body(h), obj, size)
    ensures Count(h.answer.data, obj, size) == Count(Body(h), obj, size) <==> Roomy(h, obj, size)
  {
    HeardIsPrefix(h);
    CutIsGood(h.answer.data, Body(h), obj);
    var n, m := Count(h.answer.data, obj, size), Count(Body(h), obj, size);
    if n > m {
      Fits(m + 1, n, size);
    } else if n < m && Roomy(h, obj, size) {
      Fits(n + 1, m, size);
    }
  }

  /** An archive is read completely if there was room for all records of every packet. */
  lemma {:induction false} RoomyArchiveComplete<T(!new)>(news: seq<Heard>, obj: u16, size: nat, take: (seq<bv8>, nat) -> seq<T>)
    requires size > 0 && Local(size, take) && AllGood(news, obj) && AllGoodBodies(news, obj)
    requires forall k :: 0 <= k < |news| ==> Understood(news[k]) && Roomy(news[k], obj, size)
    ensures Gathered(news, obj, size, take) == Contents(news, obj, size, take)
  {
    if news != [] {
      RoomyArchiveComplete(news[..|news| - 1], obj, size, take);
      var h := news[|news| - 1];
      HeardIsPrefix(h);
      AllTakenIffRoomy(h, obj, size);
      KeptOfPrefix(h.answer.data, Body(h), size, Count(Body(h), obj, size), take);
    }
  }

  lemma EventTakerLocal(from: int, to: int)
    ensures Local(EVENT_SIZE, EventTaker(from, to))
  {
    forall c: seq<bv8>, d: seq<bv8>, at: nat | |c| <= |d| && c == d[..|c|] && at + EVENT_SIZE <= |c|
      ensures EventTaker(from, to)(c, at) == EventTaker(from, to)(d, at) {
      SameEventTaken(c, d, at, from, to);
    }
  }

  lemma EventTaken(d: seq<bv8>, at: nat, from: int, to: int, e: EventData)
    requires at + EVENT_SIZE <= |d| && e == EventAt(d, at)
    ensures EventTaker(from, to)(d, at) == if WantedEvent(e, from, to) then [e] else []
  {
  }

  lemma SameEventTaken(c: seq<bv8>, d: seq<bv8>, at: nat, from: int, to: int)
    requires |c| <= |d| && c == d[..|c|] && at + EVENT_SIZE <= |c|
    ensures EventTaker(from, to)(c, at) == EventTaker(from, to)(d, at)
  {
    var e := EventAt(d, at);
    SameEvent(c, d, at);
    EventTaken(c, at, from, to, e);
    EventTaken(d, at, from, to, e);
  }

  lemma SameEvent(c: seq<bv8>, d: seq<bv8>, at: nat)
    requires |c| <= |d| && c == d[..|c|] && at + EVENT_SIZE <= |c|
    ensures EventAt(c, at) == EventAt(d, at)
  {
    SameEventHead(c, d, at);
    SameEventTail(c, d, at);
  }

  lemma SameEventHead(c: seq<bv8>, d: seq<bv8>, at: nat)
    requires |c| <= |d| && c == d[..|c|] && at + EVENT_SIZE <= |c|
    ensures U32(c, at) == U32(d, at) && U16(c, at + 4) == U16(d, at + 4) && U16(c, at + 6) == U16(d, at + 6)
    ensures U32(c, at + 8) == U32(d, at + 8) && U16(c, at + 12) == U16(d, at + 12) && U16(c, at + 14) == U16(d, at + 14)
  {
    CutKeeps(d, c, at, 4);
    CutKeeps(d, c, at + 4, 2);
    CutKeeps(d, c, at + 6, 2);
    CutKeeps(d, c, at + 8, 4);
    CutKeeps(d, c, at + 12, 2);
    CutKeeps(d, c, at + 14, 2);
  }

  lemma SameEventTail(c: seq<bv8>, d: seq<bv8>, at: nat)
    requires |c| <= |d| && c == d[..|c|] && at + EVENT_SIZE <= |c|
    ensures U32(c, at + 16) == U32(d, at + 16) && U32(c, at + 20) == U32(d, at + 20)
    ensures U32(c, at + 24) == U32(d, at + 24) && U32(c, at + 28) == U32(d, at + 28)
    ensures U32(c, at + 32) == U32(d, at + 32) && U32(c, at + 36) == U32(d, at + 36)
    ensures U32(c, at + 40) == U32(d, at + 40) && U32(c, at + 44) == U32(d, at + 44)
  {
    CutKeeps(d, c, at + 16, 4);
    CutKeeps(d, c, at + 20, 4);
    CutKeeps(d, c, at + 24, 4);
    CutKeeps(d, c, at + 28, 4);
    CutKeeps(d, c, at + 32, 4);
    CutKeeps(d, c, at + 36, 4);
    CutKeeps(d, c, at + 40, 4);
    CutKeeps(d, c, at + 44, 4);
  }

  /** With payloads that do not grow an archive is read completely. */
  lemma ShrinkingArchiveComplete<T(!new)>(news: seq<Heard>, obj: u16, size: nat, take: (seq<bv8>, nat) -> seq<T>)
    requires Transactions.AllRoomed(ROOM, news) && AllUnderstood(news) && AllGood(news, obj) && Shrinking(news)
    requires size > 0 && Local(size, take)
    ensures AllGoodBodies(news, obj)
    ensures Gathered(news, obj, size, take) == Contents(news, obj, size, take)
  {
    WholeIffShrinking(news);
    forall k | 0 <= k < |news| ensures Understood(news[k]) && Good(Body(news[k]), obj) && Roomy(news[k], obj, size) {
      assert Understood(news[k]) && Whole(news[k]) && Good(news[k].answer.data, obj);
      AllTakenIffRoomy(news[k], obj, size);
    }
    RoomyArchiveComplete(news, obj, size, take);
  }

  /** So it is for days and for events. */
  lemma ShrinkingDaysComplete(news: seq<Heard>, from: int, to: int)
    requires Transactions.AllRoomed(ROOM, news) && AllUnderstood(news) && AllGood(news, DAY_OBJECT) && Shrinking(news)
    ensures AllGoodBodies(news, DAY_OBJECT)
    ensures Gathered(news, DAY_OBJECT, DAY_SIZE, DayTaker(from, to)) == Contents(news, DAY_OBJECT, DAY_SIZE, DayTaker(from, to))
  {
    DayTakerLocal(from, to);
    ShrinkingArchiveComplete(news, DAY_OBJECT, DAY_SIZE, DayTaker(from, to));
  }

  lemma ShrinkingEventsComplete(news: seq<Heard>, user: UserType, from: int, to: int)
    requires Transactions.AllRoomed(ROOM, news) && AllUnderstood(news) && AllGood(news, EventObject(user)) && Shrinking(news)
    ensures AllGoodBodies(news, EventObject(user))
    ensures Gathered(news, EventObject(user), EVENT_SIZE, EventTaker(from, to))
         == Contents(news, EventObject(user), EVENT_SIZE, EventTaker(from, to))
  {
    EventTakerLocal(from, to);
    ShrinkingArchiveComplete(news, EventObject(user), EVENT_SIZE, EventTaker(from, to));
  }

  // An archive that loses a record: its second packet is longer than the first.

  /** The start of a payload that announces one day. */
  predicate OneDay(d: seq<bv8>) {
    |d| >= 12 && d[2] == 0x20 && d[3] == 0x70 && forall i :: 4 <= i < 12 ==> d[i] == 0
  }

  lemma {:induction false} ZeroNumber(s: seq<bv8>, at: nat, n: nat)
    requires at + n <= |s| && forall i :: at <= i < at + n ==> s[i] == 0
    ensures Number(s, at, n) == 0
    decreases n
  {
    if n > 0 {
      ZeroNumber(s, at + 1, n - 1);
    }
  }

  lemma OneDayAnnounced(d: seq<bv8>)
    requires OneDay(d)
    ensures Good(d, DAY_OBJECT) && Entries(d) == 1
  {
    TwoBytes(d, 2);
    ZeroNumber(d, 4, 4);
    ZeroNumber(d, 8, 4);
  }

  /** A header with this packet number, below 256. */
  function NumberedHeader(num: bv8): (h: seq<bv8>)
    ensures |h| == HEADER_SIZE && h[20] == num && h[21] == 0
  {
    seq(HEADER_SIZE, i => if i == 20 then num else 0)
  }

  /** What is heard of a packet with this number and payload. */
  function Hearing(num: bv8, body: seq<bv8>, limit: nat): (h: Heard)
    ensures Understood(h) && h.limit == limit && Body(h) == body && h.answer.data == Cut(body, limit)
    ensures h.from == BtFraming.MAC_BROADCAST && h.bytes == NumberedHeader(num) + body
    ensures h.answer.packetNum == U16(h.bytes, 20) && h.bytes[20] == num && h.bytes[21] == 0
  {
    var bytes: Delivered := NumberedHeader(num) + body;
    assert bytes[HEADER_SIZE..] == body;
    Heard(BtFraming.MAC_BROADCAST, bytes, limit, Decode(bytes, limit))
  }

  lemma HeardNumbers(h: Heard)
    requires h.answer.packetNum == U16(h.bytes, 20) && h.bytes[21] == 0 && h.bytes[20] in {0, 1}
    ensures h.answer.packetNum > 0 <==> h.bytes[20] == 1
  {
    TwoBytes(h.bytes, 20);
  }

  lemma NothingTaken(d: seq<bv8>)
    requires OneDay(d) && |d| == 12
    ensures Good(d, DAY_OBJECT) && Harvest(d, DAY_OBJECT, DAY_SIZE, DayTaker(0, 0)) == []
  {
    OneDayAnnounced(d);
    CountIs(d, DAY_OBJECT, DAY_SIZE, 0);
  }

  lemma OneTaken(d: seq<bv8>)
    requires OneDay(d) && |d| == 24 && forall i :: 12 <= i < 24 ==> d[i] == 0
    ensures Good(d, DAY_OBJECT) && Harvest(d, DAY_OBJECT, DAY_SIZE, DayTaker(0, 0)) == [TotalDayData(0, 0)]
  {
    OneDayAnnounced(d);
    CountIs(d, DAY_OBJECT, DAY_SIZE, 1);
    ZeroNumber(d, 12, 4);
    ZeroNumber(d, 16, 8);
    assert DayAt(d, 12) == TotalDayData(0, 0);
    assert Kept(d, DAY_SIZE, 1, DayTaker(0, 0)) == Kept(d, DAY_SIZE, 0, DayTaker(0, 0)) + DayTaker(0, 0)(d, 12);
  }

  /** The total of one day comes in the second of two packets, behind a first one without records: the
      read works, and its result is empty. */
  lemma GrowingArchiveLosesRecords(short: seq<bv8>, long: seq<bv8>) returns (news: seq<Heard>, incoming: seq<Incoming>)
    requires OneDay(short) && |short| == 12 && long == short + seq(12, _ => 0)
    ensures incoming == [Data(BtFraming.MAC_BROADCAST, NumberedHeader(1) + short), Data(BtFraming.MAC_BROADCAST, NumberedHeader(0) + long)]
    ensures |news| == 2 && incoming == [Data(news[0].from, news[0].bytes), Data(news[1].from, news[1].bytes)]
    ensures AllUnderstood(news) && Ended(0, DAY_OBJECT, news, incoming) && news == [news[0], news[1]]
    ensures Continues(news[0], DAY_OBJECT) && !Continues(news[1], DAY_OBJECT)
    ensures AllGood(news, DAY_OBJECT) && Gathered(news, DAY_OBJECT, DAY_SIZE, DayTaker(0, 0)) == []
    ensures AllGoodBodies(news, DAY_OBJECT) && Contents(news, DAY_OBJECT, DAY_SIZE, DayTaker(0, 0)) == [TotalDayData(0, 0)]
  {
    var a, b := Hearing(1, short, ROOM), Hearing(0, long, 12);
    assert long[..12] == short;
    HeardNumbers(a);
    HeardNumbers(b);
    NothingTaken(short);
    OneTaken(long);
    news, incoming := [] + [a] + [b], [Data(a.from, a.bytes), Data(b.from, b.bytes)];
    GatheredMore([], a, DAY_OBJECT, DAY_SIZE, DayTaker(0, 0));
    GatheredMore([a], b, DAY_OBJECT, DAY_SIZE, DayTaker(0, 0));
    TwoBodies(a, b, short, long);
    EndsAfterTwo(a, b, incoming);
    assert news == [a, b] && [] + [a] == [a] && [a] + [b] == [a, b];
  }

  lemma TwoBodies(a: Heard, b: Heard, short: seq<bv8>, long: seq<bv8>)
    requires Body(a) == short && Body(b) == long && Good(short, DAY_OBJECT) && Good(long, DAY_OBJECT)
    ensures AllGoodBodies([a, b], DAY_OBJECT)
    ensures Contents([a, b], DAY_OBJECT, DAY_SIZE, DayTaker(0, 0))
         == Harvest(short, DAY_OBJECT, DAY_SIZE, DayTaker(0, 0)) + Harvest(long, DAY_OBJECT, DAY_SIZE, DayTaker(0, 0))
  {
    TwoContents([a, b], a, b, DAY_OBJECT, DAY_SIZE, DayTaker(0, 0));
  }

  lemma TwoContents<T>(news: seq<Heard>, a: Heard, b: Heard, obj: u16, size: nat, take: (seq<bv8>, nat) -> seq<T>)
    requires Good(Body(a), obj) && Good(Body(b), obj) && size > 0 && news == [a, b]
    ensures AllGoodBodies(news, obj)
    ensures Contents(news, obj, size, take) == Harvest(Body(a), obj, size, take) + Harvest(Body(b), obj, size, take)
  {
    OneContent([a], a, obj, size, take);
    assert news[..1] == [a];
  }

  lemma OneContent<T>(news: seq<Heard>, a: Heard, obj: u16, size: nat, take: (seq<bv8>, nat) -> seq<T>)
    requires Good(Body(a), obj) && size > 0 && news == [a]
    ensures AllGoodBodies(news, obj)
    ensures Contents(news, obj, size, take) == Harvest(Body(a), obj, size, take)
  {
    assert news[..0] == [];
  }

  lemma EndsAfterTwo(a: Heard, b: Heard, incoming: seq<Incoming>)
    requires incoming == [Data(a.from, a.bytes), Data(b.from, b.bytes)]
    requires a.limit == ROOM && b.limit == |a.answer.data|
    requires Continues(a, DAY_OBJECT) && Good(b.answer.data, DAY_OBJECT) && b.answer.packetNum == 0
    ensures Ended(0, DAY_OBJECT, [a, b], incoming) && Continues(a, DAY_OBJECT) && !Continues(b, DAY_OBJECT)
  {
    Transactions.RoomedMore(ROOM, [], a);
    Transactions.RoomedMore(ROOM, [a], b);
    assert [] + [a] == [a] && [a] + [b] == [a, b] && [a, b][..1] == [a];
  }

  /** The same payloads are heard the same way. */
  lemma HeardAlike(h: Heard, g: Heard)
    requires Understood(h) && Understood(g) && h.from == g.from && h.bytes == g.bytes && h.limit == g.limit
    ensures h == g
  {
  }

  /** There is only one way for a read to end. */
  lemma OneEnd(ret: int, news: seq<Heard>, a: Heard, b: Heard, incoming: seq<Incoming>)
    requires incoming == [Data(a.from, a.bytes), Data(b.from, b.bytes)]
    requires Ended(0, DAY_OBJECT, [a, b], incoming) && AllUnderstood([a, b])
    requires Continues(a, DAY_OBJECT) && !Continues(b, DAY_OBJECT)
    requires Ended(ret, DAY_OBJECT, news, incoming) && AllUnderstood(news)
    ensures ret == 0 && news == [a, b]
  {
    var both := [a, b];
    assert Understood(both[0]) && Understood(both[1]);
    assert Transactions.Roomed(ROOM, both, 0) && Transactions.Roomed(ROOM, both, 1);
    assert both[..0] == [] && both[..1] == [a];
    if news != [] {
      assert Understood(news[0]) && Transactions.Roomed(ROOM, news, 0) && news[..0] == [];
      HeardAlike(news[0], a);
      if |news| == 2 {
        assert Understood(news[1]) && Transactions.Roomed(ROOM, news, 1) && news[..1] == [a];
        HeardAlike(news[1], b);
        assert news == both;
      }
    }
  }

  /** Reading such an archive: it works, and the caller's vector stays empty although the second packet
      holds a day that was asked for. */
  method ReadGrowingArchive() returns (ret: int, totalDayData: Vector<TotalDayData>, ghost news: seq<Heard>)
    ensures ret == 0 && totalDayData.items == []
    ensures AllGoodBodies(news, DAY_OBJECT) && Contents(news, DAY_OBJECT, DAY_SIZE, DayTaker(0, 0)) == [TotalDayData(0, 0)]
  {
    var short: seq<bv8> := [0x00, 0x02, 0x20, 0x70, 0, 0, 0, 0, 0, 0, 0, 0];
    var long := short + seq(12, _ => 0);
    ret, totalDayData, news := ReadTwo(short, long);
  }

  method ReadTwo(short: seq<bv8>, long: seq<bv8>) returns (ret: int, totalDayData: Vector<TotalDayData>, ghost news: seq<Heard>)
    requires OneDay(short) && |short| == 12 && long == short + seq(12, _ => 0)
    ensures ret == 0 && totalDayData.items == []
    ensures AllGoodBodies(news, DAY_OBJECT) && Contents(news, DAY_OBJECT, DAY_SIZE, DayTaker(0, 0)) == [TotalDayData(0, 0)]
  {
    var coming := [Data(BtFraming.MAC_BROADCAST, NumberedHeader(1) + short), Data(BtFraming.MAC_BROADCAST, NumberedHeader(0) + long)];
    ghost var expected, incoming := GrowingArchiveLosesRecords(short, long);
    ret, totalDayData, news := ReadComing(coming);
    OneEnd(ret, news, expected[0], expected[1], coming);
  }

  /** A read in a new session to which these packets come. */
  method ReadComing(coming: seq<Incoming>) returns (ret: int, totalDayData: Vector<TotalDayData>, ghost news: seq<Heard>)
    ensures Ended(ret, DAY_OBJECT, news, coming) && AllUnderstood(news)
    ensures ret == 0 ==> Collected(totalDayData.items, news, DAY_OBJECT, DAY_SIZE, DayTaker(0, 0))
  {
    var net := new Port(coming, []);
    var sma := new Smadata2plus(net);
    totalDayData := new Vector<TotalDayData>();
    ghost var sent;
    ret, sent, news := ReadTotalDayData(sma, SERIAL_BROADCAST, 0, 0, totalDayData);
    assert sma.heard == news;
  }
}
