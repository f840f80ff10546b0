/** The archive readers of src/smadata2plus.cpp from the bytes of the packets to the records a caller gets. */
module ArchiveBytes {
  import opened ByteOrder
  import opened Smadata2plus
  import opened Archive
  import opened Common
  import opened Bytes
  import Transactions
  import BtFraming

  // ---- one packet ----

  /** A packet is good exactly when it has a head, is for the object, and announces a positive number of
      entries, counted on 32 bits; then that is their number. */
  lemma GoodIff(d: seq<bv8>, obj: u16)
    ensures Good(d, obj) <==>
      |d| >= 12 && U16(d, 2) == obj && 1 <= (U32(d, 8) - U32(d, 4) + 1) % 0x1_0000_0000 < 0x8000_0000
    ensures Good(d, obj) ==> Entries(d) == (U32(d, 8) - U32(d, 4) + 1) % 0x1_0000_0000
  {
  }

  /** A payload with a head for the object and the range, and these parts of equal size behind it. */
  predicate Holds(d: seq<bv8>, obj: u16, size: nat, parts: seq<seq<bv8>>) {
    && |d| == 12 + |parts| * size && U16(d, 2) == obj
    && 1 <= |parts| < 0x8000_0000 && (U32(d, 8) - U32(d, 4) + 1) % 0x1_0000_0000 == |parts|
    && forall k {:trigger parts[k]} :: 0 <= k < |parts| ==> |parts[k]| == size && At(d, 12 + k * size, parts[k])
  }

  lemma HoldsAll(d: seq<bv8>, obj: u16, size: nat, parts: seq<seq<bv8>>)
    requires Holds(d, obj, size, parts) && size > 0
    ensures Good(d, obj) && Count(d, obj, size) == |parts|
  {
    GoodIff(d, obj);
    Larger(|parts|, size);
    CountIs(d, obj, size, |parts|);
  }

  lemma Larger(n: nat, size: nat)
    requires size > 0
    ensures n * size < (n + 1) * size
  {
  }

  /** What is kept of the parts, if `take` makes the k-th item of the k-th part and keeps it or not. */
  lemma {:induction false} KeptIs<T>(d: seq<bv8>, size: nat, take: (seq<bv8>, nat) -> seq<T>, items: seq<T>, keep: T -> bool, n: nat)
    requires n <= |items|
    requires forall k {:trigger items[k]} :: 0 <= k < n ==> take(d, 12 + k * size) == if keep(items[k]) then [items[k]] else []
    ensures Kept(d, size, n, take) == Filter(keep, items[..n])
    decreases n
  {
    if n > 0 {
      KeptIs(d, size, take, items, keep, n - 1);
      assert items[..n][..n - 1] == items[..n - 1];
      assert items[n - 1] == items[..n][n - 1];
    }
  }

  /** A payload made of them. The first two bytes are not looked at. */
  function Payload(a: bv8, b: bv8, obj: u16, first: u32, last: u32, parts: seq<seq<bv8>>): seq<bv8> {
    [a, b] + FromU16(obj) + (FromU32(first) + FromU32(last)) + Flat(parts)
  }

  lemma PayloadParts(a: bv8, b: bv8, one: seq<bv8>, two: seq<bv8>, three: seq<bv8>, all: seq<bv8>, d: seq<bv8>)
    requires |one| == 2 && |two| == 4 && |three| == 4 && d == [a, b] + one + (two + three) + all
    ensures At(d, 2, one) && At(d, 4, two) && At(d, 8, three) && At(d, 12, all) && |d| == 12 + |all|
  {
  }

  /** It holds them. */
  lemma PayloadHolds(a: bv8, b: bv8, obj: u16, first: u32, last: u32, size: nat, parts: seq<seq<bv8>>, d: seq<bv8>)
    requires (forall k :: 0 <= k < |parts| ==> |parts[k]| == size) && 1 <= |parts| < 0x8000_0000
    requires d == Payload(a, b, obj, first, last, parts) && (last - first + 1) % 0x1_0000_0000 == |parts|
    ensures Holds(d, obj, size, parts)
  {
    PayloadHead(a, b, obj, first, last, Flat(parts), d);
    PartsHeld(d, obj, size, parts);
  }

  lemma PartsHeld(d: seq<bv8>, obj: u16, size: nat, parts: seq<seq<bv8>>)
    requires (forall k :: 0 <= k < |parts| ==> |parts[k]| == size) && 1 <= |parts| < 0x8000_0000
    requires |d| == 12 + |Flat(parts)| && At(d, 12, Flat(parts))
    requires U16(d, 2) == obj && (U32(d, 8) - U32(d, 4) + 1) % 0x1_0000_0000 == |parts|
    ensures Holds(d, obj, size, parts)
  {
    PartsLength(size, parts);
    forall k | 0 <= k < |parts| ensures At(d, 12 + k * size, parts[k]) {
      PartAt(size, d, 12, parts, k);
    }
  }

  lemma PayloadHead(a: bv8, b: bv8, obj: u16, first: u32, last: u32, all: seq<bv8>, d: seq<bv8>)
    requires d == [a, b] + FromU16(obj) + (FromU32(first) + FromU32(last)) + all
    ensures |d| == 12 + |all| && U16(d, 2) == obj && U32(d, 4) == first && U32(d, 8) == last && At(d, 12, all)
  {
    PayloadParts(a, b, FromU16(obj), FromU32(first), FromU32(last), all, d);
    ReadU16(d, 2, obj);
    ReadU32(d, 4, first);
    ReadU32(d, 8, last);
  }

  // ---- days ----

  /** The bytes of a day: its time and its total. */
  function DayBytes(day: TotalDayData): (s: seq<bv8>)
    ensures |s| == 12
  {
    FromU32(day.time % 0x1_0000_0000) + FromU64(day.totalYield)
  }

  predicate Timely(time: int) { -0x8000_0000 <= time < 0x8000_0000 }

  lemma DayReturns(d: seq<bv8>, at: nat, day: TotalDayData)
    requires Timely(day.time) && At(d, at, DayBytes(day))
    ensures at + DAY_SIZE <= |d| && DayAt(d, at) == day
  {
    AtParts(d, at, FromU32(day.time % 0x1_0000_0000), FromU64(day.totalYield));
    ReadU32(d, at, day.time % 0x1_0000_0000);
    ReadU64(d, at + 4, day.totalYield);
    SignedBack(day.time);
  }

  /** The days asked for: not before `from`, not after `to`, and with a total. */
  function Asked(from: int, to: int): TotalDayData -> bool {
    (day: TotalDayData) => from <= day.time <= to && day.totalYield != 0xffff_ffff_ffff_ffff
  }

  predicate HoldsDays(d: seq<bv8>, days: seq<TotalDayData>) {
    (forall k {:trigger days[k]} :: 0 <= k < |days| ==> Timely(days[k].time)) && Holds(d, 0x7020, 12, Each(DayBytes, days))
  }

  lemma DayTakenAt(d: seq<bv8>, days: seq<TotalDayData>, k: nat, from: int, to: int)
    requires HoldsDays(d, days) && k < |days|
    ensures DayTaker(from, to)(d, 12 + k * 12) == if Asked(from, to)(days[k]) then [days[k]] else []
  {
    assert Each(DayBytes, days)[k] == DayBytes(days[k]);
    DayTakenHere(d, 12 + k * 12, days[k], from, to);
  }

  lemma DayTakenHere(d: seq<bv8>, at: nat, day: TotalDayData, from: int, to: int)
    requires Timely(day.time) && At(d, at, DayBytes(day))
    ensures DayTaker(from, to)(d, at) == if Asked(from, to)(day) then [day] else []
  {
    DayReturns(d, at, day);
    DayTaken(d, at, from, to, day);
  }

  lemma AskedIs(from: int, to: int, day: TotalDayData)
    ensures Asked(from, to)(day) <==> from <= day.time && day.time <= to && day.totalYield != 0xffff_ffff_ffff_ffff
  {
  }

  /** What is taken of a packet of days are the days asked for. */
  lemma DaysTaken(d: seq<bv8>, days: seq<TotalDayData>, from: int, to: int)
    requires HoldsDays(d, days)
    ensures Good(d, DAY_OBJECT) && Harvest(d, DAY_OBJECT, DAY_SIZE, DayTaker(from, to)) == Filter(Asked(from, to), days)
  {
    HoldsAll(d, 0x7020, 12, Each(DayBytes, days));
    forall k | 0 <= k < |days|
      ensures DayTaker(from, to)(d, 12 + k * DAY_SIZE) == if Asked(from, to)(days[k]) then [days[k]] else [] {
      DayTakenAt(d, days, k, from, to);
    }
    KeptIs(d, DAY_SIZE, DayTaker(from, to), days, Asked(from, to), |days|);
    assert days[..|days|] == days;
  }

  /** The payload made of any list of days is read back as the days asked for. */
  method ReadDaysBack(d: seq<bv8>, from: int, to: int, ghost a: bv8, ghost b: bv8, ghost first: u32, ghost last: u32,
      ghost ds: seq<TotalDayData>)
    returns (ok: bool, days: seq<TotalDayData>)
    requires d == Payload(a, b, 0x7020, first, last, Each(DayBytes, ds))
    requires 1 <= |ds| < 0x8000_0000 && (last - first + 1) % 0x1_0000_0000 == |ds|
    requires forall k {:trigger ds[k]} :: 0 <= k < |ds| ==> Timely(ds[k].time)
    ensures ok && days == Filter(Asked(from, to), ds)
  {
    PayloadHolds(a, b, 0x7020, first, last, 12, Each(DayBytes, ds), d);
    DaysTaken(d, ds, from, to);
    ok, days := TakeDays(d, 0x7020, from, to);
  }

  /** For instance the day 1309401344 with total 10000, of index 0. */
  method ReadOneDay() returns (ok: bool, days: seq<TotalDayData>)
    ensures ok && days == [TotalDayData(1309401344, 10000)]
  {
    var d: seq<bv8> := [0x00, 0x02, 0x20, 0x70, 0, 0, 0, 0, 0, 0, 0, 0,
                        0x00, 0xe1, 0x0b, 0x4e, 0x10, 0x27, 0x00, 0x00, 0x00, 0x00, 0x00, 0x00];
    ghost var ds := [TotalDayData(1309401344, 10000)];
    OneDayHeld(d, ds);
    DaysTaken(d, ds, 0x4e00_0000, 0x4f00_0000);
    AskedIs(0x4e00_0000, 0x4f00_0000, ds[0]);
    FilterOne(Asked(0x4e00_0000, 0x4f00_0000), ds[0]);
    ok, days := TakeDays(d, 0x7020, 0x4e00_0000, 0x4f00_0000);
  }

  lemma FilterOne<T>(keep: T -> bool, x: T)
    requires keep(x)
    ensures Filter(keep, [x]) == [x]
  {
    assert [x][..0] == [];
  }

  lemma FourBytes(s: seq<bv8>, at: nat, n: nat)
    requires at + 4 <= |s|
    requires n == Value(s[at]) + 0x100 * Value(s[at + 1]) + 0x1_0000 * Value(s[at + 2]) + 0x100_0000 * Value(s[at + 3])
    ensures U32(s, at) == n
  {
    TwoWords(s, at);
    TwoBytes(s, at);
    TwoBytes(s, at + 2);
  }

  lemma HeldDay(d: seq<bv8>, day: TotalDayData, ds: seq<TotalDayData>)
    requires |d| == 24 && U16(d, 2) == 0x7020 && U32(d, 4) == 0 && U32(d, 8) == 0 && ds == [day]
    requires Timely(day.time) && U32(d, 12) == day.time % 0x1_0000_0000 && U64(d, 16) == day.totalYield
    ensures HoldsDays(d, ds)
  {
    StoredDay(d, day);
    assert Each(DayBytes, ds)[0] == DayBytes(day);
  }

  lemma StoredDay(d: seq<bv8>, day: TotalDayData)
    requires |d| == 24 && U32(d, 12) == day.time % 0x1_0000_0000 && U64(d, 16) == day.totalYield
    ensures At(d, 12, DayBytes(day))
  {
    StoreU32(d, 12);
    StoreU64(d, 16);
    AtJoin(d, 12, FromU32(day.time % 0x1_0000_0000), FromU64(day.totalYield));
  }

  lemma OneDayHead(d: seq<bv8>)
    requires |d| == 24 && d[2] == 0x20 && d[3] == 0x70 && forall i :: 4 <= i < 12 ==> d[i] == 0
    ensures U16(d, 2) == 0x7020 && U32(d, 4) == 0 && U32(d, 8) == 0
  {
    TwoBytes(d, 2);
    FourBytes(d, 4, 0);
    FourBytes(d, 8, 0);
  }

  lemma OneDayRecord(d: seq<bv8>)
    requires |d| == 24 && d[12] == 0x00 && d[13] == 0xe1 && d[14] == 0x0b && d[15] == 0x4e
    requires d[16] == 0x10 && d[17] == 0x27 && forall i :: 18 <= i < 24 ==> d[i] == 0
    ensures U32(d, 12) == 1309401344 && U64(d, 16) == 10000
  {
    FourBytes(d, 12, 1309401344);
    FourBytes(d, 16, 10000);
    FourBytes(d, 20, 0);
    TwoLongs(d, 16);
  }

  lemma OneDayHeld(d: seq<bv8>, ds: seq<TotalDayData>)
    requires d == [0x00, 0x02, 0x20, 0x70, 0, 0, 0, 0, 0, 0, 0, 0,
                   0x00, 0xe1, 0x0b, 0x4e, 0x10, 0x27, 0x00, 0x00, 0x00, 0x00, 0x00, 0x00]
    requires ds == [TotalDayData(1309401344, 10000)]
    ensures HoldsDays(d, ds)
  {
    OneDayHead(d);
    OneDayRecord(d);
    HeldDay(d, TotalDayData(1309401344, 10000), ds);
  }

  // ---- events ----

  /** The bytes of an event: its fields one behind the other. */
  function EventBytes(e: EventData): (s: seq<bv8>)
    ensures |s| == 48
  {
    EventFront(e) + EventBack(e)
  }

  function EventFront(e: EventData): (s: seq<bv8>)
    ensures |s| == 16
  {
    FromU32(e.time % 0x1_0000_0000) + (FromU16(e.entryId) + (FromU16(e.sysId) + (FromU32(e.serial)
      + (FromU16(e.eventCode) + FromU16(e.eventFlags)))))
  }

  function EventBack(e: EventData): (s: seq<bv8>)
    ensures |s| == 32
  {
    FromU32(e.group) + (FromU32(e.unknown) + (FromU32(e.tag) + (FromU32(e.counter) + (FromU32(e.dtChange)
      + (FromU32(e.parameter) + (FromU32(e.newVal) + FromU32(e.oldVal)))))))
  }

  lemma FrontReturns(d: seq<bv8>, at: nat, a: u32, b: u16, c: u16, x: u32, y: u16, z: u16)
    requires At(d, at, FromU32(a) + (FromU16(b) + (FromU16(c) + (FromU32(x) + (FromU16(y) + FromU16(z))))))
    ensures at + 16 <= |d| && U32(d, at) == a && U16(d, at + 4) == b && U16(d, at + 6) == c
    ensures U32(d, at + 8) == x && U16(d, at + 12) == y && U16(d, at + 14) == z
  {
    AtParts(d, at, FromU32(a), FromU16(b) + (FromU16(c) + (FromU32(x) + (FromU16(y) + FromU16(z)))));
    AtParts(d, at + 4, FromU16(b), FromU16(c) + (FromU32(x) + (FromU16(y) + FromU16(z))));
    AtParts(d, at + 6, FromU16(c), FromU32(x) + (FromU16(y) + FromU16(z)));
    AtParts(d, at + 8, FromU32(x), FromU16(y) + FromU16(z));
    AtParts(d, at + 12, FromU16(y), FromU16(z));
    ReadU32(d, at, a);
    ReadU16(d, at + 4, b);
    ReadU16(d, at + 6, c);
    ReadU32(d, at + 8, x);
    ReadU16(d, at + 12, y);
    ReadU16(d, at + 14, z);
  }

  lemma FourReturn(d: seq<bv8>, at: nat, a: u32, b: u32, c: u32, e: u32, more: seq<bv8>)
    requires At(d, at, FromU32(a) + (FromU32(b) + (FromU32(c) + (FromU32(e) + more))))
    ensures at + 16 + |more| <= |d| && U32(d, at) == a && U32(d, at + 4) == b && U32(d, at + 8) == c && U32(d, at + 12) == e
    ensures At(d, at + 16, more)
  {
    AtParts(d, at, FromU32(a), FromU32(b) + (FromU32(c) + (FromU32(e) + more)));
    AtParts(d, at + 4, FromU32(b), FromU32(c) + (FromU32(e) + more));
    AtParts(d, at + 8, FromU32(c), FromU32(e) + more);
    AtParts(d, at + 12, FromU32(e), more);
    ReadU32(d, at, a);
    ReadU32(d, at + 4, b);
    ReadU32(d, at + 8, c);
    ReadU32(d, at + 12, e);
  }

  lemma EventReturns(d: seq<bv8>, at: nat, e: EventData)
    requires Timely(e.time) && At(d, at, EventBytes(e))
    ensures at + EVENT_SIZE <= |d| && EventAt(d, at) == e
  {
    AtParts(d, at, EventFront(e), EventBack(e));
    FrontReturns(d, at, e.time % 0x1_0000_0000, e.entryId, e.sysId, e.serial, e.eventCode, e.eventFlags);
    SignedBack(e.time);
    var last := FromU32(e.dtChange) + (FromU32(e.parameter) + (FromU32(e.newVal) + FromU32(e.oldVal)));
    FourReturn(d, at + 16, e.group, e.unknown, e.tag, e.counter, last);
    assert FromU32(e.oldVal) + [] == FromU32(e.oldVal);
    FourReturn(d, at + 32, e.dtChange, e.parameter, e.newVal, e.oldVal, []);
  }

  /** The events asked for: not before `from` and not after `to`. */
  function Within(from: int, to: int): EventData -> bool {
    (e: EventData) => from <= e.time <= to
  }

  lemma WithinIs(from: int, to: int, e: EventData)
    ensures Within(from, to)(e) <==> from <= e.time && e.time <= to
  {
  }

  predicate HoldsEvents(d: seq<bv8>, obj: u16, events: seq<EventData>) {
    (forall k {:trigger events[k]} :: 0 <= k < |events| ==> Timely(events[k].time)) && Holds(d, obj, 48, Each(EventBytes, events))
  }

  lemma EventTakenAt(d: seq<bv8>, obj: u16, events: seq<EventData>, k: nat, from: int, to: int)
    requires HoldsEvents(d, obj, events) && k < |events|
    ensures EventTaker(from, to)(d, 12 + k * 48) == if Within(from, to)(events[k]) then [events[k]] else []
  {
    assert Each(EventBytes, events)[k] == EventBytes(events[k]);
    EventTakenHere(d, 12 + k * 48, events[k], from, to);
  }

  lemma EventTakenHere(d: seq<bv8>, at: nat, e: EventData, from: int, to: int)
    requires Timely(e.time) && At(d, at, EventBytes(e))
    ensures EventTaker(from, to)(d, at) == if Within(from, to)(e) then [e] else []
  {
    EventReturns(d, at, e);
    EventTaken(d, at, from, to, e);
  }

  /** What is taken of a packet of events are the events asked for. */
  lemma EventsTaken(d: seq<bv8>, obj: u16, events: seq<EventData>, from: int, to: int)
    requires HoldsEvents(d, obj, events)
    ensures Good(d, obj) && Harvest(d, obj, EVENT_SIZE, EventTaker(from, to)) == Filter(Within(from, to), events)
  {
    HoldsAll(d, obj, 48, Each(EventBytes, events));
    forall k | 0 <= k < |events|
      ensures EventTaker(from, to)(d, 12 + k * EVENT_SIZE) == if Within(from, to)(events[k]) then [events[k]] else [] {
      EventTakenAt(d, obj, events, k, from, to);
    }
    KeptIs(d, EVENT_SIZE, EventTaker(from, to), events, Within(from, to), |events|);
    assert events[..|events|] == events;
  }

  /** The payload made of any list of events is read back as the events asked for. */
  method ReadEventsBack(d: seq<bv8>, obj: u16, from: int, to: int, ghost a: bv8, ghost b: bv8, ghost first: u32, ghost last: u32,
      ghost es: seq<EventData>)
    returns (ok: bool, events: seq<EventData>)
    requires d == Payload(a, b, obj, first, last, Each(EventBytes, es))
    requires 1 <= |es| < 0x8000_0000 && (last - first + 1) % 0x1_0000_0000 == |es|
    requires forall k {:trigger es[k]} :: 0 <= k < |es| ==> Timely(es[k].time)
    ensures ok && events == Filter(Within(from, to), es)
  {
    PayloadHolds(a, b, obj, first, last, 48, Each(EventBytes, es), d);
    EventsTaken(d, obj, es, from, to);
    ok, events := TakeEvents(d, obj, from, to);
  }

  /** For instance the record of the bytes 1 to 48. */
  method ReadOneEvent() returns (e: EventData)
    ensures e == EventData(0x0403_0201, 0x0605, 0x0807, 0x0c0b_0a09, 0x0e0d, 0x100f, 0x1413_1211, 0x1817_1615, 0x1c1b_1a19,
      0x201f_1e1d, 0x2423_2221, 0x2827_2625, 0x2c2b_2a29, 0x302f_2e2d)
  {
    var d := seq(48, i requires 0 <= i < 48 => ToByte(i + 1));
    forall i | 0 <= i < 48 ensures Value(d[i]) == i + 1 {
      ByteValue(i + 1);
    }
    CountingFront(d);
    CountingBack(d);
    e := ParseEventData(d, 0);
  }

  lemma CountingFront(d: seq<bv8>)
    requires |d| == 48 && forall i :: 0 <= i < 48 ==> Value(d[i]) == i + 1
    ensures U32(d, 0) == 0x0403_0201 && U16(d, 4) == 0x0605 && U16(d, 6) == 0x0807
    ensures U32(d, 8) == 0x0c0b_0a09 && U16(d, 12) == 0x0e0d && U16(d, 14) == 0x100f
  {
    FourBytes(d, 0, 0x0403_0201);
    TwoBytes(d, 4);
    TwoBytes(d, 6);
    FourBytes(d, 8, 0x0c0b_0a09);
    TwoBytes(d, 12);
    TwoBytes(d, 14);
  }

  lemma CountingBack(d: seq<bv8>)
    requires |d| == 48 && forall i :: 0 <= i < 48 ==> Value(d[i]) == i + 1
    ensures U32(d, 16) == 0x1413_1211 && U32(d, 20) == 0x1817_1615 && U32(d, 24) == 0x1c1b_1a19 && U32(d, 28) == 0x201f_1e1d
    ensures U32(d, 32) == 0x2423_2221 && U32(d, 36) == 0x2827_2625 && U32(d, 40) == 0x2c2b_2a29 && U32(d, 44) == 0x302f_2e2d
  {
    FourBytes(d, 16, 0x1413_1211);
    FourBytes(d, 20, 0x1817_1615);
    FourBytes(d, 24, 0x1c1b_1a19);
    FourBytes(d, 28, 0x201f_1e1d);
    FourBytes(d, 32, 0x2423_2221);
    FourBytes(d, 36, 0x2827_2625);
    FourBytes(d, 40, 0x2c2b_2a29);
    FourBytes(d, 44, 0x302f_2e2d);
  }

  // ---- a whole archive ----

  /** The k-th of `n` packets: it is good, its number counts down to 0 at the last, and its payload is no longer
      than the one before it, or than 512 bytes. */
  predicate InSeries(incoming: seq<Incoming>, n: nat, k: nat, obj: u16)
    requires k < n <= |incoming|
  {
    && incoming[k].Data? && U16(incoming[k].bytes, 20) == n - 1 - k && Good(incoming[k].bytes[24..], obj)
    && |incoming[k].bytes| - 24 <= if k > 0 && incoming[k - 1].Data? then |incoming[k - 1].bytes| - 24 else 512
  }

  predicate Series(incoming: seq<Incoming>, n: nat, obj: u16) {
    0 < n <= |incoming| && forall k {:trigger InSeries(incoming, n, k, obj)} :: 0 <= k < n ==> InSeries(incoming, n, k, obj)
  }

  /** A packet of the series that was read is taken whole, and more are expected behind all but the last. */
  lemma {:induction false} ReadOfSeries(news: seq<Heard>, incoming: seq<Incoming>, n: nat, k: nat, obj: u16)
    requires Series(incoming, n, obj) && FromPort(news, incoming) && Transactions.AllRoomed(ROOM, news) && AllUnderstood(news)
    requires k < |news| && k < n
    ensures Whole(news[k]) && Body(news[k]) == incoming[k].bytes[24..] && Good(news[k].answer.data, obj)
    ensures Continues(news[k], obj) <==> k < n - 1
  {
    assert InSeries(incoming, n, k, obj) && Understood(news[k]);
    if k > 0 {
      ReadOfSeries(news, incoming, n, k - 1, obj);
      assert InSeries(incoming, n, k - 1, obj);
    }
    LastRoom(news, k);
    HeardWhole(news[k]);
  }

  /** Reading works, and reads the series and nothing behind it. */
  lemma SeriesIsRead(ret: int, news: seq<Heard>, incoming: seq<Incoming>, n: nat, obj: u16)
    requires Series(incoming, n, obj) && Ended(ret, obj, news, incoming) && AllUnderstood(news)
    ensures ret == 0 && |news| == n
  {
    if |news| < n {
      assert InSeries(incoming, n, |news|, obj);
      if news != [] {
        ReadOfSeries(news, incoming, n, |news| - 1, obj);
      }
    } else {
      ReadOfSeries(news, incoming, n, n - 1, obj);
    }
  }

  /** If the k-th packet contributes what is kept of the k-th list, all together contribute what is kept of all. */
  lemma {:induction false} GatheredIs<T>(news: seq<Heard>, obj: u16, size: nat, take: (seq<bv8>, nat) -> seq<T>, lists: seq<seq<T>>,
      keep: T -> bool)
    requires AllGood(news, obj) && size > 0 && |lists| == |news|
    requires forall k {:trigger lists[k]} :: 0 <= k < |news| ==> Harvest(news[k].answer.data, obj, size, take) == Filter(keep, lists[k])
    ensures Gathered(news, obj, size, take) == Filter(keep, Concat(lists))
  {
    if news != [] {
      var n := |news| - 1;
      assert forall k {:trigger lists[..n][k]} :: 0 <= k < n ==> lists[..n][k] == lists[k];
      GatheredIs(news[..n], obj, size, take, lists[..n], keep);
      assert lists[n] == lists[|lists| - 1];
      FilterConcat(keep, Concat(lists[..n]), lists[n]);
    }
  }

  /** The packets of an archive of days, with these days in them. */
  predicate DaysCome(incoming: seq<Incoming>, lists: seq<seq<TotalDayData>>) {
    && Series(incoming, |lists|, 0x7020)
    && forall k {:trigger lists[k]} :: 0 <= k < |lists| ==> incoming[k].Data? && HoldsDays(incoming[k].bytes[24..], lists[k])
  }

  lemma DaysGathered(ret: int, news: seq<Heard>, incoming: seq<Incoming>, lists: seq<seq<TotalDayData>>, from: int, to: int)
    requires DaysCome(incoming, lists) && Ended(ret, DAY_OBJECT, news, incoming) && AllUnderstood(news)
    ensures ret == 0 && AllGood(news, DAY_OBJECT)
    ensures Gathered(news, DAY_OBJECT, DAY_SIZE, DayTaker(from, to)) == Filter(Asked(from, to), Concat(lists))
  {
    SeriesIsRead(ret, news, incoming, |lists|, 0x7020);
    forall k | 0 <= k < |news|
      ensures Good(news[k].answer.data, DAY_OBJECT)
      ensures Harvest(news[k].answer.data, DAY_OBJECT, DAY_SIZE, DayTaker(from, to)) == Filter(Asked(from, to), lists[k]) {
      ReadOfSeries(news, incoming, |lists|, k, 0x7020);
      DaysTaken(incoming[k].bytes[24..], lists[k], from, to);
    }
    GatheredIs(news, DAY_OBJECT, DAY_SIZE, DayTaker(from, to), lists, Asked(from, to));
  }

  /** Reading an archive of days: if the request goes out and these packets come, the caller's vector holds the
      days asked for, of all packets and in order. */
  method ReadDaysArchive(sma: Smadata2plus, serial: u32, from: int, to: int, vector: Vector<TotalDayData>,
      ghost lists: seq<seq<TotalDayData>>)
    returns (ret: int)
    requires sma.Idle() && DaysCome(sma.net.incoming, lists)
    requires serial == 0xffff_ffff || exists i :: 0 <= i < |sma.devices| && sma.devices[i].serial == serial
    requires BtFraming.Accepted(sma.net.accepts)
    modifies sma, sma.net, vector
    ensures sma.Idle() && ret == 0 && vector.items == Filter(Asked(from, to), Concat(lists))
  {
    ghost var heard, incoming := sma.heard, sma.net.incoming;
    TargetIs(sma.devices, serial);
    ghost var sent, news;
    ret, sent, news := ReadTotalDayData(sma, serial, from, to, vector);
    NewsUnderstood(heard, news);
    DaysGathered(ret, news, incoming, lists, from, to);
  }

  predicate EventsCome(incoming: seq<Incoming>, obj: u16, lists: seq<seq<EventData>>) {
    && Series(incoming, |lists|, obj)
    && forall k {:trigger lists[k]} :: 0 <= k < |lists| ==> incoming[k].Data? && HoldsEvents(incoming[k].bytes[24..], obj, lists[k])
  }

  lemma EventsGathered(ret: int, news: seq<Heard>, incoming: seq<Incoming>, obj: u16, lists: seq<seq<EventData>>, from: int, to: int)
    requires EventsCome(incoming, obj, lists) && Ended(ret, obj, news, incoming) && AllUnderstood(news)
    ensures ret == 0 && AllGood(news, obj)
    ensures Gathered(news, obj, EVENT_SIZE, EventTaker(from, to)) == Filter(Within(from, to), Concat(lists))
  {
    SeriesIsRead(ret, news, incoming, |lists|, obj);
    forall k | 0 <= k < |news|
      ensures Good(news[k].answer.data, obj)
      ensures Harvest(news[k].answer.data, obj, EVENT_SIZE, EventTaker(from, to)) == Filter(Within(from, to), lists[k]) {
      ReadOfSeries(news, incoming, |lists|, k, obj);
      EventsTaken(incoming[k].bytes[24..], obj, lists[k], from, to);
    }
    GatheredIs(news, obj, EVENT_SIZE, EventTaker(from, to), lists, Within(from, to));
  }

  /** The same for events: object 7010 for users, 7012 for installers. */
  method ReadEventsArchive(sma: Smadata2plus, serial: u32, from: int, to: int, user: UserType, vector: Vector<EventData>,
      ghost lists: seq<seq<EventData>>)
    returns (ret: int)
    requires sma.Idle() && EventsCome(sma.net.incoming, if user == USER then 0x7010 else 0x7012, lists)
    requires serial == 0xffff_ffff || exists i :: 0 <= i < |sma.devices| && sma.devices[i].serial == serial
    requires BtFraming.Accepted(sma.net.accepts)
    modifies sma, sma.net, vector
    ensures sma.Idle() && ret == 0 && vector.items == Filter(Within(from, to), Concat(lists))
  {
    ghost var heard, incoming := sma.heard, sma.net.incoming;
    TargetIs(sma.devices, serial);
    ghost var sent, news;
    ret, sent, news := ReadEventData(sma, serial, from, to, user, vector);
    NewsUnderstood(heard, news);
    EventsGathered(ret, news, incoming, EventObject(user), lists, from, to);
  }

  // ---- the request ----

  /** The request for an archive: bytes 00 02, the object, the first time and the last. */
  lemma ArchiveIs(serial: u32, obj: u16, from: int, to: int)
    ensures var p := ArchivePacket(serial, obj, from, to);
      && p.ctrl == 0xe0 && p.dstSerial == serial && p.flag == 0x00 && p.packetNum == 0 && p.start && |p.data| == 12
      && Value(p.data[0]) == 0 && Value(p.data[1]) == 2 && U16(p.data, 2) == obj
      && U32(p.data, 4) == from % 0x1_0000_0000 && U32(p.data, 8) == to % 0x1_0000_0000
  {
    var ws: seq<u32> := [Transactions.Truncated(from), Transactions.Truncated(to)];
    LowHigh(0x0200);
    ArchiveData(FromU16(0x0200), obj, ws, ArchivePacket(serial, obj, from, to).data);
  }

  lemma LowHigh(n: u16)
    ensures Value(FromU16(n)[0]) == n % 0x100 && Value(FromU16(n)[1]) == n / 0x100
  {
    ByteValue(n % 0x100);
    ByteValue(n / 0x100);
  }

  lemma ArchiveData(start: seq<bv8>, obj: u16, ws: seq<u32>, d: seq<bv8>)
    requires |ws| == 2 && |start| == 2 && d == start + FromU16(obj) + Transactions.Words(ws)
    ensures |d| == 12 && d[0] == start[0] && d[1] == start[1] && U16(d, 2) == obj && U32(d, 4) == ws[0] && U32(d, 8) == ws[1]
  {
    var words := Transactions.Words(ws);
    ThreeParts(start, FromU16(obj), words, d);
    ReadU16(d, 2, obj);
    Transactions.WordAt(ws, 0);
    Transactions.WordAt(ws, 1);
    SameNumber(d, 4, words, 0, 4);
    SameNumber(d, 8, words, 4, 4);
  }

  lemma ThreeParts(a: seq<bv8>, b: seq<bv8>, c: seq<bv8>, d: seq<bv8>)
    requires |a| == 2 && |b| == 2 && |c| == 8 && d == a + b + c
    ensures |d| == 12 && d[0] == a[0] && d[1] == a[1] && At(d, 2, b)
    ensures d[4..8] == c[0..4] && d[8..12] == c[4..8]
  {
  }
}
