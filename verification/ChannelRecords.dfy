/** Channel records of src/smadata2plus.cpp: the answers to requests for current values. */
module ChannelRecords {
  import opened Bytes
  import opened ByteOrder
  import opened Common
  import opened Smadata2plus
  import Transactions

  datatype RecordType = RECORD_1 | RECORD_2

  datatype RecordHeader = RecordHeader(cnt: u8, idx: u16, kind: u8, time: u32)

  datatype Values =
    | R1(value1: u32, value2: u32, value3: u32, value4: u32, unknown: u32)
    | R2(value: u64)

  datatype Record = Record(header: RecordHeader, values: Values)

  const START := 12

  function Size(t: RecordType): nat { if t.RECORD_1? then 28 else 16 }

  /** The length of `n` records. */
  function Length(t: RecordType, n: nat): nat { if t.RECORD_1? then 28 * n else 16 * n }

  predicate OfType(r: Record, t: RecordType) { r.values.R1? <==> t.RECORD_1? }

  // ---- reading ----

  function HeaderAt(buf: seq<bv8>, at: nat): RecordHeader
    requires at + 8 <= |buf|
  {
    RecordHeader(Value(buf[at]), U16(buf, at + 1), Value(buf[at + 3]), U32(buf, at + 4))
  }

  function R1At(buf: seq<bv8>, at: nat): Values
    requires at + 20 <= |buf|
  {
    R1(U32(buf, at), U32(buf, at + 4), U32(buf, at + 8), U32(buf, at + 12), U32(buf, at + 16))
  }

  function RecordAt(t: RecordType, buf: seq<bv8>, at: nat): Record
    requires at + Size(t) <= |buf|
  {
    Record(HeaderAt(buf, at), if t.RECORD_1? then R1At(buf, at + 8) else R2(U64(buf, at + 8)))
  }

  method ParseRecordHeader(buf: seq<bv8>, at: nat) returns (h: RecordHeader)
    requires at + 8 <= |buf|
    ensures h == HeaderAt(buf, at)
  {
    var dr := new DataReader(buf, at, 8);
    var cnt := dr.U8();
    var idx := dr.U16le();
    var kind := dr.U8();
    var time := dr.U32le();
    h := RecordHeader(cnt, idx, kind, time);
  }

  method ParseRecord1(buf: seq<bv8>, at: nat) returns (r: Values)
    requires at + 20 <= |buf|
    ensures r == R1At(buf, at)
  {
    var dr := new DataReader(buf, at, 20);
    var value1 := dr.U32le();
    var value2 := dr.U32le();
    var value3 := dr.U32le();
    var value4 := dr.U32le();
    var unknown := dr.U32le();
    r := R1(value1, value2, value3, value4, unknown);
  }

  method ParseRecord(t: RecordType, buf: seq<bv8>, at: nat) returns (r: Record)
    requires at + Size(t) <= |buf|
    ensures r == RecordAt(t, buf, at)
  {
    var h := ParseRecordHeader(buf, at);
    var v;
    match t {
      case RECORD_1 => v := ParseRecord1(buf, at + 8);
      case RECORD_2 => v := R2(U64(buf, at + 8));
    }
    r := Record(h, v);
  }

  /** The object found is compared with the one asked for, which is taken as signed. */
  predicate SameObject(found: u16, asked: u16) { found == Int16(asked) }

  /** An answer that is not refused. */
  predicate Answers(buf: seq<bv8>, len: nat, asked: u16)
    requires len <= |buf|
  {
    len >= 8 && buf[0] == 0x01 && buf[1] == 0x02 && SameObject(U16(buf, 2), asked)
  }

  /** Byte by byte: eight bytes at least, 01 and 02 in front, and behind them the object asked for, which is
      never recognised from 0x8000 on. */
  lemma AnswersIff(buf: seq<bv8>, len: nat, asked: u16)
    requires len <= |buf|
    ensures Answers(buf, len, asked) <==>
      && len >= 8 && buf[0] == 0x01 && buf[1] == 0x02
      && Value(buf[2]) + 0x100 * Value(buf[3]) == asked && asked < 0x8000
  {
    if len >= 8 {
      TwoBytes(buf, 2);
    }
  }

  /** The loop starts a record as long as one byte of it is there. */
  function Started(len: nat, t: RecordType): nat {
    if len <= START then 0 else if t.RECORD_1? then (len - START + 27) / 28 else (len - START + 15) / 16
  }

  lemma StartedIs(len: nat, t: RecordType, n: nat)
    ensures START + Length(t, n) < len <==> n < Started(len, t)
  {
  }

  /** Reads the records of an answer, at most `maxRecords` of them. For an answer that is not refused
      the buffer has to be long enough for the last record; one of eight to eleven bytes would fail
      an assertion. */
  method ParseChannelRecords(buf: seq<bv8>, len: nat, records: array<Record>, maxRecords: nat, t: RecordType, asked: u16)
    returns (ret: int, n: nat)
    requires len <= |buf| && maxRecords <= records.Length
    requires Answers(buf, len, asked) ==> len >= START && START + Length(t, Min(maxRecords, Started(len, t))) <= |buf|
    modifies records
    ensures ret == if Answers(buf, len, asked) then 0 else -1
    ensures ret == 0 ==> n == Min(maxRecords, Started(len, t))
    ensures ret < 0 ==> n == maxRecords && records[..] == old(records[..])
    ensures ret == 0 ==> records[..n] == Records(t, buf, n) && records[n..] == old(records[n..])
  {
    var ok := CheckAnswer(buf, len, asked);
    if !ok {
      return -1, maxRecords;
    }
    ret := 0;
    n := ReadRecordLoop(buf, len, records, maxRecords, t);
  }

  method CheckAnswer(buf: seq<bv8>, len: nat, asked: u16) returns (ok: bool)
    requires len <= |buf| && (Answers(buf, len, asked) ==> len >= START)
    ensures ok <==> Answers(buf, len, asked)
  {
    if len < 8 {
      return false;
    }
    var all := new DataReader(buf, 0, len);
    var first := all.U8();
    if first != 0x01 {
      return false;
    }
    var second := all.U8();
    if second != 0x02 {
      return false;
    }
    var obj := all.U16le();
    if obj != Int16(asked) {
      return false;
    }
    var unknown1 := all.U32le();
    var unknown2 := all.U32le();
    return true;
  }

  /** The first `n` records of an answer. */
  function Records(t: RecordType, buf: seq<bv8>, n: nat): (rs: seq<Record>)
    requires START + Length(t, n) <= |buf|
    ensures |rs| == n
  {
    seq(n, k requires 0 <= k < n && START + Length(t, k) + Size(t) <= |buf| => RecordAt(t, buf, START + Length(t, k)))
  }

  lemma NextRecord(t: RecordType, buf: seq<bv8>, n: nat, all: seq<Record>)
    requires START + Length(t, |all|) <= |buf| && all == Records(t, buf, |all|) && n < |all|
    ensures START + Length(t, n) + Size(t) == START + Length(t, n + 1) <= |buf|
    ensures all[n] == RecordAt(t, buf, START + Length(t, n)) && all[..n + 1] == all[..n] + [all[n]]
  {
  }

  method PutRecord(records: array<Record>, n: nat, r: Record, ghost front: seq<Record>, ghost was: seq<Record>)
    requires |front| == n < records.Length == |was| && records[..] == front + was[n..]
    modifies records
    ensures records[..] == front + [r] + was[n + 1..]
  {
    records[n] := r;
  }

  /** Reads a record and stores it behind those that were read before. */
  method ReadNext(t: RecordType, buf: seq<bv8>, i: nat, records: array<Record>, n: nat, ghost all: seq<Record>, ghost was: seq<Record>)
    requires n < |all| <= records.Length == |was| && START + Length(t, |all|) <= |buf| && all == Records(t, buf, |all|)
    requires i == START + Length(t, n) && records[..] == all[..n] + was[n..]
    modifies records
    ensures records[..] == all[..n + 1] + was[n + 1..]
    ensures i + Size(t) == START + Length(t, n + 1)
  {
    NextRecord(t, buf, n, all);
    var r := ParseRecord(t, buf, i);
    PutRecord(records, n, r, all[..n], was);
  }

  lemma InFront(front: seq<Record>, was: seq<Record>, n: nat, now: seq<Record>)
    requires |front| == n <= |was| && now == front + was[n..]
    ensures now[..n] == front && now[n..] == was[n..]
  {
  }

  method ReadRecordLoop(buf: seq<bv8>, len: nat, records: array<Record>, maxRecords: nat, t: RecordType) returns (n: nat)
    requires START <= len <= |buf| && maxRecords <= records.Length
    requires START + Length(t, Min(maxRecords, Started(len, t))) <= |buf|
    modifies records
    ensures n == Min(maxRecords, Started(len, t))
    ensures records[..n] == Records(t, buf, n) && records[n..] == old(records[n..])
  {
    n := 0;
    var i := START;
    ghost var last, was := Min(maxRecords, Started(len, t)), records[..];
    ghost var all := Records(t, buf, last);
    assert was == all[..0] + was[0..];
    while i < len && n < maxRecords
      invariant 0 <= n <= last && i == START + Length(t, n)
      invariant records[..] == all[..n] + was[n..]
      decreases last - n
    {
      StartedIs(len, t, n);
      ReadNext(t, buf, i, records, n, all, was);
      i := i + Size(t);
      n := n + 1;
    }
    StartedIs(len, t, n);
    assert all[..n] == all;
    InFront(all, was, n, records[..]);
  }

  /** Nothing but whole records behind the first twelve bytes. */
  predicate WholeRecords(len: nat, t: RecordType) { len >= START && (len - START) % Size(t) == 0 }

  /** For whole records, as many as there are. */
  lemma AsManyAsThereAre(len: nat, t: RecordType)
    requires WholeRecords(len, t)
    ensures Started(len, t) == (len - START) / Size(t)
  {
  }

  /** The last record started is read beyond the end of the answer exactly when the answer does not
      hold whole records. */
  lemma ReadsBeyondIff(len: nat, t: RecordType)
    requires len >= START
    ensures START + Length(t, Started(len, t)) > len <==> !WholeRecords(len, t)
  {
  }

  /** Objects from 0x8000 on are never found: only the found value is unsigned. */
  lemma ObjectFoundIff(found: u16, asked: u16)
    ensures SameObject(found, asked) <==> found == asked && asked < 0x8000
  {
  }

  // ---- writing and reading back ----

  function HeaderBytes(h: RecordHeader): (s: seq<bv8>)
    ensures |s| == 8
  {
    [ToByte(h.cnt)] + FromU16(h.idx) + ([ToByte(h.kind)] + FromU32(h.time))
  }

  function ValueBytes(v: Values): (s: seq<bv8>)
    ensures |s| == if v.R1? then 20 else 8
  {
    match v
    case R1(a, b, c, d, e) => FromU32(a) + (FromU32(b) + (FromU32(c) + (FromU32(d) + FromU32(e))))
    case R2(a) => FromU64(a)
  }

  function RecordBytes(r: Record): (s: seq<bv8>)
    ensures |s| == if r.values.R1? then 28 else 16
  {
    HeaderBytes(r.header) + ValueBytes(r.values)
  }

  function AllBytes(rs: seq<Record>): seq<bv8> {
    Flat(seq(|rs|, k requires 0 <= k < |rs| => RecordBytes(rs[k])))
  }

  /** The answer with these records. */
  function AnswerBytes(obj: u16, unknown1: u32, unknown2: u32, rs: seq<Record>): seq<bv8> {
    [0x01, 0x02] + FromU16(obj) + (FromU32(unknown1) + FromU32(unknown2)) + AllBytes(rs)
  }

  lemma ReadHeader(buf: seq<bv8>, at: nat, h: RecordHeader)
    requires At(buf, at, HeaderBytes(h))
    ensures HeaderAt(buf, at) == h
  {
    var left, right := [ToByte(h.cnt)] + FromU16(h.idx), [ToByte(h.kind)] + FromU32(h.time);
    AtParts(buf, at, left, right);
    AtParts(buf, at, [ToByte(h.cnt)], FromU16(h.idx));
    AtParts(buf, at + 3, [ToByte(h.kind)], FromU32(h.time));
    assert buf[at] == buf[at..at + 1][0] && buf[at + 3] == buf[at + 3..at + 4][0];
    ByteValue(h.cnt);
    ByteValue(h.kind);
    ReadU16(buf, at + 1, h.idx);
    ReadU32(buf, at + 4, h.time);
  }

  lemma ReadR1(buf: seq<bv8>, at: nat, a: u32, b: u32, c: u32, d: u32, e: u32)
    requires At(buf, at, FromU32(a) + (FromU32(b) + (FromU32(c) + (FromU32(d) + FromU32(e)))))
    ensures R1At(buf, at) == R1(a, b, c, d, e)
  {
    AtParts(buf, at, FromU32(a), FromU32(b) + (FromU32(c) + (FromU32(d) + FromU32(e))));
    AtParts(buf, at + 4, FromU32(b), FromU32(c) + (FromU32(d) + FromU32(e)));
    AtParts(buf, at + 8, FromU32(c), FromU32(d) + FromU32(e));
    AtParts(buf, at + 12, FromU32(d), FromU32(e));
    ReadU32(buf, at, a);
    ReadU32(buf, at + 4, b);
    ReadU32(buf, at + 8, c);
    ReadU32(buf, at + 12, d);
    ReadU32(buf, at + 16, e);
  }

  lemma ReadRecord(t: RecordType, buf: seq<bv8>, at: nat, r: Record)
    requires OfType(r, t) && At(buf, at, RecordBytes(r))
    ensures at + Size(t) <= |buf| && RecordAt(t, buf, at) == r
  {
    AtParts(buf, at, HeaderBytes(r.header), ValueBytes(r.values));
    ReadHeader(buf, at, r.header);
    match r.values
    case R1(a, b, c, d, e) => ReadR1(buf, at + 8, a, b, c, d, e);
    case R2(a) => ReadU64(buf, at + 8, a);
  }

  lemma LengthIs(t: RecordType, n: nat)
    ensures Length(t, n) == n * Size(t)
  {
  }

  lemma PartHere(t: RecordType, buf: seq<bv8>, parts: seq<seq<bv8>>, k: nat)
    requires forall j :: 0 <= j < |parts| ==> |parts[j]| == Size(t)
    requires At(buf, START, Flat(parts)) && k < |parts|
    ensures At(buf, START + Length(t, k), parts[k])
  {
    PartAt(Size(t), buf, START, parts, k);
    LengthIs(t, k);
  }

  lemma ReadPart(t: RecordType, buf: seq<bv8>, parts: seq<seq<bv8>>, k: nat, r: Record)
    requires forall j :: 0 <= j < |parts| ==> |parts[j]| == Size(t)
    requires At(buf, START, Flat(parts)) && k < |parts| && parts[k] == RecordBytes(r) && OfType(r, t)
    ensures START + Length(t, k) + Size(t) <= |buf| && RecordAt(t, buf, START + Length(t, k)) == r
  {
    PartHere(t, buf, parts, k);
    ReadRecord(t, buf, START + Length(t, k), r);
  }

  predicate IsAt(t: RecordType, buf: seq<bv8>, k: nat, r: Record) {
    START + Length(t, k) + Size(t) <= |buf| && RecordAt(t, buf, START + Length(t, k)) == r
  }

  lemma RecordsAre(t: RecordType, buf: seq<bv8>, rs: seq<Record>)
    requires START + Length(t, |rs|) <= |buf|
    requires forall k {:trigger IsAt(t, buf, k, rs[k])} :: 0 <= k < |rs| ==> IsAt(t, buf, k, rs[k])
    ensures Records(t, buf, |rs|) == rs
  {
    forall k | 0 <= k < |rs| ensures Records(t, buf, |rs|)[k] == rs[k] {
      assert IsAt(t, buf, k, rs[k]);
    }
  }

  lemma ReadAllRecords(t: RecordType, buf: seq<bv8>, rs: seq<Record>)
    requires (forall r :: r in rs ==> OfType(r, t)) && At(buf, START, AllBytes(rs))
    ensures START + Length(t, |rs|) <= |buf| && Records(t, buf, |rs|) == rs
  {
    var parts := seq(|rs|, k requires 0 <= k < |rs| => RecordBytes(rs[k]));
    PartsOfType(t, rs, parts);
    PartsLength(Size(t), parts);
    LengthIs(t, |parts|);
    forall k | 0 <= k < |rs| ensures IsAt(t, buf, k, rs[k]) {
      ReadPart(t, buf, parts, k, rs[k]);
    }
    RecordsAre(t, buf, rs);
  }

  lemma PartsOfType(t: RecordType, rs: seq<Record>, parts: seq<seq<bv8>>)
    requires (forall r :: r in rs ==> OfType(r, t)) && |parts| == |rs|
    requires forall k :: 0 <= k < |rs| ==> parts[k] == RecordBytes(rs[k])
    ensures forall k :: 0 <= k < |parts| ==> |parts[k]| == Size(t)
  {
    forall k | 0 <= k < |parts| ensures |parts[k]| == Size(t) {
      assert OfType(rs[k], t);
    }
  }

  lemma AnswerParts(obj: u16, one: seq<bv8>, two: seq<bv8>, all: seq<bv8>, buf: seq<bv8>)
    requires |one| == 4 && |two| == 4 && buf == [0x01, 0x02] + FromU16(obj) + (one + two) + all
    ensures At(buf, 2, FromU16(obj)) && At(buf, START, all) && buf[0] == 0x01 && buf[1] == 0x02
    ensures |buf| == START + |all|
  {
  }

  lemma AnswerAccepted(obj: u16, buf: seq<bv8>)
    requires |buf| >= START && buf[0] == 0x01 && buf[1] == 0x02 && At(buf, 2, FromU16(obj))
    ensures Answers(buf, |buf|, obj) <==> obj < 0x8000
  {
    ReadU16(buf, 2, obj);
    ObjectFoundIff(obj, obj);
  }

  lemma WholeAnswer(t: RecordType, len: nat, n: nat)
    requires len == START + Length(t, n)
    ensures WholeRecords(len, t) && Started(len, t) == n
  {
    if t.RECORD_1? {
      Whole28(len - START, n);
    } else {
      Whole16(len - START, n);
    }
  }

  lemma Whole28(x: nat, n: nat)
    requires x == 28 * n
    ensures (x + 27) / 28 == n && x % 28 == 0
  {
  }

  lemma Whole16(x: nat, n: nat)
    requires x == 16 * n
    ensures (x + 15) / 16 == n && x % 16 == 0
  {
  }

  /** Parsing the answer made of any list of records returns the list. */
  lemma ParseAnswer(t: RecordType, obj: u16, unknown1: u32, unknown2: u32, rs: seq<Record>, buf: seq<bv8>)
    requires (forall r :: r in rs ==> OfType(r, t)) && buf == AnswerBytes(obj, unknown1, unknown2, rs)
    ensures |buf| == START + Length(t, |rs|) && WholeRecords(|buf|, t) && Started(|buf|, t) == |rs|
    ensures Records(t, buf, |rs|) == rs
    ensures Answers(buf, |buf|, obj) <==> obj < 0x8000
  {
    AnswerParts(obj, FromU32(unknown1), FromU32(unknown2), AllBytes(rs), buf);
    AllBytesLength(t, rs);
    WholeAnswer(t, |buf|, |rs|);
    AnswerAccepted(obj, buf);
    ReadAllRecords(t, buf, rs);
  }

  lemma AllBytesLength(t: RecordType, rs: seq<Record>)
    requires forall r :: r in rs ==> OfType(r, t)
    ensures |AllBytes(rs)| == Length(t, |rs|)
  {
    var parts := seq(|rs|, k requires 0 <= k < |rs| => RecordBytes(rs[k]));
    PartsOfType(t, rs, parts);
    PartsLength(Size(t), parts);
    LengthIs(t, |parts|);
  }

  // ---- asking ----

  /** Asks for records and waits for the answer. This happens outside of any transaction: the counter
      stays what it is. */
  method AskRecords(sma: Smadata2plus, serial: u32, obj: u16, fromIdx: u32, toIdx: u32)
    returns (ret: int, data: seq<bv8>, ghost sent: seq<Entry>)
    requires sma.Idle()
    modifies sma`log, sma`heard, sma.net
    ensures sma.Idle() && sma.transactionCntr == old(sma.transactionCntr) && sma.begun == old(sma.begun)
    ensures -1 <= ret <= 0 && sma.log == old(sma.log) + sent
    ensures var p := Transactions.ChannelPacket(serial, obj, fromIdx, toIdx);
      sent == if Works(sma.devices, p, old(sma.net.accepts)) then Post(sma.devices, p, sma.transactionCntr, Outside(|sma.begun|)) else []
    ensures ret == 0 ==> sent != [] && |data| <= 512 && |sma.heard| > 0 && sma.heard[|sma.heard| - 1].answer.data == data
  {
    ret, data, sent := AskFor(sma, Transactions.ChannelPacket(serial, obj, fromIdx, toIdx));
  }

  method AskFor(sma: Smadata2plus, p: Packet) returns (ret: int, data: seq<bv8>, ghost sent: seq<Entry>)
    requires sma.Idle() && Sendable(p)
    modifies sma`log, sma`heard, sma.net
    ensures sma.Idle() && sma.transactionCntr == old(sma.transactionCntr) && sma.begun == old(sma.begun)
    ensures -1 <= ret <= 0 && sma.log == old(sma.log) + sent
    ensures sent == if Works(sma.devices, p, old(sma.net.accepts)) then Post(sma.devices, p, sma.transactionCntr, Outside(|sma.begun|)) else []
    ensures ret == 0 ==> sent != [] && |data| <= 512 && |sma.heard| > 0 && sma.heard[|sma.heard| - 1].answer.data == data
  {
    data, sent := [], [];
    ret := sma.Write(p);
    if ret < 0 {
      return;
    }
    sent := Post(sma.devices, p, sma.transactionCntr, Outside(|sma.begun|));
    var from, a;
    ret, from, a := sma.Read(512);
    data := a.data;
  }

  /** Two packets of the log that were sent outside, with no transaction begun in between. */
  lemma SameOnWire(sma: Smadata2plus, j: nat, k: nat)
    requires sma.Valid() && j < |sma.log| && k < |sma.log|
    requires sma.log[j].owner.Outside? && sma.log[k].owner == sma.log[j].owner
    ensures |sma.net.sent| == |sma.log| && |sma.net.sent[j].1| >= HEADER_SIZE && |sma.net.sent[k].1| >= HEADER_SIZE
    ensures CounterOf(sma.net.sent[j].1) == CounterOf(sma.net.sent[k].1)
  {
    OutsideCountersShared(sma.log, Finished(sma.begun, sma.transactionActive), sma.net.sent, j, k);
  }

  /** Whatever is asked for twice in a row: if both requests go out, they carry the same counter on
      the wire. */
  method AskTwice(sma: Smadata2plus, serial: u32, obj: u16, fromIdx: u32, toIdx: u32, serial': u32, obj': u16, fromIdx': u32, toIdx': u32)
    returns (ghost first: seq<Entry>, ghost second: seq<Entry>)
    requires sma.Idle()
    modifies sma`log, sma`heard, sma.net
    ensures sma.Idle() && sma.log == old(sma.log) + first + second && |sma.net.sent| == |sma.log|
    ensures first == [] <==> !Works(sma.devices, Transactions.ChannelPacket(serial, obj, fromIdx, toIdx), old(sma.net.accepts))
    ensures first != [] && second != [] ==> (
      var n := |old(sma.log)|;
      && |sma.net.sent| == n + 2 && |sma.net.sent[n].1| >= HEADER_SIZE && |sma.net.sent[n + 1].1| >= HEADER_SIZE
      && CounterOf(sma.net.sent[n].1) == CounterOf(sma.net.sent[n + 1].1))
  {
    ghost var n := |sma.log|;
    var ret, data;
    ret, data, first := AskRecords(sma, serial, obj, fromIdx, toIdx);
    ret, data, second := AskRecords(sma, serial', obj', fromIdx', toIdx');
    if first != [] && second != [] {
      assert sma.log[n] == first[0] && sma.log[n + 1] == second[0];
      SameOnWire(sma, n, n + 1);
    }
  }
}
