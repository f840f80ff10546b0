/** Day yields from daily totals (readDayYield of src/smadata2plus.cpp). */
module DayYield {
  import opened ByteOrder
  import opened Smadata2plus
  import opened Archive
  import Transactions
  import ArchiveBytes

  const TWO_DAYS := 48 * 60 * 60

  datatype DayYield = DayYield(dayYield: int, date: int)

  /** The difference of two totals: unsigned on 64 bits, then taken as signed. */
  function Difference(a: u64, b: u64): int { Int64((a - b) % 0x1_0000_0000_0000_0000) }

  /** Two samples next to each other, less than two days apart. */
  predicate Close(days: seq<TotalDayData>, i: nat)
    requires 0 < i < |days|
  {
    days[i].time - days[i - 1].time < TWO_DAYS
  }

  function Entry(days: seq<TotalDayData>, i: nat): DayYield
    requires 0 < i < |days|
  {
    DayYield(Difference(days[i].totalYield, days[i - 1].totalYield), days[i].time)
  }

  /** One entry for every close pair, in order. */
  function Yields(days: seq<TotalDayData>): seq<DayYield> {
    if |days| < 2 then [] else
      var n := |days| - 1;
      Yields(days[..n]) + if Close(days, n) then [Entry(days, n)] else []
  }

  /** Where the entry of sample `i` is, if it has one. */
  function Position(days: seq<TotalDayData>, i: nat): nat
    requires i <= |days|
  {
    |Yields(days[..i])|
  }

  method ComputeYields(days: seq<TotalDayData>, result: array<DayYield>) returns (pos: nat)
    requires 2 <= |days| == result.Length
    modifies result
    ensures pos < |days| && result[..pos] == Yields(days)
  {
    pos := 0;
    var i := 1;
    while i < |days|
      invariant 1 <= i <= |days| && pos < i
      invariant result[..pos] == Yields(days[..i])
    {
      assert days[..i + 1][..i] == days[..i];
      if days[i].time - days[i - 1].time < TWO_DAYS {
        result[pos] := Entry(days, i);
        pos := pos + 1;
      }
      i := i + 1;
    }
    assert days[..i] == days;
  }

  // ---- what the entries say ----

  lemma {:induction false} YieldsGrow(days: seq<TotalDayData>, i: nat)
    requires i <= |days|
    ensures Position(days, i) <= |Yields(days)| && Yields(days)[..Position(days, i)] == Yields(days[..i])
  {
    if i < |days| {
      var n := |days| - 1;
      YieldsGrow(days[..n], i);
      assert days[..n][..i] == days[..i];
    } else {
      assert days[..i] == days;
    }
  }

  lemma PositionNext(days: seq<TotalDayData>, i: nat)
    requires 0 < i < |days|
    ensures Position(days, i + 1) == Position(days, i) + if Close(days, i) then 1 else 0
    ensures Yields(days[..i + 1]) == Yields(days[..i]) + if Close(days, i) then [Entry(days, i)] else []
  {
    assert days[..i + 1][..i] == days[..i];
  }

  /** How many of the samples in front of `i` are less than two days, 172800 seconds, after the one before
      them. */
  function Rank(days: seq<TotalDayData>, i: nat): nat
    requires i <= |days|
  {
    if i < 2 then 0 else Rank(days, i - 1) + if days[i - 1].time - days[i - 2].time < 172800 then 1 else 0
  }

  lemma {:induction false} PositionIsRank(days: seq<TotalDayData>, i: nat)
    requires i <= |days|
    ensures Position(days, i) == Rank(days, i)
    decreases i
  {
    if i >= 2 {
      PositionIsRank(days, i - 1);
      PositionNext(days, i - 1);
    }
  }

  /** A sample less than two days after the one before it has its entry: dated by it, with the growth since
      the one before, if that fits into 64 bits with a sign. */
  lemma EntryOfSample(days: seq<TotalDayData>, i: nat)
    requires 0 < i < |days| && days[i].time - days[i - 1].time < 172800
    ensures Rank(days, i) < |Yields(days)| && Yields(days)[Rank(days, i)].date == days[i].time
    ensures var growth := days[i].totalYield - days[i - 1].totalYield;
      -0x8000_0000_0000_0000 <= growth < 0x8000_0000_0000_0000 ==> Yields(days)[Rank(days, i)].dayYield == growth
  {
    PlaceOfSample(days, i);
    PositionIsRank(days, i);
    DifferenceExactIff(days[i].totalYield, days[i - 1].totalYield);
  }

  /** An entry that says so. */
  predicate Tells(entry: DayYield, days: seq<TotalDayData>, i: nat)
    requires 0 < i < |days|
  {
    && entry.date == days[i].time
    && var growth := days[i].totalYield - days[i - 1].totalYield;
       -0x8000_0000_0000_0000 <= growth < 0x8000_0000_0000_0000 ==> entry.dayYield == growth
  }

  /** The result has an entry for each of these samples, in order, and no others. */
  ghost predicate TellsAll(result: seq<DayYield>, days: seq<TotalDayData>) {
    && |result| == Rank(days, |days|)
    && forall i {:trigger Rank(days, i)} :: 0 < i < |days| && days[i].time - days[i - 1].time < 172800 ==>
         Rank(days, i) < |result| && Tells(result[Rank(days, i)], days, i)
  }

  lemma YieldsTellAll(days: seq<TotalDayData>)
    ensures TellsAll(Yields(days), days)
  {
    PositionIsRank(days, |days|);
    assert days[..|days|] == days;
    forall i | 0 < i < |days| && days[i].time - days[i - 1].time < 172800
      ensures Rank(days, i) < |Yields(days)| && Tells(Yields(days)[Rank(days, i)], days, i) {
      EntryOfSample(days, i);
    }
  }

  lemma PlaceOfSample(days: seq<TotalDayData>, i: nat)
    requires 0 < i < |days| && Close(days, i)
    ensures Position(days, i) < |Yields(days)| && Yields(days)[Position(days, i)] == Entry(days, i)
  {
    PositionNext(days, i);
    YieldsGrow(days, i + 1);
    assert Yields(days)[Position(days, i)] == Yields(days)[..Position(days, i + 1)][Position(days, i)];
  }

  /** There are no other entries. */
  lemma {:induction false} SampleOfEntry(days: seq<TotalDayData>, k: nat) returns (i: nat)
    requires k < |Yields(days)|
    ensures 0 < i < |days| && Close(days, i) && Position(days, i) == k
  {
    var n := |days| - 1;
    if k < |Yields(days[..n])| {
      i := SampleOfEntry(days[..n], k);
      assert days[..n][..i] == days[..i];
    } else {
      i := n;
    }
  }

  predicate FitsInt64(n: int) { -0x8000_0000_0000_0000 <= n < 0x8000_0000_0000_0000 }

  /** The computed difference is the true one exactly when that fits into 64 bits with a sign. */
  lemma DifferenceExactIff(a: u64, b: u64)
    ensures Difference(a, b) == a - b <==> FitsInt64(a - b)
  {
  }

  function Sum(ys: seq<DayYield>): int {
    if ys == [] then 0 else Sum(ys[..|ys| - 1]) + ys[|ys| - 1].dayYield
  }

  /** Samples `a` to `b` follow each other without a gap. */
  predicate GapFree(days: seq<TotalDayData>, a: nat, b: nat) {
    a <= b < |days| && forall i :: a < i <= b ==> Close(days, i)
  }

  /** The entries of the samples after `a` up to `b`. */
  function EntriesBetween(days: seq<TotalDayData>, a: nat, b: nat): seq<DayYield>
    requires a <= b < |days|
  {
    YieldsGrow(days[..b + 1], a + 1);
    assert days[..b + 1][..a + 1] == days[..a + 1];
    Yields(days[..b + 1])[Position(days, a + 1)..]
  }

  /** They are a stretch of the result. */
  lemma EntriesInResult(days: seq<TotalDayData>, a: nat, b: nat)
    requires a <= b < |days|
    ensures Position(days, a + 1) <= Position(days, b + 1) <= |Yields(days)|
    ensures EntriesBetween(days, a, b) == Yields(days)[Position(days, a + 1)..Position(days, b + 1)]
  {
    YieldsGrow(days, b + 1);
    YieldsGrow(days[..b + 1], a + 1);
    assert days[..b + 1][..a + 1] == days[..a + 1];
  }

  lemma EntriesNext(days: seq<TotalDayData>, a: nat, b: nat)
    requires a < b < |days| && Close(days, b)
    ensures EntriesBetween(days, a, b) == EntriesBetween(days, a, b - 1) + [Entry(days, b)]
  {
    PositionNext(days, b);
    EntriesInResult(days, a, b - 1);
    assert days[..b][..a + 1] == days[..a + 1];
  }

  /** True differences in a run. */
  predicate ExactRun(days: seq<TotalDayData>, a: nat, b: nat) {
    a <= b < |days| && forall i :: a < i <= b ==> FitsInt64(days[i].totalYield - days[i - 1].totalYield)
  }

  /** Over a gap-free run with true differences the entries sum to last total minus first total. */
  lemma {:induction false} YieldConserved(days: seq<TotalDayData>, a: nat, b: nat)
    requires GapFree(days, a, b) && ExactRun(days, a, b)
    ensures |EntriesBetween(days, a, b)| == b - a
    ensures Sum(EntriesBetween(days, a, b)) == days[b].totalYield - days[a].totalYield
    decreases b
  {
    if a < b {
      YieldConserved(days, a, b - 1);
      EntriesNext(days, a, b);
      SumNext(EntriesBetween(days, a, b - 1), Entry(days, b));
      DifferenceExactIff(days[b].totalYield, days[b - 1].totalYield);
    }
  }

  lemma SumNext(ys: seq<DayYield>, y: DayYield)
    ensures Sum(ys + [y]) == Sum(ys) + y.dayYield
  {
    assert (ys + [y])[..|ys|] == ys;
  }

  /** In particular for totals below 2 to the 63. */
  lemma SmallTotalsConserved(days: seq<TotalDayData>, a: nat, b: nat)
    requires GapFree(days, a, b) && forall i :: a <= i <= b ==> days[i].totalYield < 0x8000_0000_0000_0000
    ensures Position(days, a + 1) <= Position(days, b + 1) <= |Yields(days)|
    ensures Sum(Yields(days)[Position(days, a + 1)..Position(days, b + 1)]) == days[b].totalYield - days[a].totalYield
  {
    YieldConserved(days, a, b);
    EntriesInResult(days, a, b);
  }

  const MODULUS := 0x1_0000_0000_0000_0000

  lemma DifferenceModulo(a: u64, b: u64) returns (w: int)
    ensures Difference(a, b) == a - b + w * MODULUS && -1 <= w <= 1
  {
    w := if a - b >= 0x8000_0000_0000_0000 then -1 else if a - b < -0x8000_0000_0000_0000 then 1 else 0;
  }

  /** Whatever the totals are, the sum over a gap-free run is right up to a multiple of 2 to the 64. */
  lemma {:induction false} YieldConservedModulo(days: seq<TotalDayData>, a: nat, b: nat) returns (w: int)
    requires GapFree(days, a, b)
    ensures Sum(EntriesBetween(days, a, b)) == days[b].totalYield - days[a].totalYield + w * MODULUS
    decreases b
  {
    w := 0;
    if a < b {
      var v := YieldConservedModulo(days, a, b - 1);
      EntriesNext(days, a, b);
      SumNext(EntriesBetween(days, a, b - 1), Entry(days, b));
      var u := DifferenceModulo(days[b].totalYield, days[b - 1].totalYield);
      w := v + u;
    }
  }

  // ---- reading ----

  /** The request for the totals of device `id` from one time to another. */
  predicate Requests(e: Entry, id: u32, from: int, to: int) {
    && e.packet.ctrl == 0xe0 && e.packet.dstSerial == id && e.packet.flag == 0x00 && e.packet.packetNum == 0 && e.packet.start
    && |e.packet.data| == 12 && U16(e.packet.data, 2) == 0x7020
    && U32(e.packet.data, 4) == from % 0x1_0000_0000 && U32(e.packet.data, 8) == to % 0x1_0000_0000
  }

  lemma ReadRequests(devices: seq<Device>, k: nat, id: u32, from: int, to: int, incoming: seq<Incoming>, accepts: seq<bool>,
      sent: seq<Entry>, news: seq<Heard>)
    requires ArchiveRead(0, devices, k, ArchivePacket(id, DAY_OBJECT, from, to), DAY_OBJECT, incoming, accepts, sent, news)
    ensures |sent| == 1 && Requests(sent[0], id, from, to)
  {
    ArchiveBytes.ArchiveIs(id, DAY_OBJECT, from, to);
    Transactions.OneInTransaction(devices, ArchivePacket(id, DAY_OBJECT, from, to), k);
  }

  /** Tries to read the totals up to five times. Failed attempts leave nothing in the vector. */
  method ReadTotalsRetrying(sma: Smadata2plus, id: u32, from: int, to: int, dayData: Vector<TotalDayData>)
    returns (ret: int, ghost news: seq<Heard>)
    requires sma.Idle()
    modifies sma, sma.net, dayData
    ensures sma.Idle() && sma.devices == old(sma.devices) && -1 <= ret <= 0
    ensures |news| <= |sma.heard| && sma.heard[|sma.heard| - |news|..] == news
    ensures ret == 0 ==> Collected(dayData.items, news, DAY_OBJECT, DAY_SIZE, DayTaker(from, to)) && Transactions.AllRoomed(ROOM, news)
    ensures ret < 0 ==> dayData.items == old(dayData.items)
    ensures 1 <= |sma.begun| - |old(sma.begun)| <= 5
    ensures ret < 0 ==> |sma.begun| - |old(sma.begun)| == 5
    ensures ret == 0 ==> sma.log != [] && Requests(sma.log[|sma.log| - 1], id, from, to)
  {
    var cnt := 0;
    while true
      invariant sma.Idle() && sma.devices == old(sma.devices)
      invariant dayData.items == old(dayData.items)
      invariant 0 <= cnt <= Transactions.NUM_RETRIES + 1 && |sma.begun| == |old(sma.begun)| + cnt
      decreases Transactions.NUM_RETRIES + 1 - cnt
    {
      ghost var sent, k, incoming, accepts := [], |sma.begun|, sma.net.incoming, sma.net.accepts;
      ret, sent, news := ReadTotalDayData(sma, id, from, to, dayData);
      if ret == 0 {
        ReadRequests(sma.devices, k, id, from, to, incoming, accepts, sent, news);
      }
      if cnt > Transactions.NUM_RETRIES && ret < 0 {
        return;
      } else if ret < 0 {
        cnt := cnt + 1;
      } else {
        return;
      }
    }
  }

  /** The yields of the days asked for: the number of entries, and the entries at the front of an
      array with room for one per sample. */
  method ReadDayYield(sma: Smadata2plus, id: u32, from: int, to: int)
    returns (ret: int, dayYield: array?<DayYield>, ghost days: seq<TotalDayData>, ghost news: seq<Heard>)
    requires sma.Idle()
    modifies sma, sma.net
    ensures sma.Idle() && sma.devices == old(sma.devices)
    ensures ret < 0 ==> dayYield == null && |sma.begun| - |old(sma.begun)| == 5
    ensures ret >= 0 ==> Collected(days, news, DAY_OBJECT, DAY_SIZE, DayTaker(from, to)) && Transactions.AllRoomed(ROOM, news)
    ensures ret >= 0 ==> sma.log != [] && Requests(sma.log[|sma.log| - 1], id, from, to)
    ensures ret >= 0 ==> ret == |Yields(days)| && (|days| < 2 <==> dayYield == null)
    ensures dayYield != null ==> fresh(dayYield) && ret < dayYield.Length == |days| && dayYield[..ret] == Yields(days)
    ensures dayYield != null ==> TellsAll(dayYield[..ret], days)
  {
    var dayData := new Vector<TotalDayData>();
    dayYield := null;
    ret, news := ReadTotalsRetrying(sma, id, from, to, dayData);
    days := dayData.items;
    if ret < 0 {
      return;
    }
    if |dayData.items| < 2 {
      return 0, dayYield, days, news;
    }
    dayYield := new DayYield[|dayData.items|](_ => DayYield(0, 0));
    ret := ComputeYields(dayData.items, dayYield);
    YieldsTellAll(days);
  }
}
