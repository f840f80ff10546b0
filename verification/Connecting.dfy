/** How src/smadata2plus.cpp finds the devices, and how it opens a connection: every step is tried up
    to five times. */
module Connecting {
  import opened ByteOrder
  import opened Smadata2plus
  import opened Transactions
  import opened Common
  import BtFraming

  const ROOM := 52

  // ---- one attempt ----

  function Sender(h: Heard): Device { Device(h.answer.srcSysId, h.answer.srcSerial, h.from) }

  /** The devices that sent these packets. */
  function Senders(heard: seq<Heard>): (ds: seq<Device>)
    ensures |ds| == |heard|
  {
    if heard == [] then [] else Senders(heard[..|heard| - 1]) + [Sender(heard[|heard| - 1])]
  }

  lemma SendersGrow(heard: seq<Heard>, h: Heard)
    ensures Senders(heard + [h]) == Senders(heard) + [Sender(h)]
  {
    assert (heard + [h])[..|heard|] == heard;
  }

  lemma {:induction false} SendersConcat(a: seq<Heard>, b: seq<Heard>)
    ensures Senders(a + b) == Senders(a) + Senders(b)
    decreases |b|
  {
    if b == [] {
      assert a + b == a;
    } else {
      var most, last := b[..|b| - 1], b[|b| - 1];
      assert a + b == (a + most) + [last] && most + [last] == b;
      SendersGrow(a + most, last);
      SendersGrow(most, last);
      SendersConcat(a, most);
    }
  }

  /** A device with the system id in bytes 10 and 11, the serial in bytes 12 to 15, and the address the
      packet came from. */
  predicate AnnouncedBy(d: Device, h: Heard) {
    d.sysId == U16(h.bytes, 10) && d.serial == U32(h.bytes, 12) && d.mac == h.from
  }

  predicate Announced(ds: seq<Device>, heard: seq<Heard>) {
    |ds| == |heard| && forall k {:trigger ds[k]} :: 0 <= k < |heard| ==> AnnouncedBy(ds[k], heard[k])
  }

  lemma {:induction false} SendersAt(heard: seq<Heard>, k: nat)
    requires k < |heard|
    ensures Senders(heard)[k] == Sender(heard[k])
  {
    if k < |heard| - 1 {
      SendersAt(heard[..|heard| - 1], k);
    }
  }

  lemma SendersAnnounced(heard: seq<Heard>)
    requires AllUnderstood(heard)
    ensures Announced(Senders(heard), heard)
  {
    forall k | 0 <= k < |heard| ensures AnnouncedBy(Senders(heard)[k], heard[k]) {
      SendersAt(heard, k);
      assert Understood(heard[k]);
    }
  }

  /** The next `n` payloads up to a failure. */
  function Front(incoming: seq<Incoming>, n: nat): (f: seq<Incoming>)
    ensures |f| <= n && |f| <= |incoming| && f == incoming[..|f|]
  {
    if n == 0 || Next(incoming).Failure? then []
    else [incoming[0]] + Front(incoming[1..], n - 1)
  }

  /** What is left after reading them, and the failure if there was one. */
  function Behind(incoming: seq<Incoming>, n: nat): seq<Incoming> {
    var k := |Front(incoming, n)|;
    if k == n then incoming[k..] else LaterIn(incoming[k..])
  }

  lemma {:induction false} FrontIs(incoming: seq<Incoming>, n: nat, k: nat)
    requires k <= n && k <= |incoming| && forall j :: 0 <= j < k ==> incoming[j].Data?
    requires k == n || Next(incoming[k..]).Failure?
    ensures Front(incoming, n) == incoming[..k]
    decreases k
  {
    if k > 0 {
      assert incoming[0].Data?;
      assert incoming[1..][k - 1..] == incoming[k..];
      FrontIs(incoming[1..], n - 1, k - 1);
    }
  }

  /** `heard` are these payloads, read with the room there is for announcements. */
  predicate HeardAs(heard: seq<Heard>, payloads: seq<Incoming>) {
    && |heard| == |payloads|
    && forall k :: 0 <= k < |heard| ==> payloads[k] == Data(heard[k].from, heard[k].bytes) && heard[k].limit == ROOM
  }

  predicate AllWithRoom(heard: seq<Heard>) {
    forall k :: 0 <= k < |heard| ==> heard[k].limit == ROOM
  }

  lemma HeardFront(before: seq<Incoming>, heard: seq<Heard>, now: seq<Incoming>, n: nat)
    requires HeardSince(before, heard, now) && AllWithRoom(heard) && |heard| <= n
    requires |heard| == n || Next(now).Failure?
    ensures HeardAs(heard, Front(before, n))
    ensures Behind(before, n) == if |heard| == n then now else LaterIn(now)
  {
    FrontIs(before, n, |heard|);
  }

  lemma OneMoreDevice(before: seq<Incoming>, news: seq<Heard>, now: seq<Incoming>, h: Heard)
    requires HeardSince(before, news, now) && AllWithRoom(news) && Next(now) == Data(h.from, h.bytes) && h.limit == ROOM
    ensures HeardSince(before, news + [h], LaterIn(now)) && AllWithRoom(news + [h])
    ensures Senders(news + [h]) == Senders(news) + [Sender(h)]
  {
    SendersGrow(news, h);
    HeardOneMore(before, news, now, h);
  }

  /** Reads one announcement, after others that were `news`. */
  method ReadDevice(sma: Smadata2plus, ghost before: seq<Incoming>, ghost news: seq<Heard>) returns (ret: int, ghost h: Heard)
    requires sma.Valid() && HeardSince(before, news, sma.net.incoming) && AllWithRoom(news)
    modifies sma`devices, sma`heard, sma.net`incoming
    ensures sma.Valid() && sma.net.incoming == LaterIn(old(sma.net.incoming))
    ensures ret == if Next(old(sma.net.incoming)).Data? then 0 else -1
    ensures ret < 0 ==> sma.heard == old(sma.heard) && sma.devices == old(sma.devices)
    ensures ret == 0 ==> sma.heard == old(sma.heard) + [h] && sma.devices == old(sma.devices) + [Sender(h)]
    ensures ret == 0 ==> Senders(news + [h]) == Senders(news) + [Sender(h)]
    ensures ret == 0 ==> HeardSince(before, news + [h], sma.net.incoming) && AllWithRoom(news + [h])
  {
    ghost var incoming := sma.net.incoming;
    var from, a;
    ret, from, a := sma.Read(ROOM);
    if ret == 0 {
      h := sma.heard[|sma.heard| - 1];
      OneMoreDevice(before, news, incoming, h);
      sma.devices := sma.devices + [Device(a.srcSysId, a.srcSerial, from)];
    } else {
      h := Heard(BtFraming.MAC_BROADCAST, seq(HEADER_SIZE, _ => 0), 0, a);
    }
  }

  /** Reads `n` announcements. The devices read before a failure stay in the list. */
  method ReadDevices(sma: Smadata2plus, n: nat) returns (ret: int, ghost news: seq<Heard>)
    requires sma.Valid()
    modifies sma`devices, sma`heard, sma.net`incoming
    ensures sma.Valid() && sma.heard == old(sma.heard) + news
    ensures sma.devices == old(sma.devices) + Senders(news)
    ensures HeardAs(news, Front(old(sma.net.incoming), n)) && sma.net.incoming == Behind(old(sma.net.incoming), n)
    ensures ret == if |news| == n then 0 else -1
    ensures Announced(sma.devices[|old(sma.devices)|..], news)
  {
    ret, news := ReadSome(sma, n);
    NewsUnderstood(old(sma.heard), news);
    SendersAnnounced(news);
    assert sma.devices[|old(sma.devices)|..] == Senders(news);
  }

  method ReadSome(sma: Smadata2plus, n: nat) returns (ret: int, ghost news: seq<Heard>)
    requires sma.Valid()
    modifies sma`devices, sma`heard, sma.net`incoming
    ensures sma.Valid() && sma.heard == old(sma.heard) + news
    ensures sma.devices == old(sma.devices) + Senders(news)
    ensures HeardAs(news, Front(old(sma.net.incoming), n)) && sma.net.incoming == Behind(old(sma.net.incoming), n)
    ensures ret == if |news| == n then 0 else -1
  {
    ghost var before := sma.net.incoming;
    news := [];
    var i := 0;
    while i < n
      invariant 0 <= i <= n && |news| == i
      invariant sma.Valid() && sma.heard == old(sma.heard) + news
      invariant sma.devices == old(sma.devices) + Senders(news)
      invariant HeardSince(before, news, sma.net.incoming) && AllWithRoom(news)
    {
      ghost var now := sma.net.incoming;
      ghost var h;
      ret, h := ReadDevice(sma, before, news);
      if ret < 0 {
        HeardFront(before, news, now, n);
        return;
      }
      news := news + [h];
      i := i + 1;
    }
    HeardFront(before, news, sma.net.incoming, n);
    ret := 0;
  }

  /** What discovery, begun as the k-th transaction, has sent and learned when it returns. */
  ghost predicate Discovered(ret: int, request: Packet, k: nat, n: nat, incoming: seq<Incoming>, accepts: seq<bool>,
      before: seq<Device>, now: seq<Incoming>, after: seq<Device>, sent: seq<Entry>, news: seq<Heard>)
  {
    && after == before + Senders(news) && Announced(after[|before|..], news)
    && (if BtFraming.Accepted(accepts) then
          && sent == InTransaction(before, request, k)
          && HeardAs(news, Front(incoming, n)) && now == Behind(incoming, n)
          && ret == (if |news| == n then 0 else -1)
        else ret == -1 && sent == [] && news == [] && now == incoming)
  }

  method Discover(sma: Smadata2plus, request: Packet, n: nat) returns (ret: int, ghost sent: seq<Entry>, ghost news: seq<Heard>)
    requires sma.Valid() && sma.transactionActive && Sendable(request) && request.dstSerial == SERIAL_BROADCAST
    modifies sma`log, sma`heard, sma`devices, sma.net
    ensures sma.Valid() && sma.log == old(sma.log) + sent && sma.heard == old(sma.heard) + news
    ensures sma.net.accepts == BtFraming.Later(old(sma.net.accepts))
    ensures Discovered(ret, request, |sma.begun| - 1, n, old(sma.net.incoming), old(sma.net.accepts), old(sma.devices),
      sma.net.incoming, sma.devices, sent, news)
  {
    sent, news := [], [];
    ret := Ask(sma, request);
    if ret == 0 {
      sent := InTransaction(sma.devices, request, |sma.begun| - 1);
      ret, news := ReadDevices(sma, n);
    }
  }

  /** Asks all devices to announce themselves and reads `n` announcements. */
  method DiscoverDevices(sma: Smadata2plus, n: nat) returns (ret: int, ghost sent: seq<Entry>, ghost news: seq<Heard>)
    requires sma.Idle()
    modifies sma, sma.net
    ensures sma.Idle() && |sma.begun| == |old(sma.begun)| + 1
    ensures sma.log == old(sma.log) + sent && sma.heard == old(sma.heard) + news
    ensures sma.net.accepts == BtFraming.Later(old(sma.net.accepts))
    ensures Discovered(ret, ChannelPacket(SERIAL_BROADCAST, 0, 0, 0), |old(sma.begun)|, n, old(sma.net.incoming),
      old(sma.net.accepts), old(sma.devices), sma.net.incoming, sma.devices, sent, news)
  {
    sma.Begin();
    ret, sent, news := Discover(sma, ChannelPacket(SERIAL_BROADCAST, 0, 0, 0), n);
    sma.Leave();
  }

  /** The request for all devices to announce themselves. */
  predicate AsksWhoIsThere(e: Entry) {
    && e.packet.ctrl == 0xa0 && e.packet.dstSerial == 0xffff_ffff && e.packet.flag == 0x00 && e.packet.packetNum == 0 && e.packet.start
    && e.sysId == 0xffff && e.mac == [0xff, 0xff, 0xff, 0xff, 0xff, 0xff]
    && |e.packet.data| == 12 && e.packet.data[0] == 0x00 && e.packet.data[1] == 0x02
    && U16(e.packet.data, 2) == 0 && U32(e.packet.data, 4) == 0 && U32(e.packet.data, 8) == 0
  }

  /** Nothing else was sent. */
  ghost predicate OnlyAsked(before: seq<Entry>, after: seq<Entry>) {
    && |before| <= |after| && after[..|before|] == before
    && forall k {:trigger after[k]} :: |before| <= k < |after| ==> AsksWhoIsThere(after[k])
  }

  lemma OnlyAskedOnce(log: seq<Entry>, devices: seq<Device>, k: nat, sent: seq<Entry>)
    requires sent == [] || sent == InTransaction(devices, ChannelPacket(SERIAL_BROADCAST, 0, 0, 0), k)
    ensures OnlyAsked(log, log + sent) && (sent != [] ==> |sent| == 1)
  {
    if sent != [] {
      ChannelIs(SERIAL_BROADCAST, 0, 0, 0);
      OneInTransaction(devices, ChannelPacket(SERIAL_BROADCAST, 0, 0, 0), k);
    }
  }

  lemma OnlyAskedMore(a: seq<Entry>, b: seq<Entry>, c: seq<Entry>)
    requires OnlyAsked(a, b) && OnlyAsked(b, c)
    ensures OnlyAsked(a, c)
  {
    assert c[..|a|] == c[..|b|][..|a|];
    forall k | |a| <= k < |c| ensures AsksWhoIsThere(c[k]) {
      assert k < |b| ==> c[k] == c[..|b|][k] == b[k];
    }
  }

  // ---- several attempts ----

  /** How discovery ends: whether an attempt worked, what the failed ones before it heard, and what
      the last one heard. */
  datatype Outcome = Outcome(ok: bool, stale: seq<Incoming>, last: seq<Incoming>)

  /** Discovery of `n` devices with so many attempts left. */
  function Discovery(incoming: seq<Incoming>, accepts: seq<bool>, n: nat, tries: nat): (o: Outcome)
    ensures |o.last| == if o.ok then n else 0
  {
    if tries == 0 then Outcome(false, [], [])
    else if !BtFraming.Accepted(accepts) then Discovery(incoming, BtFraming.Later(accepts), n, tries - 1)
    else
      var front := Front(incoming, n);
      if |front| == n then Outcome(true, [], front)
      else
        var o := Discovery(Behind(incoming, n), BtFraming.Later(accepts), n, tries - 1);
        Outcome(o.ok, front + o.stale, o.last)
  }

  /** In every attempt whose request goes out, either nothing is delivered before a failure, or
      everything. */
  predicate NothingBeforeFailure(incoming: seq<Incoming>, accepts: seq<bool>, n: nat, tries: nat) {
    tries == 0 || n == 0
    || (if !BtFraming.Accepted(accepts) then NothingBeforeFailure(incoming, BtFraming.Later(accepts), n, tries - 1)
        else if Next(incoming).Failure? then NothingBeforeFailure(LaterIn(incoming), BtFraming.Later(accepts), n, tries - 1)
        else AllDelivered(incoming, n))
  }

  lemma {:induction false} AllDeliveredIff(incoming: seq<Incoming>, n: nat)
    ensures AllDelivered(incoming, n) <==> |Front(incoming, n)| == n
  {
    if n > 0 && Next(incoming).Data? {
      AllDeliveredIff(incoming[1..], n - 1);
    }
  }

  /** A discovery that works in the end has heard nothing before exactly then. */
  lemma {:induction false} NothingStaleIff(incoming: seq<Incoming>, accepts: seq<bool>, n: nat, tries: nat)
    requires Discovery(incoming, accepts, n, tries).ok
    ensures Discovery(incoming, accepts, n, tries).stale == [] <==> NothingBeforeFailure(incoming, accepts, n, tries)
    decreases tries
  {
    if !BtFraming.Accepted(accepts) {
      NothingStaleIff(incoming, BtFraming.Later(accepts), n, tries - 1);
      if n == 0 {
        NothingStaleOfNone(incoming, BtFraming.Later(accepts), tries - 1);
      }
    } else {
      var front := Front(incoming, n);
      AllDeliveredIff(incoming, n);
      if |front| != n {
        NothingStaleIff(Behind(incoming, n), BtFraming.Later(accepts), n, tries - 1);
        if Next(incoming).Failure? {
          assert incoming[0..] == incoming;
        }
      }
    }
  }

  lemma {:induction false} NothingStaleOfNone(incoming: seq<Incoming>, accepts: seq<bool>, tries: nat)
    ensures Discovery(incoming, accepts, 0, tries).stale == []
    decreases tries
  {
    if tries > 0 && !BtFraming.Accepted(accepts) {
      NothingStaleOfNone(incoming, BtFraming.Later(accepts), tries - 1);
    }
  }

  lemma {:induction false} RemainsBehind(incoming: seq<Incoming>, n: nat, before: seq<Incoming>)
    requires Remains(incoming, before)
    ensures Remains(Behind(incoming, n), before)
  {
    var k := |Front(incoming, n)|;
    assert Remains(incoming[k..], before);
    RemainsLater(incoming[k..], before);
  }

  /** What the loop over the attempts keeps: `stale` is what was heard, and `o` what will be the
      outcome. */
  ghost predicate Trying(o: Outcome, stale: seq<Heard>, incoming: seq<Incoming>, accepts: seq<bool>, n: nat, tries: nat) {
    var rest := Discovery(incoming, accepts, n, tries);
    && o.ok == rest.ok && o.last == rest.last
    && |stale| <= |o.stale| && HeardAs(stale, o.stale[..|stale|]) && o.stale[|stale|..] == rest.stale
  }

  lemma StartTrying(incoming: seq<Incoming>, accepts: seq<bool>, n: nat, tries: nat)
    ensures Trying(Discovery(incoming, accepts, n, tries), [], incoming, accepts, n, tries)
  {
  }

  lemma TriedOnce(o: Outcome, stale: seq<Heard>, incoming: seq<Incoming>, accepts: seq<bool>, n: nat, tries: nat, news: seq<Heard>)
    requires Trying(o, stale, incoming, accepts, n, tries) && tries > 0
    requires if BtFraming.Accepted(accepts) then HeardAs(news, Front(incoming, n)) else news == []
    ensures BtFraming.Accepted(accepts) && |news| == n ==> o.ok && HeardAs(stale, o.stale) && HeardAs(news, o.last)
    ensures !(BtFraming.Accepted(accepts) && |news| == n) ==>
      Trying(o, stale + news, if BtFraming.Accepted(accepts) then Behind(incoming, n) else incoming, BtFraming.Later(accepts), n, tries - 1)
  {
    var rest := Discovery(incoming, accepts, n, tries);
    if BtFraming.Accepted(accepts) && |news| == n {
      assert o.stale[..|stale|] == o.stale;
    } else if BtFraming.Accepted(accepts) {
      var front := Front(incoming, n);
      var later := Discovery(Behind(incoming, n), BtFraming.Later(accepts), n, tries - 1);
      assert rest.stale == front + later.stale;
      HeardConcat(o.stale, stale, news, front, later.stale);
    } else {
      assert stale + [] == stale;
    }
  }

  lemma HeardConcat(all: seq<Incoming>, stale: seq<Heard>, news: seq<Heard>, front: seq<Incoming>, later: seq<Incoming>)
    requires |stale| <= |all| && HeardAs(stale, all[..|stale|]) && all[|stale|..] == front + later && HeardAs(news, front)
    ensures |stale + news| <= |all| && HeardAs(stale + news, all[..|stale + news|]) && all[|stale + news|..] == later
  {
    var k := |stale|;
    forall j | k <= j < |stale + news|
      ensures all[j] == Data((stale + news)[j].from, (stale + news)[j].bytes) && (stale + news)[j].limit == ROOM {
      assert all[j] == all[k..][j - k] == front[j - k];
      assert (stale + news)[j] == news[j - k];
    }
    assert all[|stale + news|..] == all[k..][|news|..];
  }

  predicate GrownBy(n: nat, devices: seq<Device>, before: seq<Device>) { |devices| == |before| + n }

  lemma GaveUp(o: Outcome, stale: seq<Heard>, incoming: seq<Incoming>, accepts: seq<bool>, n: nat)
    requires Trying(o, stale, incoming, accepts, n, 0)
    ensures !o.ok && HeardAs(stale, o.stale) && HeardAs([], o.last)
  {
    assert o.stale[..|stale|] == o.stale;
  }

  /** The list and the history hold what was there before the attempts, and what they have heard. */
  ghost predicate Grown(sma: Smadata2plus, devices: seq<Device>, heard: seq<Heard>, news: seq<Heard>)
    reads sma
  {
    sma.heard == heard + news && sma.devices == devices + Senders(news)
  }

  method DiscoverLoop(sma: Smadata2plus, n: nat, ghost o: Outcome) returns (ret: int, ghost stale: seq<Heard>, ghost last: seq<Heard>)
    requires sma.Idle() && Trying(o, [], sma.net.incoming, sma.net.accepts, n, NUM_RETRIES + 2)
    modifies sma, sma.net
    ensures sma.Idle() && Remains(sma.net.incoming, old(sma.net.incoming))
    ensures Grown(sma, old(sma.devices), old(sma.heard), stale + last) && Senders(stale + last) == Senders(stale) + Senders(last)
    ensures ret == (if o.ok then 0 else -1) && HeardAs(stale, o.stale) && HeardAs(last, o.last)
    ensures 1 <= |sma.begun| - |old(sma.begun)| <= 5
    ensures ret < 0 ==> |sma.begun| - |old(sma.begun)| == 5
    ensures OnlyAsked(old(sma.log), sma.log) && (ret == 0 ==> |sma.log| > |old(sma.log)|)
  {
    ghost var before, devices, heard, log := sma.net.incoming, sma.devices, sma.heard, sma.log;
    var cnt := 0;
    stale, last := [], [];
    while true
      invariant sma.Idle() && Grown(sma, devices, heard, stale) && last == []
      invariant Remains(sma.net.incoming, before) && OnlyAsked(log, sma.log)
      invariant 0 <= cnt <= NUM_RETRIES + 1 && |sma.begun| == |old(sma.begun)| + cnt
      invariant Trying(o, stale, sma.net.incoming, sma.net.accepts, n, NUM_RETRIES + 2 - cnt)
      decreases NUM_RETRIES + 1 - cnt
    {
      ghost var now := sma.log;
      ret, stale, last := DiscoverOnce(sma, n, o, stale, NUM_RETRIES + 2 - cnt, before, devices, heard);
      OnlyAskedMore(log, now, sma.log);
      if cnt > NUM_RETRIES && ret < 0 {
        GaveUp(o, stale, sma.net.incoming, sma.net.accepts, n);
        SendersConcat(stale, last);
        return;
      } else if ret < 0 {
        assert stale + last == stale;
        cnt := cnt + 1;
      } else {
        SendersConcat(stale, last);
        return;
      }
    }
  }

  /** Tries discovery up to five times. What the failed attempts have heard, `stale`, stays in the
      list in front of what the last one has heard. So the list grows by the `n` devices exactly if
      nothing was delivered before a failure. */
  method DiscoverRetrying(sma: Smadata2plus, n: nat) returns (ret: int, ghost stale: seq<Heard>, ghost last: seq<Heard>)
    requires sma.Idle()
    modifies sma, sma.net
    ensures sma.Idle() && sma.heard == old(sma.heard) + stale + last && Remains(sma.net.incoming, old(sma.net.incoming))
    ensures sma.devices == old(sma.devices) + Senders(stale) + Senders(last)
    ensures var o := Discovery(old(sma.net.incoming), old(sma.net.accepts), n, 5);
      ret == (if o.ok then 0 else -1) && HeardAs(stale, o.stale) && HeardAs(last, o.last)
    ensures ret == 0 ==> |last| == n
    ensures ret == 0 ==> (
      GrownBy(n, sma.devices, old(sma.devices))
      == NothingBeforeFailure(old(sma.net.incoming), old(sma.net.accepts), n, 5))
    ensures 1 <= |sma.begun| - |old(sma.begun)| <= 5
    ensures ret < 0 ==> |sma.begun| - |old(sma.begun)| == 5
    ensures OnlyAsked(old(sma.log), sma.log) && (ret == 0 ==> |sma.log| > |old(sma.log)|)
  {
    ghost var before, accepts := sma.net.incoming, sma.net.accepts;
    ghost var o := Discovery(before, accepts, n, NUM_RETRIES + 2);
    StartTrying(before, accepts, n, NUM_RETRIES + 2);
    ret, stale, last := DiscoverLoop(sma, n, o);
    assert sma.devices == old(sma.devices) + Senders(stale) + Senders(last);
    assert sma.heard == old(sma.heard) + stale + last;
    if ret == 0 {
      NothingStaleIff(before, accepts, n, NUM_RETRIES + 2);
    }
  }

  /** What an attempt hears and leaves, whatever it has sent. */
  method Attempt(sma: Smadata2plus, n: nat) returns (ret: int, ghost news: seq<Heard>)
    requires sma.Idle()
    modifies sma, sma.net
    ensures sma.Idle() && |sma.begun| == |old(sma.begun)| + 1
    ensures Grown(sma, old(sma.devices), old(sma.heard), news)
    ensures sma.net.accepts == BtFraming.Later(old(sma.net.accepts))
    ensures var ok := BtFraming.Accepted(old(sma.net.accepts));
      && (if ok then HeardAs(news, Front(old(sma.net.incoming), n)) else news == [])
      && sma.net.incoming == (if ok then Behind(old(sma.net.incoming), n) else old(sma.net.incoming))
      && ret == (if ok && |news| == n then 0 else -1)
    ensures OnlyAsked(old(sma.log), sma.log) && (ret == 0 ==> |sma.log| > |old(sma.log)|)
  {
    ghost var sent, devices, k := [], sma.devices, |sma.begun|;
    ret, sent, news := DiscoverDevices(sma, n);
    OnlyAskedOnce(old(sma.log), devices, k, sent);
    if ret == 0 {
      OneInTransaction(devices, ChannelPacket(SERIAL_BROADCAST, 0, 0, 0), k);
    }
  }

  lemma GrownTwice(devices: seq<Device>, heard: seq<Heard>, stale: seq<Heard>, news: seq<Heard>)
    ensures devices + Senders(stale) + Senders(news) == devices + Senders(stale + news)
    ensures heard + stale + news == heard + (stale + news)
  {
    SendersConcat(stale, news);
  }

  /** One attempt of several: what it hears is the last if it works, and stale otherwise. */
  method DiscoverOnce(sma: Smadata2plus, n: nat, ghost o: Outcome, ghost stale: seq<Heard>, ghost tries: nat,
      ghost before: seq<Incoming>, ghost devices: seq<Device>, ghost heard: seq<Heard>)
    returns (ret: int, ghost stale': seq<Heard>, ghost last: seq<Heard>)
    requires sma.Idle() && tries > 0 && Trying(o, stale, sma.net.incoming, sma.net.accepts, n, tries)
    requires Remains(sma.net.incoming, before) && Grown(sma, devices, heard, stale)
    modifies sma, sma.net
    ensures sma.Idle() && |sma.begun| == |old(sma.begun)| + 1
    ensures Remains(sma.net.incoming, before) && Grown(sma, devices, heard, stale' + last)
    ensures ret == 0 || ret == -1
    ensures OnlyAsked(old(sma.log), sma.log) && (ret == 0 ==> |sma.log| > |old(sma.log)|)
    ensures ret == 0 ==> o.ok && HeardAs(stale', o.stale) && HeardAs(last, o.last)
    ensures ret < 0 ==> last == [] && Trying(o, stale', sma.net.incoming, sma.net.accepts, n, tries - 1)
  {
    ghost var incoming, accepts := sma.net.incoming, sma.net.accepts;
    ghost var news;
    ret, news := Attempt(sma, n);
    GrownTwice(devices, heard, stale, news);
    TriedOnce(o, stale, incoming, accepts, n, tries, news);
    RemainsBehind(incoming, n, before);
    if ret == 0 {
      stale', last := stale, news;
    } else {
      stale', last := stale + news, [];
      assert stale' + last == stale + news;
    }
  }

  /** Two packets heard from the same sender with the same bytes. */
  lemma SameSender(sma: Smadata2plus, j: nat, k: nat)
    requires sma.Valid() && j < |sma.heard| && k < |sma.heard|
    requires sma.heard[j].from == sma.heard[k].from && sma.heard[j].bytes == sma.heard[k].bytes
    requires sma.heard[j].limit == sma.heard[k].limit
    ensures Sender(sma.heard[j]) == Sender(sma.heard[k])
  {
    assert Understood(sma.heard[j]) && Understood(sma.heard[k]);
  }

  lemma SecondAttempt(d: Incoming, e: Incoming)
    requires d.Data? && e.Data?
    ensures Discovery([d, Failure, d, e], [], 2, 5) == Outcome(true, [d], [d, e])
  {
    var incoming := [d, Failure, d, e];
    assert incoming[1..][0] == Failure;
    FrontIs(incoming, 2, 1);
    assert incoming[..1] == [d] && LaterIn(incoming[1..]) == [d, e];
    FrontIs([d, e], 2, 2);
    assert [d, e][..2] == [d, e];
    assert Discovery([d, e], [], 2, 4) == Outcome(true, [], [d, e]);
  }

  lemma SendersOfOne(h: Heard)
    ensures Senders([h]) == [Sender(h)]
  {
    SendersGrow([], h);
    assert [] + [h] == [h];
  }

  lemma SendersOfTwo(h: Heard, g: Heard)
    ensures Senders([h, g]) == [Sender(h), Sender(g)]
  {
    SendersGrow([h], g);
    SendersOfOne(h);
    assert [h] + [g] == [h, g];
  }

  /** Two devices, of which the first answers, then the connection fails once, then both answer:
      discovery works, and the first device is in the list twice. */
  method ListedTwice(mac: Mac, bytes: Delivered, mac': Mac, bytes': Delivered) returns (sma: Smadata2plus, ret: int)
    ensures ret == 0 && |sma.devices| == 3 && sma.devices[0] == sma.devices[1]
  {
    var d, e := Data(mac, bytes), Data(mac', bytes');
    var net := new Port([d, Failure, d, e], []);
    sma := new Smadata2plus(net);
    ghost var stale, last;
    SecondAttempt(d, e);
    ret, stale, last := DiscoverRetrying(sma, 2);
    assert HeardAs(stale, [d]) && HeardAs(last, [d, e]);
    assert sma.heard[0] == stale[0] && sma.heard[1] == last[0];
    SameSender(sma, 0, 1);
    assert stale == [stale[0]] && last == [last[0], last[1]];
    SendersOfOne(stale[0]);
    SendersOfTwo(last[0], last[1]);
  }

  // ---- opening a connection ----

  /** Tries to log in up to five times. What was sent is what the failed attempts have sent, `failed`, and what
      the last one has. */
  method AuthenticateRetrying(sma: Smadata2plus, password: seq<bv8>, now: int)
    returns (ret: int, ghost failed: seq<Entry>, ghost sent: seq<Entry>)
    requires sma.Idle()
    modifies sma, sma.net
    ensures sma.Idle() && sma.devices == old(sma.devices) && Remains(sma.net.incoming, old(sma.net.incoming))
    ensures -1 <= ret <= 0
    ensures 1 <= |sma.begun| - |old(sma.begun)| <= 5
    ensures ret < 0 ==> |sma.begun| - |old(sma.begun)| == 5
    ensures sma.log == old(sma.log) + failed + sent
    ensures ret == 0 ==> LoggedInAs(sma.devices, |sma.begun| - 1, password, now, sent)
  {
    ghost var before, log := sma.net.incoming, sma.log;
    var cnt := 0;
    failed := [];
    while true
      invariant sma.Idle() && sma.devices == old(sma.devices) && Remains(sma.net.incoming, before)
      invariant 0 <= cnt <= NUM_RETRIES + 1 && |sma.begun| == |old(sma.begun)| + cnt
      invariant sma.log == log + failed
      decreases NUM_RETRIES + 1 - cnt
    {
      ghost var incoming := sma.net.incoming;
      ghost var news;
      ret, sent, news := Authenticate(sma, password, now);
      RemainsRemains(sma.net.incoming, incoming, before);
      if cnt > NUM_RETRIES && ret < 0 {
        return;
      } else if ret < 0 {
        Regroup(log, failed, sent);
        failed := failed + sent;
        cnt := cnt + 1;
      } else {
        return;
      }
    }
  }

  lemma RemainsRemains(now: seq<Incoming>, mid: seq<Incoming>, before: seq<Incoming>)
    requires Remains(now, mid) && Remains(mid, before)
    ensures Remains(now, before)
  {
    assert now == before[|before| - |mid|..][|mid| - |now|..];
  }

  /** No payload is long enough for an answer about times. */
  predicate NoTimes(incoming: seq<Incoming>) {
    forall i :: i in incoming ==> !TellsTime(i)
  }

  lemma NoTimesLater(now: seq<Incoming>, before: seq<Incoming>)
    requires NoTimes(before) && Remains(now, before)
    ensures NoTimes(now) && !TellsTime(Next(now))
  {
  }

  /** One attempt. There has to be a device, unless no time comes. */
  method SyncOnce(sma: Smadata2plus, now: int, ghost before: seq<Incoming>) returns (ret: int, ghost sent: seq<Entry>, ghost a: Answer)
    requires sma.Idle() && Remains(sma.net.incoming, before) && (sma.devices != [] || NoTimes(before))
    modifies sma, sma.net
    ensures sma.Idle() && sma.devices == old(sma.devices) && Remains(sma.net.incoming, before)
    ensures -1 <= ret <= 0 && 1 <= |sma.begun| - |old(sma.begun)| <= 3 && sma.log == old(sma.log) + sent
    ensures ret == 0 ==> Clocked(sma.devices, |old(sma.begun)|, a.data, a.transactionCntr, now, sent)
  {
    ghost var k, incoming := |sma.begun|, sma.net.incoming;
    if sma.devices == [] {
      NoTimesLater(incoming, before);
    } else {
      FirstDeviceFound(sma.devices);
    }
    ghost var news, plan;
    ret, sent, news, plan := SyncTime(sma, now);
    a := if ret == 0 then news[0].answer else NO_ANSWER;
    RemainsRemains(sma.net.incoming, incoming, before);
    SyncTransactions(ret, sma.devices, k, plan, sent, |sma.begun| - k);
  }

  const NO_ANSWER := Answer(0, 0, 0, 0, 0, 0, false, 0, 0, [])

  /** Tries to set the time up to five times. The device that acknowledges the time is looked up without a test:
      there has to be one, unless no time comes. */
  method SyncTimeRetrying(sma: Smadata2plus, now: int)
    returns (ret: int, ghost failed: seq<Entry>, ghost sent: seq<Entry>, ghost at: nat, ghost a: Answer)
    requires sma.Idle() && (sma.devices != [] || NoTimes(sma.net.incoming))
    modifies sma, sma.net
    ensures sma.Idle() && sma.devices == old(sma.devices)
    ensures -1 <= ret <= 0
    ensures 1 <= |sma.begun| - |old(sma.begun)| <= 15
    ensures sma.log == old(sma.log) + failed + sent
    ensures ret == 0 ==> at < |sma.begun| && Clocked(sma.devices, at, a.data, a.transactionCntr, now, sent)
  {
    ghost var before, log := sma.net.incoming, sma.log;
    var cnt := 0;
    failed := [];
    while true
      invariant sma.Idle() && sma.devices == old(sma.devices) && Remains(sma.net.incoming, before)
      invariant 0 <= cnt <= NUM_RETRIES + 1 && sma.log == log + failed
      invariant cnt <= |sma.begun| - |old(sma.begun)| <= 3 * cnt
      decreases NUM_RETRIES + 1 - cnt
    {
      at := |sma.begun|;
      ret, sent, a := SyncOnce(sma, now, before);
      if cnt > NUM_RETRIES && ret < 0 {
        return;
      } else if ret < 0 {
        Regroup(log, failed, sent);
        failed := failed + sent;
        cnt := cnt + 1;
      } else {
        return;
      }
    }
  }

  /** A loop up to a negative number does nothing. */
  function AtLeastZero(n: int): nat { if n < 0 then 0 else n }

  ghost predicate LogsOut(sent: seq<Entry>, k: nat) {
    && |sent| == 1 && sent[0].owner == Within(k)
    && sent[0].packet.ctrl == 0xa0 && sent[0].packet.dstSerial == 0xffff_ffff && sent[0].packet.flag == 0x03
    && sent[0].packet.packetNum == 0 && sent[0].packet.start && |sent[0].packet.data| == 8
    && U32(sent[0].packet.data, 0) == 0xfffd_010e && U32(sent[0].packet.data, 4) == 0xffff_ffff
    && sent[0].sysId == 0xffff && sent[0].mac == [0xff, 0xff, 0xff, 0xff, 0xff, 0xff]
  }

  lemma LogoutLogsOut(devices: seq<Device>, k: nat)
    ensures LogsOut(InTransaction(devices, LogoutPacket(), k), k)
  {
    LogoutIs();
    OneInTransaction(devices, LogoutPacket(), k);
  }

  /** What was sent to find the devices: the logout, and at least one request if that worked. */
  ghost predicate Searched(ret: int, before: seq<Entry>, after: seq<Entry>, logout: seq<Entry>, k: nat) {
    && (logout == [] ==> ret < 0) && (logout != [] ==> LogsOut(logout, k))
    && OnlyAsked(before + logout, after) && (ret == 0 ==> |after| > |before + logout|)
  }

  method FindDevices(sma: Smadata2plus, n: nat) returns (ret: int, ghost logout: seq<Entry>)
    requires sma.Idle()
    modifies sma, sma.net
    ensures sma.Idle() && -1 <= ret <= 0 && Remains(sma.net.incoming, old(sma.net.incoming))
    ensures ret == 0 ==> (
      GrownBy(n, sma.devices, old(sma.devices))
      == NothingBeforeFailure(old(sma.net.incoming), BtFraming.Later(old(sma.net.accepts)), n, 5))
    ensures |sma.devices| >= |old(sma.devices)| && (ret == 0 ==> |sma.devices| >= |old(sma.devices)| + n)
    ensures 1 <= |sma.begun| - |old(sma.begun)| <= 6
    ensures Searched(ret, old(sma.log), sma.log, logout, |old(sma.begun)|)
  {
    ghost var log, devices, k := sma.log, sma.devices, |sma.begun|;
    logout := [];
    LogoutLogsOut(devices, k);
    ret := Logout(sma);
    if ret < 0 {
      assert log + logout == log;
      return;
    }
    logout := InTransaction(devices, LogoutPacket(), k);
    ghost var stale, last;
    ret, stale, last := DiscoverRetrying(sma, n);
  }

  /** What was sent to log in and set the time: what failed attempts have sent, and what the last ones have. */
  datatype Opening = Opening(failedLogins: seq<Entry>, login: seq<Entry>, loginAt: nat, failedSyncs: seq<Entry>, sync: seq<Entry>,
    syncAt: nat, answer: Answer)

  ghost predicate Opened(ret: int, before: seq<Entry>, after: seq<Entry>, o: Opening, devices: seq<Device>, password: seq<bv8>, now: int) {
    && after == before + o.failedLogins + o.login + (o.failedSyncs + o.sync)
    && (ret == 0 ==>
          && LoggedInAs(devices, o.loginAt, password, now, o.login)
          && Clocked(devices, o.syncAt, o.answer.data, o.answer.transactionCntr, now, o.sync))
  }

  method OpenSession(sma: Smadata2plus, password: seq<bv8>, now: int, ghost before: seq<Incoming>) returns (ret: int, ghost o: Opening)
    requires sma.Idle() && Remains(sma.net.incoming, before) && (sma.devices != [] || NoTimes(before))
    modifies sma, sma.net
    ensures sma.Idle() && -1 <= ret <= 0 && sma.devices == old(sma.devices)
    ensures 1 <= |sma.begun| - |old(sma.begun)| <= 20
    ensures Opened(ret, old(sma.log), sma.log, o, sma.devices, password, now)
  {
    ghost var log, rest, failed, sent := sma.log, sma.net.incoming, [], [];
    ret, failed, sent := AuthenticateRetrying(sma, password, now);
    o := Opening(failed, sent, |sma.begun| - 1, [], [], 0, NO_ANSWER);
    if ret < 0 {
      assert log + failed + sent + ([] + []) == log + failed + sent;
      return;
    }
    RemainsRemains(sma.net.incoming, rest, before);
    if sma.devices == [] {
      NoTimesLater(sma.net.incoming, before);
    }
    ghost var failedSyncs, sync, at, a;
    ret, failedSyncs, sync, at, a := SyncTimeRetrying(sma, now);
    Regroup(log + failed + sent, failedSyncs, sync);
    o := o.(failedSyncs := failedSyncs, sync := sync, syncAt := at, answer := a);
  }

  /** Everything that follows the Bluetooth connection. Whichever step fails, no transaction is left
      open. If it works, the list has grown by the devices that were asked for exactly if nothing was
      delivered before a failure of discovery; and the logout was sent first, then requests for the devices, then
      what logs in, and last what sets the time. */
  method Connect(sma: Smadata2plus, deviceNum: int, password: seq<bv8>, now: int)
    returns (ret: int, ghost logout: seq<Entry>, ghost middle: seq<Entry>, ghost o: Opening)
    requires sma.Idle() && (deviceNum > 0 || sma.devices != [] || NoTimes(sma.net.incoming))
    modifies sma, sma.net
    ensures sma.Idle() && -1 <= ret <= 0
    ensures ret == 0 ==> (
      GrownBy(AtLeastZero(deviceNum), sma.devices, old(sma.devices))
      == NothingBeforeFailure(old(sma.net.incoming), BtFraming.Later(old(sma.net.accepts)), AtLeastZero(deviceNum), 5))
    ensures ret == 0 ==> |sma.devices| >= |old(sma.devices)| + AtLeastZero(deviceNum)
    ensures 1 <= |sma.begun| - |old(sma.begun)| <= 26
    ensures ret == 0 ==> (
      Searched(0, old(sma.log), middle, logout, |old(sma.begun)|) && Opened(0, middle, sma.log, o, sma.devices, password, now))
  {
    ghost var incoming := sma.net.incoming;
    o := Opening([], [], 0, [], [], 0, NO_ANSWER);
    ret, logout := FindDevices(sma, AtLeastZero(deviceNum));
    middle := sma.log;
    if ret < 0 {
      return;
    }
    ret, o := OpenSession(sma, password, now, incoming);
  }
}
