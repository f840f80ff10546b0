/** The framing layer of src/smanet.cpp: it frames what is written and rebuilds frames from packets
    that cut the stream anywhere. */
module Smanet {
  import opened Fcs
  import opened Hdlc
  import opened Fetch
  import opened Common
  import opened Walking

  // ---- the connection below, as this layer sees it ----

  const MAX_PACKET := 237

  /** The packets that wait to be read and those that were sent. */
  class Link {
    var packets: seq<seq<bv8>>
    var sent: seq<(seq<bv8>, seq<bv8>)>

    constructor (packets: seq<seq<bv8>>)
      ensures this.packets == packets && sent == []
    {
      this.packets := packets;
      sent := [];
    }

    /** Takes one packet and copies at most `maxlen` bytes of it, the rest is dropped. Without a
        packet the call times out with 0. */
    method Read(data: array<bv8>, at: nat, maxlen: nat) returns (n: nat)
      requires at + maxlen <= data.Length
      modifies `packets, data
      ensures old(packets) == [] ==> n == 0 && packets == []
      ensures old(packets) != [] ==>
        && packets == old(packets)[1..]
        && n == (if |old(packets)[0]| <= maxlen then |old(packets)[0]| else maxlen)
        && data[at..at + n] == old(packets)[0][..n]
      ensures data[..at] == old(data[..at])
      ensures forall k :: at + n <= k < data.Length ==> data[k] == old(data[k])
    {
      if packets == [] {
        return 0;
      }
      var p := packets[0];
      packets := packets[1..];
      n := if |p| <= maxlen then |p| else maxlen;
      forall k | 0 <= k < n {
        data[at + k] := p[k];
      }
    }

    method Write(data: array<bv8>, len: nat, to: seq<bv8>) returns (r: int)
      requires len <= data.Length
      modifies `sent
      ensures r == if |to| == 6 && len <= MAX_PACKET then 0 else -1
      ensures sent == if r == 0 then old(sent) + [(to, data[..len])] else old(sent)
    {
      if |to| != 6 || len > MAX_PACKET {
        return -1;
      }
      sent := sent + [(to, data[..len])];
      return 0;
    }
  }

  // ---- what a frame is worth ----

  /** Payload, a frame `validateFrame` or the size test throws away, or one of four or five bytes
      whose checksum is good, for which the length computation underflows. */
  datatype Verdict = Payload(data: seq<bv8>) | Rejected | Underflow

  function Judge(content: seq<bv8>): Verdict {
    if !Good(content) || |content| < 4 then Rejected
    else if |content| < 6 then Underflow
    else Payload(content[4..|content| - 2])
  }

  /** The value `read` returns for a frame when the caller has room for `len` bytes. */
  function Returned(content: seq<bv8>, len: int): int {
    match Judge(content)
    case Payload(d) => Min(|d|, len)
    case Rejected => -1
    case Underflow => Min(65536 + |content| - 6, len)
  }

  // ---- the frame a payload is sent as ----

  function Header(protocol: bv16): (h: seq<bv8>)
    ensures |h| == 4
  {
    [0xff, 0x03, Low(protocol), High(protocol)]
  }

  function Content(protocol: bv16, data: seq<bv8>): seq<bv8> {
    Header(protocol) + data
  }

  /** Between the flags only the payload is stuffed: protocol and checksum go out as they are. */
  function Body(protocol: bv16, data: seq<bv8>): seq<bv8> {
    Header(protocol) + Stuff(data) + Trailer(Content(protocol, data))
  }

  function WireFrame(protocol: bv16, data: seq<bv8>): seq<bv8> {
    [HDLC_SYNC] + Body(protocol, data) + [HDLC_SYNC]
  }

  /** What one `read` call returns and hands over, given what the next frame is. */
  ghost predicate HandedOver(scan: Scan, len: nat, ret: int, before: seq<bv8>, after: seq<bv8>) {
    match scan
    case Frame(content, _) =>
      && ret == Returned(content, len)
      && (Judge(content).Payload? ==>
            ret <= |before| && after == Judge(content).data[..ret] + before[ret..])
      && (Judge(content).Rejected? ==> after == before)
    case Incomplete => ret == 0 && after == before
    case TooBig(_) => ret == -1 && after == before
  }

  /** What it leaves pending. */
  ghost predicate Left(scan: Scan, pending: seq<bv8>, left: seq<bv8>) {
    match scan
    case Frame(_, rest) => left == rest
    case Incomplete => left == []
    case TooBig(rest) => Replays(pending, rest, left)
  }

  /** `left` is a suffix of `pending` that is longer than `rest`: bytes are read a second time. */
  ghost predicate Replays(pending: seq<bv8>, rest: seq<bv8>, left: seq<bv8>) {
    |rest| < |left| <= |pending| && pending[|pending| - |left|..] == left
  }

  ghost predicate Suffix(s: seq<bv8>, of: seq<bv8>) {
    |s| <= |of| && of[|of| - |s|..] == s
  }

  /** The complemented checksum over the four header bytes in `buf` and the payload. */
  method Checksum(buf: array<bv8>, data: array<bv8>, len: nat) returns (fcs: bv16)
    requires buf.Length == FRAME_SIZE && len <= data.Length
    ensures fcs == Over(PPP_INIT_FCS, buf[1..5] + data[..len]) ^ 0xffff
  {
    fcs := FcsCalc(PPP_INIT_FCS, buf, 1, 4);
    fcs := FcsCalc(fcs, data, 0, len);
    assert data[0..0 + len] == data[..len] && buf[1..1 + 4] == buf[1..5];
    OverConcat(PPP_INIT_FCS, buf[1..5], data[..len]);
    fcs := fcs ^ 0xffff;
  }

  lemma WireFrameParts(protocol: bv16, data: seq<bv8>, fcs: bv16)
    requires fcs == Over(PPP_INIT_FCS, Content(protocol, data)) ^ 0xffff
    ensures [HDLC_SYNC] + Header(protocol) + Stuff(data) + [Low(fcs), High(fcs), HDLC_SYNC] == WireFrame(protocol, data)
  {
    var t := Trailer(Content(protocol, data));
    assert [Low(fcs), High(fcs), HDLC_SYNC] == t + [HDLC_SYNC];
    BetweenFlags(Header(protocol), Stuff(data), t);
  }

  lemma BetweenFlags(h: seq<bv8>, d: seq<bv8>, t: seq<bv8>)
    ensures [HDLC_SYNC] + h + d + (t + [HDLC_SYNC]) == [HDLC_SYNC] + (h + d + t) + [HDLC_SYNC]
  {
  }

  /** `u16` arithmetic on the index of the frame buffer. */
  function Wrap16(i: int): (w: nat)
    ensures w < 65536 && (0 <= i < 65536 ==> w == i) && (-65536 <= i < 0 ==> w == 65536 + i) && (i == 65536 ==> w == 0)
  {
    i % 65536
  }

  // How the loop on the buffer follows the one on values.

  /** One round without a closing flag: `n` of the bytes are used up and the frame so far, `acc`,
      becomes `grown`; `behind` is what the buffer holds behind the bytes. */
  ghost predicate TookBytes(acc: seq<bv8>, bytes: seq<bv8>, n: nat, grown: seq<bv8>, behind: bv8)
    requires bytes != []
  {
    if bytes[0] == HDLC_SYNC then
      acc == [] && grown == [] && 1 <= n <= |bytes| && forall k :: 0 <= k < n ==> bytes[k] == HDLC_SYNC
    else if bytes[0] == HDLC_ESC then
      n == 2 && grown == acc + [Flip(if |bytes| >= 2 then bytes[1] else behind)]
    else
      n == 1 && grown == acc + [bytes[0]]
  }

  function From(bytes: seq<bv8>, n: nat): seq<bv8> { if n <= |bytes| then bytes[n..] else [] }

  lemma {:induction false} WalkSkips(bytes: seq<bv8>, m: bv8, packets: seq<seq<bv8>>, n: nat)
    requires 1 <= n <= |bytes| && forall k :: 0 <= k < n ==> bytes[k] == HDLC_SYNC
    ensures WalkNow([], bytes, m, packets) == Walk([], bytes[n..], m, packets)
    decreases n
  {
    if n > 1 {
      assert bytes[1..][0] == HDLC_SYNC;
      WalkSkips(bytes[1..], m, packets, n - 1);
      assert bytes[1..][n - 1..] == bytes[n..];
    }
  }

  /** A round takes the first bytes off, or an escape and the byte behind it. */
  lemma RoundTakes(acc: seq<bv8>, bytes: seq<bv8>, m: bv8, packets: seq<seq<bv8>>, n: nat, grown: seq<bv8>, behind: bv8)
    requires |acc| < FRAME_SIZE && bytes != [] && TookBytes(acc, bytes, n, grown, behind)
    requires bytes == [HDLC_ESC] ==> behind == m
    ensures WalkNow(acc, bytes, m, packets) == Walk(grown, From(bytes, n), m, packets)
  {
    if bytes[0] == HDLC_SYNC {
      WalkSkips(bytes, m, packets, n);
    } else if bytes[0] == HDLC_ESC && |bytes| == 1 {
      assert bytes == [HDLC_ESC];
    }
  }

  /** What a call of `read` is to do: how it stops, and the bytes pending when it was made. */
  datatype Aim = Aim(stop: Stop, pending: seq<bv8>)

  /** What the reading loop keeps: `held` is the buffer, `m` its second byte, used up to `pos`, `acc`
      the frame so far. */
  ghost predicate Following(packets: seq<seq<bv8>>, held: seq<bv8>, m: bv8, pos: nat, acc: seq<bv8>, aim: Aim) {
    && Sized(packets) && Suffix(held + Flat(packets), aim.pending)
    && Walk(acc, From(held, pos), m, packets) == aim.stop
  }

  /** The same after the buffer was looked after. */
  ghost predicate FollowingNow(packets: seq<seq<bv8>>, held: seq<bv8>, m: bv8, pos: nat, acc: seq<bv8>, aim: Aim) {
    && Sized(packets) && Suffix(held + Flat(packets), aim.pending)
    && WalkNow(acc, From(held, pos), m, packets) == aim.stop
  }

  function AimOf(packets: seq<seq<bv8>>, held: seq<bv8>, m: bv8): Aim {
    Aim(Walk([], held, m, packets), held + Flat(packets))
  }

  lemma StartFollowing(packets: seq<seq<bv8>>, held: seq<bv8>, m: bv8)
    requires Sized(packets)
    ensures Following(packets, held, m, 0, [], AimOf(packets, held, m))
  {
    assert From(held, 0) == held;
  }

  lemma RoundFollows(packets: seq<seq<bv8>>, held: seq<bv8>, m: bv8, pos: nat, acc: seq<bv8>, aim: Aim,
      n: nat, grown: seq<bv8>, behind: bv8)
    requires FollowingNow(packets, held, m, pos, acc, aim) && pos < |held| && |acc| < FRAME_SIZE
    requires TookBytes(acc, held[pos..], n, grown, behind)
    requires held[pos..] == [HDLC_ESC] ==> behind == m
    ensures Following(packets, held, m, pos + n, grown, aim)
  {
    RoundTakes(acc, held[pos..], m, packets, n, grown, behind);
    assert From(held[pos..], n) == From(held, pos + n);
  }

  lemma FlagFollows(packets: seq<seq<bv8>>, held: seq<bv8>, m: bv8, pos: nat, acc: seq<bv8>, aim: Aim)
    requires FollowingNow(packets, held, m, pos, acc, aim) && pos < |held| && 0 < |acc| < FRAME_SIZE
    requires held[pos] == HDLC_SYNC
    ensures aim.stop == Closed(acc, held[pos..], m, packets)
  {
  }

  lemma EmptyFollows(packets: seq<seq<bv8>>, m: bv8, pos: nat, acc: seq<bv8>, aim: Aim)
    requires FollowingNow(packets, [], m, pos, acc, aim)
    ensures aim.stop == Dry
  {
    assert From([], pos) == [];
  }

  /** After an oversized frame the buffer is kept but the position in it is forgotten. */
  lemma LosesPosition(packets: seq<seq<bv8>>, held: seq<bv8>, m: bv8, pos: nat, acc: seq<bv8>, aim: Aim)
    requires Following(packets, held, m, pos, acc, aim) && |acc| >= FRAME_SIZE
    requires held != [] && pos > 0
    ensures aim.stop.Full? && Replays(aim.pending, aim.stop.bytes + Flat(aim.stop.packets), held + Flat(packets))
  {
  }

  // How looking after the buffer follows it.

  lemma NoFetchFollows(packets: seq<seq<bv8>>, held: seq<bv8>, m: bv8, pos: nat, acc: seq<bv8>, aim: Aim)
    requires Following(packets, held, m, pos, acc, aim) && |acc| < FRAME_SIZE
    requires packets == [] || |From(held, pos)| >= 2 || From(held, pos) == [HDLC_SYNC]
    ensures FollowingNow(packets, held, m, pos, acc, aim)
  {
  }

  lemma RestFollows(packets: seq<seq<bv8>>, held: seq<bv8>, pos: nat, pending: seq<bv8>, kept: seq<bv8>)
    requires packets != [] && kept == From(held, pos) && Suffix(held + Flat(packets), pending)
    ensures Suffix(kept + packets[0] + Flat(packets[1..]), pending)
  {
    var all := Flat(packets);
    RestIsSuffix(held, pos, all);
    Regroup(kept, packets[0], Flat(packets[1..]));
    SuffixOfSuffix(kept + all, held + all, pending);
  }

  /** A packet fetched into the used-up buffer. */
  lemma EmptyFetchFollows(packets: seq<seq<bv8>>, held: seq<bv8>, m: bv8, pos: nat, acc: seq<bv8>, aim: Aim)
    requires Following(packets, held, m, pos, acc, aim) && pos >= |held| && packets != [] && |acc| < FRAME_SIZE
    ensures FollowingNow(packets[1..], packets[0], Memory(packets[0], 0, m), 0, acc, aim)
  {
    SizedRest(packets);
    RestFollows(packets, held, pos, aim.pending, []);
    assert [] + packets[0] == packets[0] && From(packets[0], 0) == packets[0] && From(held, pos) == [];
  }

  /** A packet fetched behind the last byte. */
  lemma BehindFetchFollows(packets: seq<seq<bv8>>, held: seq<bv8>, m: bv8, pos: nat, acc: seq<bv8>, aim: Aim, x: bv8)
    requires Following(packets, held, m, pos, acc, aim) && packets != [] && |acc| < FRAME_SIZE
    requires From(held, pos) == [x] && x != HDLC_SYNC
    ensures FollowingNow(packets[1..], [x] + packets[0], Memory(packets[0], 1, m), 0, acc, aim)
  {
    SizedRest(packets);
    RestFollows(packets, held, pos, aim.pending, [x]);
    assert From([x] + packets[0], 0) == [x] + packets[0];
  }

  /** No packet came: the last byte is in front now. */
  lemma LastFollows(packets: seq<seq<bv8>>, held: seq<bv8>, m: bv8, pos: nat, acc: seq<bv8>, aim: Aim, held': seq<bv8>)
    requires Following(packets, held, m, pos, acc, aim) && packets == [] && held' == From(held, pos) && |acc| < FRAME_SIZE
    ensures FollowingNow(packets, held', m, 0, acc, aim)
  {
    assert From(held', 0) == held';
    RestIsSuffix(held, pos, Flat(packets));
    SuffixOfSuffix(held' + Flat(packets), held + Flat(packets), aim.pending);
  }

  lemma RestIsSuffix(held: seq<bv8>, pos: nat, more: seq<bv8>)
    ensures Suffix(From(held, pos) + more, held + more)
  {
    if pos <= |held| {
      assert held + more == held[..pos] + (held[pos..] + more);
    } else {
      assert [] + more == more;
    }
  }

  lemma SuffixOfSuffix(a: seq<bv8>, b: seq<bv8>, c: seq<bv8>)
    requires Suffix(a, b) && Suffix(b, c)
    ensures Suffix(a, c)
  {
  }

  method Store(buf: array<bv8>, i: nat, b: bv8)
    requires i < buf.Length
    modifies buf
    ensures buf[..i + 1] == old(buf[..i]) + [b]
  {
    buf[i] := b;
  }

  /** Checks the `i` bytes of a frame and hands its payload to the caller. The length computation
      is done on 16 bits, and the copy reads on behind a frame that is too short for it. */
  method Deliver(buf: array<bv8>, i: nat, data: array<bv8>, len: nat) returns (ret: int)
    requires buf.Length == FRAME_SIZE && i < FRAME_SIZE && data != buf && 0 < len <= data.Length
    modifies data
    ensures ret == Returned(old(buf[..i]), len)
    ensures Judge(old(buf[..i])).Payload? ==>
      0 <= ret <= data.Length && data[..] == Judge(old(buf[..i])).data[..ret] + old(data[..])[ret..]
    ensures Judge(old(buf[..i])).Rejected? ==> data[..] == old(data[..])
  {
    ghost var content, before := buf[..i], data[..];
    var v := ValidateFrame(buf, i);
    if v < 0 {
      return -1;
    }
    if i < 4 {
      return -1;
    }
    var n := Wrap16(i - 6);
    ret := if n < len then n else len;
    forall k | 0 <= k < ret && k + 4 < FRAME_SIZE {
      data[k] := buf[4 + k];
    }
    if Judge(content).Payload? {
      Copied(content, ret, before, data[..]);
    }
  }

  lemma Copied(content: seq<bv8>, ret: nat, before: seq<bv8>, after: seq<bv8>)
    requires Judge(content).Payload? && ret <= |Judge(content).data| && ret <= |before| == |after|
    requires forall k :: 0 <= k < ret ==> after[k] == content[4 + k]
    requires forall k :: ret <= k < |after| ==> after[k] == before[k]
    ensures after == Judge(content).data[..ret] + before[ret..]
  {
  }

  /** What the decoder says about a call: it agrees with it on the stream as it is seen, and on the
      stream itself if that is what is seen. */
  lemma StopIsDecoded(held: seq<bv8>, m: bv8, packets: seq<seq<bv8>>)
    requires Sized(packets)
    ensures var stop, served := Walk([], held, m, packets), Served(held, packets);
      && Agrees(stop, ScanStream(Seen(held, m, packets)))
      && Leaves([], held, packets, served, stop)
      && (served ==> AgreesPlainly(stop, ScanStream(held + Flat(packets))))
  {
    WalkIsScan([], held, m, packets);
    WalkLeaves([], held, m, packets);
    var stop := Walk([], held, m, packets);
    if Served(held, packets) {
      SeenIsStreamIff(held, m, packets);
      if stop.Closed? || stop.Full? {
        SeenIsStreamIff(stop.bytes, stop.m, stop.packets);
      }
    }
  }

  predicate AgreesPlainly(stop: Stop, scan: Scan) {
    match stop
    case Closed(c, bytes, _, packets) => scan == Frame(c, bytes + Flat(packets))
    case Dry => scan == Incomplete
    case Full(bytes, _, packets) => scan == TooBig(bytes + Flat(packets))
  }

  class Smanet {
    const protocol: bv16
    const con: Link
    const readBuf: array<bv8>
    var size: nat

    ghost predicate Valid()
      reads this
    {
      readBuf.Length == BUF_SIZE && size <= BUF_SIZE
    }

    /** The bytes not yet decoded: what is left in the buffer, then what the packets still hold. */
    ghost function Pending(): seq<bv8>
      requires Valid()
      reads this, con, readBuf
    {
      readBuf[..size] + Flat(con.packets)
    }

    /** The pending bytes as the reader sees them. */
    ghost function Visible(): seq<bv8>
      requires Valid()
      reads this, con, readBuf
    {
      Seen(readBuf[..size], readBuf[1], con.packets)
    }

    /** They are seen as they are: no single escape comes into a used-up buffer. */
    ghost predicate Undisturbed()
      reads this, con, readBuf
    {
      Valid() && Sized(con.packets) && Served(readBuf[..size], con.packets)
    }

    ghost function AimNow(): Aim
      requires Valid()
      reads this, con, readBuf
    {
      AimOf(con.packets, readBuf[..size], readBuf[1])
    }

    constructor (protocol: bv16, con: Link)
      ensures Valid() && fresh(readBuf) && this.protocol == protocol && this.con == con
      ensures Pending() == Flat(con.packets)
    {
      this.protocol := protocol;
      this.con := con;
      readBuf := new bv8[BUF_SIZE];
      size := 0;
    }

    /** The next packet, as much of it as fits, replaces the buffer. */
    method FillEmpty()
      requires Valid()
      modifies this`size, con`packets, readBuf
      ensures Valid()
      ensures old(con.packets) == [] ==> size == 0 && con.packets == [] && readBuf[1] == old(readBuf[1])
      ensures old(con.packets) != [] ==> con.packets == old(con.packets)[1..]
      ensures old(con.packets) != [] && Sized(old(con.packets)) ==> (
        readBuf[..size] == old(con.packets)[0] && readBuf[1] == Memory(old(con.packets)[0], 0, old(readBuf[1])))
    {
      ghost var packets := con.packets;
      var n := con.Read(readBuf, 0, BUF_SIZE);
      size := n;
      assert readBuf[0..0 + n] == readBuf[..n];
      if packets != [] && Sized(packets) {
        assert packets[0][..n] == packets[0];
        assert n >= 2 ==> readBuf[1] == readBuf[..n][1];
      }
    }

    /** The last byte moves to the front and the next packet follows it. */
    method FillBehindLast()
      requires Valid() && size > 0
      modifies this`size, con`packets, readBuf
      ensures Valid() && size > 0
      ensures old(con.packets) == [] ==> (
        con.packets == [] && readBuf[..size] == [old(readBuf[size - 1])] && readBuf[1] == old(readBuf[1]))
      ensures old(con.packets) != [] ==> con.packets == old(con.packets)[1..]
      ensures old(con.packets) != [] && Sized(old(con.packets)) ==> (
        readBuf[..size] == [old(readBuf[size - 1])] + old(con.packets)[0]
        && readBuf[1] == Memory(old(con.packets)[0], 1, old(readBuf[1])) && size >= 2)
    {
      ghost var packets, last := con.packets, readBuf[size - 1];
      readBuf[0] := readBuf[size - 1];
      var n := con.Read(readBuf, 1, BUF_SIZE - 1);
      size := n + 1;
      assert readBuf[..1] == [last];
      assert readBuf[..1 + n] == readBuf[..1] + readBuf[1..1 + n];
      if packets != [] && Sized(packets) {
        assert packets[0][..n] == packets[0];
        assert readBuf[1] == readBuf[1..1 + n][0];
      }
    }

    /** Gets more bytes when the buffer is used up. When one byte is left that could be an escape,
        it is kept, so that its partner ends up behind it. */
    method Refill(pos: nat, ghost acc: seq<bv8>, ghost aim: Aim) returns (p: nat)
      requires Valid() && pos <= size + 1 && |acc| < FRAME_SIZE
      modifies this`size, con`packets, readBuf
      ensures Valid()
      ensures size > 0 ==> p < size
      ensures p + 1 == size && readBuf[p] != HDLC_SYNC ==> p == 0
      ensures |con.packets| < |old(con.packets)|
        || (con.packets == old(con.packets) && (size == 0 || size - p == old(size) - pos))
      ensures old(Following(con.packets, readBuf[..size], readBuf[1], pos, acc, aim)) ==> (
        FollowingNow(con.packets, readBuf[..size], readBuf[1], p, acc, aim) && (size == 0 ==> con.packets == []))
    {
      p := pos;
      ghost var held, m, packets := readBuf[..size], readBuf[1], con.packets;
      ghost var follows := Following(packets, held, m, pos, acc, aim);
      if pos >= size {
        FillEmpty();
        p := 0;
        if follows && packets == [] {
          LastFollows(packets, held, m, pos, acc, aim, readBuf[..size]);
        } else if follows {
          EmptyFetchFollows(packets, held, m, pos, acc, aim);
        }
      } else if pos + 1 == size && readBuf[pos] != HDLC_SYNC {
        assert From(held, pos) == [held[pos]];
        FillBehindLast();
        p := 0;
        if follows && packets == [] {
          LastFollows(packets, held, m, pos, acc, aim, readBuf[..size]);
        } else if follows {
          BehindFetchFollows(packets, held, m, pos, acc, aim, held[pos]);
        }
      } else if follows {
        NoFetchFollows(packets, held, m, pos, acc, aim);
      }
    }

    /** Skips a run of flags. */
    method SkipFlags(pos: nat) returns (p: nat)
      requires Valid() && pos < size && readBuf[pos] == HDLC_SYNC
      ensures pos < p <= size
      ensures forall k :: pos <= k < p ==> readBuf[k] == HDLC_SYNC
      ensures p < size ==> readBuf[p] != HDLC_SYNC
    {
      p := pos;
      while p < size && readBuf[p] == HDLC_SYNC
        invariant pos <= p <= size
        invariant forall k :: pos <= k < p ==> readBuf[k] == HDLC_SYNC
      {
        p := p + 1;
      }
    }

    /** Moves the bytes from `pos` on to the front of the buffer. */
    method MoveDown(pos: nat)
      requires Valid() && pos <= size
      modifies this`size, readBuf
      ensures Valid() && size == old(size) - pos && readBuf[..size] == old(readBuf[pos..size])
      ensures readBuf[1] == Moved(readBuf[..size], old(readBuf[1]))
    {
      size := size - pos;
      forall k | 0 <= k < size {
        readBuf[k] := readBuf[pos + k];
      }
      assert size >= 2 ==> readBuf[1] == readBuf[..size][1];
    }

    /** One round of the reading loop, once the buffer holds a byte: index `i` of the frame buffer
        wraps below zero when flags are skipped, and the loop increment brings it back. */
    method TakeByte(buf: array<bv8>, i: nat, pos: nat) returns (j: nat, p: nat, sync: bool)
      requires Valid() && buf != readBuf && buf.Length == FRAME_SIZE
      requires i < FRAME_SIZE && pos < size
      requires readBuf[pos] == HDLC_ESC ==> pos + 1 < BUF_SIZE
      modifies this`size, readBuf, buf
      ensures Valid() && j <= FRAME_SIZE
      ensures sync <==> old(readBuf[pos]) == HDLC_SYNC && i > 0
      ensures sync ==> j == i && buf[..j] == old(buf[..i]) && readBuf[..size] == old(readBuf[pos..size])
      ensures sync ==> readBuf[1] == Moved(readBuf[..size], old(readBuf[1]))
      ensures !sync ==> (
        && size == old(size) && readBuf[..] == old(readBuf[..]) && pos < p <= size + 1
        && TookBytes(old(buf[..i]), readBuf[..size][pos..], p - pos, buf[..j],
             old(if pos + 1 < BUF_SIZE then readBuf[pos + 1] else 0)))
    {
      p, sync, j := pos, false, i;
      ghost var acc, bytes := buf[..i], readBuf[pos..size];
      if readBuf[pos] == HDLC_ESC {
        Store(buf, i, readBuf[pos + 1] ^ 0x20);
        p := pos + 2;
      } else if readBuf[pos] == HDLC_SYNC {
        if i == 0 {
          p := SkipFlags(pos);
          j := Wrap16(j - 1);
          assert forall k :: 0 <= k < p - pos ==> bytes[k] == readBuf[pos + k];
        } else {
          j := Wrap16(j - 1);
          MoveDown(pos);
          sync := true;
        }
      } else {
        Store(buf, i, readBuf[pos]);
        p := pos + 1;
      }
      j := Wrap16(j + 1);
      assert sync || readBuf[..size][pos..] == bytes;
    }

    /** Takes the next byte, or run of flags, and follows the decoder. */
    method Round(buf: array<bv8>, i: nat, pos: nat, ghost aim: Aim) returns (j: nat, p: nat, sync: bool)
      requires Valid() && buf != readBuf && buf.Length == FRAME_SIZE
      requires i < FRAME_SIZE && pos < size
      requires pos + 1 == size && readBuf[pos] != HDLC_SYNC ==> pos == 0
      modifies this`size, readBuf, buf
      ensures Valid() && j <= FRAME_SIZE
      ensures sync ==> j == i
      ensures !sync ==> size == old(size) && pos < p <= size + 1
      ensures old(FollowingNow(con.packets, readBuf[..size], readBuf[1], pos, buf[..i], aim)) ==> (
        if sync then aim.stop == Closed(buf[..j], readBuf[..size], old(readBuf[1]), con.packets)
          && readBuf[1] == Moved(readBuf[..size], old(readBuf[1]))
        else Following(con.packets, readBuf[..size], readBuf[1], p, buf[..j], aim))
    {
      ghost var held, acc, m := readBuf[..size], buf[..i], readBuf[1];
      ghost var follows := FollowingNow(con.packets, held, m, pos, acc, aim);
      ghost var behind := if pos + 1 < BUF_SIZE then readBuf[pos + 1] else 0;
      assert held[pos..] == readBuf[pos..size];
      j, p, sync := TakeByte(buf, i, pos);
      if follows && sync {
        FlagFollows(con.packets, held, m, pos, acc, aim);
      } else if follows {
        assert readBuf[..][..size] == readBuf[..size] && readBuf[..][1] == readBuf[1];
        assert held[pos..] == [HDLC_ESC] ==> |held[pos..]| == 1 && held[pos..][0] == HDLC_ESC;
        RoundFollows(con.packets, held, m, pos, acc, aim, p - pos, buf[..j], behind);
      }
    }

    /** The reading loop: fills `buf` until a closing flag, or up to its end, or until no packet
        comes any more. */
    method Collect(buf: array<bv8>) returns (i: nat, sync: bool, empty: bool)
      requires Valid() && buf != readBuf && buf.Length == FRAME_SIZE
      modifies this`size, con`packets, readBuf, buf
      ensures Valid() && i <= FRAME_SIZE && (sync ==> !empty && i < FRAME_SIZE)
      ensures Sized(old(con.packets)) ==> Stopped(old(AimNow()), buf[..i], sync, empty)
    {
      var pos: nat := 0;
      i, sync, empty := 0, false, false;
      ghost var sized, aim := Sized(con.packets), AimNow();
      if sized {
        StartFollowing(con.packets, readBuf[..size], readBuf[1]);
      }
      assert buf[..0] == [];
      while i < FRAME_SIZE && !sync
        invariant Valid() && 0 <= i <= FRAME_SIZE
        invariant if sync then i < FRAME_SIZE else pos <= size + 1
        invariant sized && !sync ==> Following(con.packets, readBuf[..size], readBuf[1], pos, buf[..i], aim)
        invariant sized && sync ==> Stopped(aim, buf[..i], true, false)
        invariant !sync && i > 0 ==> 0 < pos && 0 < size
        decreases |con.packets|, if sync then 0 else 1, size + 1 - pos
      {
        pos := Refill(pos, buf[..i], aim);
        if size == 0 {
          if sized {
            assert readBuf[..size] == [];
            EmptyFollows(con.packets, readBuf[1], pos, buf[..i], aim);
          }
          empty := true;
          return;
        }
        i, pos, sync := Round(buf, i, pos, aim);
      }
      if !sync && sized {
        LosesPosition(con.packets, readBuf[..size], readBuf[1], pos, buf[..i], aim);
      }
    }

    /** The reader is where the call was to stop. */
    ghost predicate Stopped(aim: Aim, content: seq<bv8>, sync: bool, empty: bool)
      requires Valid()
      reads this, con, readBuf
    {
      if empty then aim.stop == Dry && size == 0 && con.packets == []
      else if sync then
        && aim.stop.Closed? && aim.stop.content == content
        && readBuf[..size] == aim.stop.bytes && con.packets == aim.stop.packets
        && readBuf[1] == Moved(aim.stop.bytes, aim.stop.m)
      else
        && aim.stop.Full? && con.packets == aim.stop.packets
        && Replays(aim.pending, aim.stop.bytes + Flat(aim.stop.packets), Pending())
    }

    /** Reads one frame. The call does what the loop on values does: its result is the next frame of
        the stream as it is seen, and the buffer, its second byte and the packets are then those
        the next call starts from. If the stream is seen as it is, the result and what is left
        pending are those of the decoder on the stream itself, however the packets cut it. */
    method Read(data: array<bv8>, len: int) returns (ret: int)
      requires Valid() && data != readBuf && len <= data.Length
      modifies this`size, con`packets, readBuf, data
      ensures Valid()
      ensures len <= 0 ==> ret == 0 && Pending() == old(Pending()) && data[..] == old(data[..])
      ensures len > 0 && Sized(old(con.packets)) ==> (
        && Sized(con.packets) && (Calm(old(con.packets)) ==> Calm(con.packets))
        && HandedOver(ScanStream(old(Visible())), len, ret, old(data[..]), data[..])
        && WentOn(old(AimNow()).stop))
      ensures len > 0 && old(Undisturbed()) ==> (
        && var scan := ScanStream(old(Pending()));
           && HandedOver(scan, len, ret, old(data[..]), data[..])
           && Left(scan, old(Pending()), Pending())
           && (!scan.TooBig? ==> Undisturbed()))
    {
      if len <= 0 {
        return 0;
      }
      var buf := new bv8[FRAME_SIZE];
      ghost var held, m, packets, aim := readBuf[..size], readBuf[1], con.packets, AimNow();
      var i, sync, empty := Collect(buf);
      if Sized(packets) {
        StopIsDecoded(held, m, packets);
      }
      if empty {
        return 0;
      }
      if !sync {
        return -1;
      }
      ret := Deliver(buf, i, data, len);
    }

    /** Where the reader is after a call that stopped so. */
    ghost predicate WentOn(stop: Stop)
      requires Valid()
      reads this, con, readBuf
    {
      match stop
      case Closed(_, bytes, m, packets) =>
        readBuf[..size] == bytes && readBuf[1] == Moved(bytes, m) && con.packets == packets
      case Dry => size == 0 && con.packets == []
      case Full(_, _, packets) => con.packets == packets
    }

    method PutHeader(buf: array<bv8>)
      requires buf.Length == FRAME_SIZE
      modifies buf
      ensures buf[..5] == [HDLC_SYNC] + Header(protocol)
    {
      buf[0] := HDLC_SYNC;
      buf[1] := 0xff;
      buf[2] := 0x03;
      buf[3] := Low(protocol);
      buf[4] := High(protocol);
    }

    method PutTrailer(buf: array<bv8>, k: nat, fcs: bv16)
      requires k + 3 <= buf.Length
      modifies buf
      ensures buf[..k + 3] == old(buf[..k]) + [Low(fcs), High(fcs), HDLC_SYNC]
    {
      buf[k] := Low(fcs);
      buf[k + 1] := High(fcs);
      buf[k + 2] := HDLC_SYNC;
    }

    /** Frames a payload and sends it as one packet. */
    method Write(data: array<bv8>, len: nat, to: seq<bv8>) returns (r: int)
      requires Valid() && len < 256 && len <= data.Length
      modifies con`sent
      ensures Valid() && Pending() == old(Pending())
      ensures var frame := WireFrame(protocol, data[..len]);
        && r == (if |to| == 6 && |frame| <= 237 then 0 else -1)
        && con.sent == if r == 0 then old(con.sent) + [(to, frame)] else old(con.sent)
    {
      var buf := new bv8[FRAME_SIZE];
      PutHeader(buf);
      assert buf[1..5] == buf[..5][1..] == Header(protocol);
      var fcs := Checksum(buf, data, len);
      var n := AddHdlc(data, len, buf, 5);
      PutTrailer(buf, 5 + n, fcs);
      WireFrameParts(protocol, data[..len], fcs);
      r := con.Write(buf, 8 + n, to);
    }
  }
}
