/** The packet layer of src/smabluetooth.cpp: an 18-byte header with an xor check in front of every
    payload, written to and read from a byte stream that delivers what it likes. */
module BtFraming {
  import opened Bytes

  const HEADER_SIZE := 18
  const MAX_DATA := 237
  const SYNC: bv8 := 0x7e

  type Mac = m: seq<bv8> | |m| == 6 witness [0, 0, 0, 0, 0, 0]

  const MAC_BROADCAST: Mac := [0xff, 0xff, 0xff, 0xff, 0xff, 0xff]

  datatype Packet = Packet(src: Mac, dst: Mac, cmd: bv8, data: seq<bv8>)

  // ---- header codec ----

  /** The header in front of `len` payload bytes. */
  function Header(own: Mac, dst: Mac, cmd: bv8, len: nat): (h: seq<bv8>)
    requires len <= MAX_DATA
    ensures |h| == HEADER_SIZE
  {
    var n := ToByte(len + HEADER_SIZE);
    [SYNC, n, 0, SYNC ^ n ^ 0] + own + dst + [cmd, 0]
  }

  function Encode(own: Mac, p: Packet): seq<bv8>
    requires |p.data| <= MAX_DATA
  {
    Header(own, p.dst, p.cmd, |p.data|) + p.data
  }

  predicate Balanced(a: bv8, b: bv8, c: bv8, d: bv8) { a ^ b ^ c ^ d == 0 }

  datatype Parsed = Bad | Fields(len: nat, src: Mac, dst: Mac, cmd: bv8)

  function ParseHeader(h: seq<bv8>): (r: Parsed)
    requires |h| == HEADER_SIZE
    ensures r.Fields? ==> r.len <= MAX_DATA
  {
    if h[0] != SYNC then Bad
    else if !Balanced(h[0], h[1], h[2], h[3]) then Bad
    else if Value(h[1]) < HEADER_SIZE then Bad
    else Fields(Value(h[1]) - HEADER_SIZE, h[4..10], h[10..16], h[16])
  }

  lemma XorCheck(n: bv8)
    ensures Balanced(SYNC, n, 0, SYNC ^ n ^ 0)
  {
  }

  lemma HeaderFields(own: Mac, dst: Mac, cmd: bv8, len: nat)
    requires len <= MAX_DATA
    ensures var h, n := Header(own, dst, cmd, len), ToByte(len + HEADER_SIZE);
      h[0] == SYNC && h[1] == n && h[2] == 0 && h[3] == SYNC ^ n ^ 0
      && h[4..10] == own && h[10..16] == dst && h[16] == cmd
  {
  }

  /** Every byte of a written header. */
  lemma WrittenHeader(own: Mac, dst: Mac, cmd: bv8, len: nat)
    requires len <= 237
    ensures var h := Header(own, dst, cmd, len);
      && |h| == 18 && h[0] == 0x7e && Value(h[1]) == 18 + len && h[2] == 0x00 && h[3] == 0x7e ^ h[1]
      && h[4..10] == own && h[10..16] == dst && h[16] == cmd && h[17] == 0x00
  {
    HeaderFields(own, dst, cmd, len);
    ByteValue(len + HEADER_SIZE);
  }

  /** Parsing a written header returns what it was written with. */
  lemma ParseWritten(own: Mac, dst: Mac, cmd: bv8, len: nat)
    requires len <= MAX_DATA
    ensures ParseHeader(Header(own, dst, cmd, len)) == Fields(len, own, dst, cmd)
  {
    HeaderFields(own, dst, cmd, len);
    XorCheck(ToByte(len + HEADER_SIZE));
    ByteValue(len + HEADER_SIZE);
  }

  // Each of four balanced bytes is determined by the other three.

  lemma SecondDetermined(a: bv8, b: bv8, c: bv8, d: bv8)
    requires Balanced(a, b, c, d)
    ensures b == a ^ c ^ d
  {
  }

  lemma ThirdDetermined(a: bv8, b: bv8, c: bv8, d: bv8)
    requires Balanced(a, b, c, d)
    ensures c == a ^ b ^ d
  {
  }

  lemma FourthDetermined(a: bv8, b: bv8, c: bv8, d: bv8)
    requires Balanced(a, b, c, d)
    ensures d == a ^ b ^ c
  {
  }

  /** A header that is accepted is a written one with the same fields, but for the third byte, which
      only the check depends on, and the last, which nobody looks at. */
  lemma AcceptedIsWritten(h: seq<bv8>)
    requires |h| == HEADER_SIZE && ParseHeader(h).Fields?
    ensures var f := ParseHeader(h);
      h == Header(f.src, f.dst, f.cmd, f.len)[2 := h[2]][3 := SYNC ^ h[1] ^ h[2]][17 := h[17]]
  {
    var f := ParseHeader(h);
    AcceptedFields(h);
    HeaderFields(f.src, f.dst, f.cmd, f.len);
    SameBytes(h, Header(f.src, f.dst, f.cmd, f.len));
  }

  lemma AcceptedFields(h: seq<bv8>)
    requires |h| == HEADER_SIZE && ParseHeader(h).Fields?
    ensures var f := ParseHeader(h);
      h[0] == SYNC && h[1] == ToByte(f.len + HEADER_SIZE) && h[3] == SYNC ^ h[1] ^ h[2]
      && h[4..10] == f.src && h[10..16] == f.dst && h[16] == f.cmd
  {
    FourthDetermined(h[0], h[1], h[2], h[3]);
    ValueByte(h[1]);
  }

  /** Headers that agree wherever somebody looks. */
  lemma SameBytes(h: seq<bv8>, w: seq<bv8>)
    requires |h| == HEADER_SIZE && |w| == HEADER_SIZE
    requires h[0] == w[0] && h[1] == w[1] && h[4..10] == w[4..10] && h[10..16] == w[10..16] && h[16] == w[16]
    ensures h == w[2 := h[2]][3 := h[3]][17 := h[17]]
  {
    forall k | 0 <= k < HEADER_SIZE ensures h[k] == w[2 := h[2]][3 := h[3]][17 := h[17]][k] {
      SameAt(h, w, k);
    }
  }

  lemma SameAt(h: seq<bv8>, w: seq<bv8>, k: nat)
    requires |h| == HEADER_SIZE && |w| == HEADER_SIZE && k < HEADER_SIZE
    requires h[0] == w[0] && h[1] == w[1] && h[4..10] == w[4..10] && h[10..16] == w[10..16] && h[16] == w[16]
    ensures k == 2 || k == 3 || k == 17 || h[k] == w[k]
  {
    if 4 <= k < 10 {
      assert h[4..10][k - 4] == w[4..10][k - 4];
    } else if 10 <= k < 16 {
      assert h[10..16][k - 10] == w[10..16][k - 10];
    }
  }

  lemma OneByteOnly(a: bv8, b: bv8, c: bv8, d: bv8, x: bv8)
    ensures Balanced(a, b, c, d) && Balanced(a, x, c, d) ==> b == x
    ensures Balanced(a, b, c, d) && Balanced(a, b, x, d) ==> c == x
    ensures Balanced(a, b, c, d) && Balanced(a, b, c, x) ==> d == x
  {
    if Balanced(a, b, c, d) {
      SecondDetermined(a, b, c, d);
      ThirdDetermined(a, b, c, d);
      FourthDetermined(a, b, c, d);
      if Balanced(a, x, c, d) {
        SecondDetermined(a, x, c, d);
      }
      if Balanced(a, b, x, d) {
        ThirdDetermined(a, b, x, d);
      }
      if Balanced(a, b, c, x) {
        FourthDetermined(a, b, c, x);
      }
    }
  }

  /** Damage to any single one of the four checked bytes is noticed. */
  lemma HeaderDamageDetected(h: seq<bv8>, i: nat, b: bv8)
    requires |h| == HEADER_SIZE && ParseHeader(h).Fields? && i < 4 && b != h[i]
    ensures ParseHeader(h[i := b]) == Bad
  {
    OneByteOnly(h[0], h[1], h[2], h[3], b);
  }

  // ---- the byte stream below ----

  datatype Event = Bytes(b: seq<bv8>) | Timeout | Broken

  /** Bytes keep coming: no timeout, no error, no end of the stream. */
  predicate Steady(events: seq<Event>) {
    forall k :: 0 <= k < |events| ==> events[k].Bytes? && events[k].b != []
  }

  /** The bytes the events still bring. */
  function Flat(events: seq<Event>): seq<bv8> {
    if events == [] then []
    else (if events[0].Bytes? then events[0].b else []) + Flat(events[1..])
  }

  /** The first `r` of the bytes `all` have come, `left` are still to come. */
  ghost predicate Came(all: seq<bv8>, r: nat, got: seq<bv8>, left: seq<bv8>) {
    r <= |all| && got == all[..r] && left == all[r..]
  }

  lemma CameOn(all: seq<bv8>, r: nat, got: seq<bv8>, left: seq<bv8>, n: nat, more: seq<bv8>, left': seq<bv8>)
    requires Came(all, r, got, left) && Came(left, n, more, left')
    ensures Came(all, r + n, got + more, left')
  {
    assert all[..r] + all[r..][..n] == all[..r + n];
    assert all[r..][n..] == all[r + n..];
  }

  /** Whether the next write of a connection works, and what the later ones do: what is known of
      them in advance, and that they work from then on. */
  function Accepted(accepts: seq<bool>): bool { accepts == [] || accepts[0] }

  function Later(accepts: seq<bool>): seq<bool> { if accepts == [] then [] else accepts[1..] }

  class Stream {
    var incoming: seq<Event>
    var accepts: seq<bool>
    var outgoing: seq<bv8>

    constructor (incoming: seq<Event>, accepts: seq<bool>)
      ensures this.incoming == incoming && this.accepts == accepts && outgoing == []
    {
      this.incoming, this.accepts, outgoing := incoming, accepts, [];
    }

    /** Receives at most `maxlen` bytes: how many came, 0 for a timeout, -1 for an error, which is
        also what an empty read of waiting data counts as. */
    method Read(data: array<bv8>, at: nat, maxlen: nat) returns (r: int)
      requires at + maxlen <= data.Length
      modifies `incoming, data
      ensures -1 <= r <= maxlen
      ensures r == 0 ==> Flat(incoming) == Flat(old(incoming)) && (old(incoming) == [] || old(incoming)[0] == Timeout)
      ensures r >= 0 ==> Came(Flat(old(incoming)), r, data[at..at + r], Flat(incoming))
      ensures data[..at] == old(data[..at])
      ensures r >= 0 && Steady(old(incoming)) ==> Steady(incoming)
      ensures Steady(old(incoming)) && Flat(old(incoming)) != [] ==> (if maxlen > 0 then r > 0 else r == -1)
    {
      if incoming == [] {
        return 0;
      }
      ghost var before := incoming;
      var e := incoming[0];
      match e
      case Timeout =>
        incoming := incoming[1..];
        r := 0;
      case Broken =>
        incoming := incoming[1..];
        r := -1;
      case Bytes(b) =>
        if maxlen == 0 || b == [] {
          return -1;
        }
        r := if |b| <= maxlen then |b| else maxlen;
        forall k | 0 <= k < r {
          data[at + k] := b[k];
        }
        incoming := if r == |b| then incoming[1..] else [Bytes(b[r..])] + incoming[1..];
        assert data[at..at + r] == b[..r];
        FlatFront(before, r, incoming);
    }

    method Write(data: array<bv8>, len: nat) returns (r: int)
      requires len <= data.Length
      modifies `accepts, `outgoing
      ensures r == if Accepted(old(accepts)) then len else -1
      ensures accepts == Later(old(accepts))
      ensures outgoing == old(outgoing) + if r >= 0 then data[..len] else []
    {
      if Accepted(accepts) {
        outgoing := outgoing + data[..len];
        r := len;
      } else {
        r := -1;
      }
      accepts := Later(accepts);
    }
  }

  lemma FlatFront(events: seq<Event>, n: nat, left: seq<Event>)
    requires events != [] && events[0].Bytes? && 0 < n <= |events[0].b|
    requires left == if n == |events[0].b| then events[1..] else [Bytes(events[0].b[n..])] + events[1..]
    ensures n <= |Flat(events)| && events[0].b[..n] == Flat(events)[..n] && Flat(left) == Flat(events)[n..]
    ensures Steady(events) ==> Steady(left)
  {
    var b := events[0].b;
    SplitFront(b, n, Flat(events[1..]));
    if n < |b| {
      assert left[1..] == events[1..];
    } else {
      assert b[n..] + Flat(left) == Flat(left);
    }
  }

  lemma SplitFront(b: seq<bv8>, n: nat, rest: seq<bv8>)
    requires n <= |b|
    ensures b[..n] == (b + rest)[..n] && (b + rest)[n..] == b[n..] + rest
  {
  }

  // ---- reading a whole number of bytes ----

  /** `pos` bytes have come since the stream was `before`, and more are wanted. */
  ghost predicate Progress(before: seq<Event>, len: nat, pos: nat, got: seq<bv8>, now: seq<Event>) {
    && pos <= len && (pos > 0 ==> pos < len)
    && (pos == 0 ==> now == before)
    && Came(Flat(before), pos, got, Flat(now))
    && (Steady(before) ==> Steady(now))
  }

  /** What reading `len` bytes may end with. */
  ghost predicate Complete(before: seq<Event>, len: nat, r: int, got: seq<bv8>, now: seq<Event>) {
    && (r == len || r == 0 || r == -1)
    && (r >= 0 ==> Came(Flat(before), r, got, Flat(now)))
    && (r == 0 ==> before == [] || before[0] == Timeout)
    && (Steady(before) && 0 < len <= |Flat(before)| ==> r == len && Steady(now))
    && (Steady(before) && len == 0 && Flat(before) != [] ==> r == -1)
  }

  /** One more read, which leaves the loop in progress or complete. */
  ghost predicate Advanced(before: seq<Event>, len: nat, pos: nat, n: int, got: seq<bv8>, now: seq<Event>) {
    && -1 <= n <= len - pos
    && (n >= 0 && pos + n == len ==> Complete(before, len, len, got, now))
    && (n > 0 && pos + n < len ==> Progress(before, len, pos + n, got, now))
    && (n == 0 && pos < len ==> (if pos == 0 then Complete(before, len, 0, got, now) else Complete(before, len, -1, got, now)))
    && (n < 0 ==> Complete(before, len, -1, got, now))
  }

  method ReadMore(con: Stream, data: array<bv8>, pos: nat, len: nat, ghost before: seq<Event>) returns (n: int)
    requires pos <= len <= data.Length && Progress(before, len, pos, data[..pos], con.incoming)
    modifies con`incoming, data
    ensures -1 <= n <= len - pos
    ensures Advanced(before, len, pos, n, data[..if n >= 0 then pos + n else 0], con.incoming)
  {
    ghost var got, rest := data[..pos], Flat(con.incoming);
    n := con.Read(data, pos, len - pos);
    if n >= 0 {
      CameOn(Flat(before), pos, got, rest, n, data[pos..pos + n], Flat(con.incoming));
      assert data[..pos + n] == got + data[pos..pos + n];
    }
  }

  /** Reads until `len` bytes are there. The result is `len`, or 0 when nothing came before a
      timeout, or -1 when the stream broke or stopped half way. */
  method ReadCompleteLen(con: Stream, data: array<bv8>, len: nat) returns (r: int)
    requires len <= data.Length
    modifies con`incoming, data
    ensures -1 <= r <= data.Length
    ensures Complete(old(con.incoming), len, r, data[..if r >= 0 then r else 0], con.incoming)
  {
    var pos, left := 0, len;
    ghost var before := con.incoming;
    assert data[..0] == Flat(before)[..0] && Flat(before)[0..] == Flat(before);
    while true
      invariant 0 <= pos <= len && left == len - pos
      invariant Progress(before, len, pos, data[..pos], con.incoming)
      decreases left
    {
      var n := ReadMore(con, data, pos, len, before);
      if n < 0 {
        return -1;
      }
      left := left - n;
      pos := pos + n;
      if n == 0 && pos != 0 {
        return -1;
      }
      if pos == 0 || left == 0 {
        return pos;
      }
    }
  }

  // ---- writing and reading packets ----

  /** Copies `src` behind the first `at` bytes of the buffer. */
  method Append(buf: array<bv8>, at: nat, src: seq<bv8>)
    requires at + |src| <= buf.Length
    modifies buf
    ensures buf[..at + |src|] == old(buf[..at]) + src
  {
    forall k | 0 <= k < |src| {
      buf[at + k] := src[k];
    }
  }

  method PutLength(buf: array<bv8>, n: bv8)
    requires HEADER_SIZE <= buf.Length
    modifies buf
    ensures buf[..4] == [SYNC, n, 0, SYNC ^ n ^ 0]
  {
    buf[0] := SYNC;
    buf[1] := n;
    buf[2] := 0x00;
    buf[3] := buf[0] ^ buf[1] ^ buf[2];
  }

  method PutHeader(buf: array<bv8>, own: Mac, dst: Mac, cmd: bv8, len: nat)
    requires len <= MAX_DATA && HEADER_SIZE <= buf.Length
    modifies buf
    ensures buf[..HEADER_SIZE] == Header(own, dst, cmd, len)
  {
    PutLength(buf, ToByte(len + HEADER_SIZE));
    Append(buf, 4, own);
    Append(buf, 10, dst);
    Append(buf, 16, [cmd, 0x00]);
  }

  method WritePacket(con: Stream, own: Mac, p: Packet) returns (r: int)
    modifies con`accepts, con`outgoing
    ensures r == if |p.data| <= 237 && Accepted(old(con.accepts)) then 0 else -1
    ensures con.outgoing == old(con.outgoing) + if r == 0 then Encode(own, p) else []
    ensures con.accepts == if |p.data| > 237 then old(con.accepts) else Later(old(con.accepts))
  {
    var buf := new bv8[0xff];
    var len := |p.data| + HEADER_SIZE;
    if len > 0xff {
      return -1;
    }
    PutHeader(buf, own, p.dst, p.cmd, |p.data|);
    Append(buf, HEADER_SIZE, p.data);
    r := con.Write(buf, len);
    if r < 0 {
      return;
    }
    return 0;
  }

  datatype Received = Idle | Failed | Got(packet: Packet)

  /** What the receiver makes of the fields of a header and of the payload buffer behind it. */
  method ReadPayload(con: Stream, data: array<bv8>, len: nat) returns (ok: bool)
    requires len <= data.Length
    modifies con`incoming, data
    ensures Steady(old(con.incoming)) && 0 < len <= |Flat(old(con.incoming))| ==> (
      ok && Steady(con.incoming)
      && data[..len] == Flat(old(con.incoming))[..len] && Flat(con.incoming) == Flat(old(con.incoming))[len..])
    ensures Steady(old(con.incoming)) && len == 0 && Flat(old(con.incoming)) != [] ==> !ok
  {
    var r := ReadCompleteLen(con, data, len);
    ok := r >= 0;
  }

  /** One round of the worker up to the point where a packet is there. */
  method ReceivePacket(con: Stream, data: array<bv8>, ghost own: Mac, ghost p: Packet, ghost tail: seq<bv8>)
    returns (res: Received)
    requires data.Length == MAX_DATA
    modifies con`incoming, data
    ensures Steady(old(con.incoming)) && Carries(Flat(old(con.incoming)), own, p, tail) ==> (
      if p.data != [] then res == Got(p.(src := own)) && Flat(con.incoming) == tail && Steady(con.incoming)
      else tail != [] ==> res == Failed)
  {
    var buf := new bv8[HEADER_SIZE];
    ghost var all := Flat(con.incoming);
    var r := ReadCompleteLen(con, buf, HEADER_SIZE);
    if r < 0 {
      return Failed;
    } else if r == 0 {
      return Idle;
    }
    ghost var rest := Flat(con.incoming);
    var h := ParseHeader(buf[..]);
    if Carries(all, own, p, tail) {
      assert buf[..] == all[..HEADER_SIZE];
      CarriedHeader(all, own, p, tail);
    }
    if h.Bad? {
      return Failed;
    }
    var ok := ReadPayload(con, data, h.len);
    if !ok {
      return Failed;
    }
    res := Got(Packet(h.src, h.dst, h.cmd, data[..h.len]));
    assert Carries(all, own, p, tail) ==> rest[..h.len] == p.data && rest[h.len..] == tail;
  }

  /** The stream starts with packet `p` as written by `own`. */
  ghost predicate Carries(all: seq<bv8>, own: Mac, p: Packet, tail: seq<bv8>) {
    |p.data| <= MAX_DATA && all == Encode(own, p) + tail
  }

  lemma CarriedHeader(all: seq<bv8>, own: Mac, p: Packet, tail: seq<bv8>)
    requires Carries(all, own, p, tail)
    ensures |all| >= HEADER_SIZE && all[HEADER_SIZE..] == p.data + tail
    ensures ParseHeader(all[..HEADER_SIZE]) == Fields(|p.data|, own, p.dst, p.cmd)
  {
    var h := Header(own, p.dst, p.cmd, |p.data|);
    assert all == h + (p.data + tail);
    assert all[..HEADER_SIZE] == h;
    ParseWritten(own, p.dst, p.cmd, |p.data|);
  }

  // ---- a whole stream of packets ----

  function EncodeAll(own: Mac, ps: seq<Packet>): seq<bv8>
    requires forall k :: 0 <= k < |ps| ==> |ps[k].data| <= MAX_DATA
  {
    if ps == [] then [] else Encode(own, ps[0]) + EncodeAll(own, ps[1..])
  }

  lemma EncodeNext(own: Mac, ps: seq<Packet>, n: nat)
    requires n < |ps| && forall k :: 0 <= k < |ps| ==> |ps[k].data| <= MAX_DATA
    ensures EncodeAll(own, ps[n..]) == Encode(own, ps[n]) + EncodeAll(own, ps[n + 1..])
  {
    assert ps[n..][1..] == ps[n + 1..];
  }

  method ReceiveNext(con: Stream, data: array<bv8>, ghost own: Mac, ghost ps: seq<Packet>, ghost n: nat) returns (p: Packet)
    requires data.Length == MAX_DATA && Steady(con.incoming) && n < |ps|
    requires forall k :: 0 <= k < |ps| ==> 1 <= |ps[k].data| <= MAX_DATA
    requires Flat(con.incoming) == EncodeAll(own, ps[n..])
    modifies con`incoming, data
    ensures p == ps[n].(src := own) && Steady(con.incoming) && Flat(con.incoming) == EncodeAll(own, ps[n + 1..])
  {
    EncodeNext(own, ps, n);
    var res := ReceivePacket(con, data, own, ps[n], EncodeAll(own, ps[n + 1..]));
    p := res.packet;
  }

  /** Packets written by `own` with one to 237 bytes of payload come out of the receiver as they
      were written, in order, however the stream delivers their bytes. */
  method ReceiveAll(con: Stream, count: nat, ghost own: Mac, ghost ps: seq<Packet>) returns (got: seq<Packet>)
    requires Steady(con.incoming) && count == |ps|
    requires forall k :: 0 <= k < |ps| ==> 1 <= |ps[k].data| <= MAX_DATA
    requires Flat(con.incoming) == EncodeAll(own, ps)
    modifies con`incoming
    ensures |got| == |ps| && forall k :: 0 <= k < |ps| ==> got[k] == ps[k].(src := own)
    ensures Flat(con.incoming) == []
  {
    var data := new bv8[MAX_DATA];
    got := [];
    while |got| < count
      invariant |got| <= count && Steady(con.incoming)
      invariant Flat(con.incoming) == EncodeAll(own, ps[|got|..])
      invariant forall k :: 0 <= k < |got| ==> got[k] == ps[k].(src := own)
      decreases count - |got|
    {
      var p := ReceiveNext(con, data, own, ps, |got|);
      got := got + [p];
    }
  }
}
