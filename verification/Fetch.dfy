/** What the reader of src/smanet.cpp sees of a stream that comes in packets. It keeps the last byte
    of a packet until the next one is there, so that an escape is never cut off; but it looks before
    it fetches only, and takes the first byte of a packet it has fetched into an empty buffer as it
    is. */
module Fetch {
  import opened Hdlc
  import opened Common

  const BUF_SIZE := 255

  /** Packets that are never empty and never longer than the reader asks for. */
  predicate Sized(packets: seq<seq<bv8>>) {
    forall k :: 0 <= k < |packets| ==> 1 <= |packets[k]| < BUF_SIZE
  }

  /** Packets that are no single escape either. */
  predicate Calm(packets: seq<seq<bv8>>) {
    Sized(packets) && forall k :: 0 <= k < |packets| ==> packets[k] != [HDLC_ESC]
  }

  /** The byte that is kept when the next packet is fetched: the last one, unless it is a flag or
      belongs to an escape pair. */
  function Kept(bytes: seq<bv8>): (k: seq<bv8>)
    ensures k == [] || (bytes != [] && k == [bytes[|bytes| - 1]])
    decreases |bytes|
  {
    if bytes == [] then []
    else if |bytes| == 1 then if bytes[0] == HDLC_SYNC then [] else bytes
    else Kept(bytes[if bytes[0] == HDLC_ESC then 2 else 1..])
  }

  /** The second byte of the buffer after packet `p` was stored from index `at` on. */
  function Memory(p: seq<bv8>, at: nat, m: bv8): bv8
    requires at <= 1
  {
    if |p| + at >= 2 then p[1 - at] else m
  }

  /** The stream as it is seen with `bytes` in the buffer, `m` its second byte, and `packets` to
      come. */
  function Seen(bytes: seq<bv8>, m: bv8, packets: seq<seq<bv8>>): seq<bv8>
    decreases |packets|, 0
  {
    if packets == [] then bytes
    else if Kept(bytes) == [] then bytes + SeenNow(packets[0], Memory(packets[0], 0, m), packets[1..])
    else bytes[..|bytes| - 1] + SeenNow(Kept(bytes) + packets[0], Memory(packets[0], 1, m), packets[1..])
  }

  /** The same right after a fetch: a single byte is taken without another look, and the partner of a
      single escape is whatever lies behind it in the buffer. */
  function SeenNow(bytes: seq<bv8>, m: bv8, packets: seq<seq<bv8>>): seq<bv8>
    decreases |packets|, 1
  {
    if packets == [] || |bytes| != 1 then Seen(bytes, m, packets)
    else (if bytes == [HDLC_ESC] then [HDLC_ESC, m] else bytes) + Seen([], m, packets)
  }

  /** No single escape is fetched into a used-up buffer, except as the very last packet. */
  predicate Served(bytes: seq<bv8>, packets: seq<seq<bv8>>)
    decreases |packets|, 0
  {
    packets == [] || ServedNow(Kept(bytes) + packets[0], packets[1..])
  }

  predicate ServedNow(bytes: seq<bv8>, packets: seq<seq<bv8>>)
    decreases |packets|, 1
  {
    if packets == [] || |bytes| != 1 then Served(bytes, packets)
    else bytes != [HDLC_ESC] && Served([], packets)
  }

  lemma {:induction false} SeenAddsOnly(bytes: seq<bv8>, m: bv8, packets: seq<seq<bv8>>)
    ensures |Seen(bytes, m, packets)| >= |bytes| + |Flat(packets)|
    decreases |packets|, 0
  {
    if packets != [] {
      if Kept(bytes) == [] {
        NowAddsOnly(packets[0], Memory(packets[0], 0, m), packets[1..]);
      } else {
        NowAddsOnly(Kept(bytes) + packets[0], Memory(packets[0], 1, m), packets[1..]);
      }
    }
  }

  lemma {:induction false} NowAddsOnly(bytes: seq<bv8>, m: bv8, packets: seq<seq<bv8>>)
    ensures |SeenNow(bytes, m, packets)| >= |bytes| + |Flat(packets)|
    decreases |packets|, 1
  {
    if packets == [] || |bytes| != 1 {
      SeenAddsOnly(bytes, m, packets);
    } else {
      SeenAddsOnly([], m, packets);
    }
  }

  /** The reader sees the stream itself exactly when no single escape is fetched into a used-up
      buffer with bytes behind it. */
  lemma {:induction false} SeenIsStreamIff(bytes: seq<bv8>, m: bv8, packets: seq<seq<bv8>>)
    ensures Seen(bytes, m, packets) == bytes + Flat(packets) <==> Served(bytes, packets)
    decreases |packets|, 0
  {
    if packets == [] {
      assert bytes + Flat(packets) == bytes;
    } else {
      var p, rest, k := packets[0], packets[1..], Kept(bytes);
      if k == [] {
        var s := SeenNow(p, Memory(p, 0, m), rest);
        NowIsStreamIff(p, Memory(p, 0, m), rest);
        assert k + p == p;
        Prefixed(bytes, s, p + Flat(rest));
      } else {
        var s := SeenNow(k + p, Memory(p, 1, m), rest);
        NowIsStreamIff(k + p, Memory(p, 1, m), rest);
        assert bytes + (p + Flat(rest)) == bytes[..|bytes| - 1] + (k + p + Flat(rest));
        Prefixed(bytes[..|bytes| - 1], s, k + p + Flat(rest));
      }
    }
  }

  lemma Prefixed(a: seq<bv8>, s: seq<bv8>, t: seq<bv8>)
    ensures a + s == a + t <==> s == t
  {
    if a + s == a + t {
      assert (a + s)[|a|..] == s && (a + t)[|a|..] == t;
    }
  }

  lemma {:induction false} NowIsStreamIff(bytes: seq<bv8>, m: bv8, packets: seq<seq<bv8>>)
    ensures SeenNow(bytes, m, packets) == bytes + Flat(packets) <==> ServedNow(bytes, packets)
    decreases |packets|, 1
  {
    if packets == [] || |bytes| != 1 {
      SeenIsStreamIff(bytes, m, packets);
    } else if bytes == [HDLC_ESC] {
      SeenAddsOnly([], m, packets);
      assert |SeenNow(bytes, m, packets)| == 2 + |Seen([], m, packets)|;
    } else {
      SeenIsStreamIff([], m, packets);
      assert [] + Flat(packets) == Flat(packets);
      Prefixed(bytes, Seen([], m, packets), Flat(packets));
    }
  }

  /** Packets that are no single escape are always served. */
  lemma {:induction false} CalmIsServed(bytes: seq<bv8>, packets: seq<seq<bv8>>)
    requires Calm(packets)
    ensures Served(bytes, packets)
    decreases |packets|
  {
    if packets != [] {
      assert packets[0] != [HDLC_ESC] && |packets[0]| >= 1;
      CalmIsServed(Kept(bytes) + packets[0], packets[1..]);
      CalmIsServed([], packets[1..]);
    }
  }

  // ---- taking bytes off ----

  /** A look changes nothing as long as a byte that could be kept is behind. */
  lemma KeptDrop(bytes: seq<bv8>)
    requires |bytes| >= 2 || bytes == [HDLC_SYNC]
    ensures Kept(bytes) == Kept(bytes[if bytes[0] == HDLC_ESC then 2 else 1..])
  {
  }

  lemma {:induction false} KeptFlags(bytes: seq<bv8>, n: nat)
    requires n <= |bytes| && forall k :: 0 <= k < n ==> bytes[k] == HDLC_SYNC
    ensures Kept(bytes) == Kept(bytes[n..])
  {
    if n > 0 {
      KeptDrop(bytes);
      KeptFlags(bytes[1..], n - 1);
      assert bytes[1..][n - 1..] == bytes[n..];
    } else {
      assert bytes[n..] == bytes;
    }
  }

  lemma SplitFront(bytes: seq<bv8>, n: nat, s: seq<bv8>)
    requires n <= |bytes|
    ensures bytes + s == bytes[..n] + (bytes[n..] + s)
  {
  }

  lemma SplitMost(bytes: seq<bv8>, n: nat, s: seq<bv8>)
    requires n < |bytes|
    ensures bytes[..|bytes| - 1] + s == bytes[..n] + (bytes[n..][..|bytes[n..]| - 1] + s)
  {
    assert bytes[..|bytes| - 1] == bytes[..n] + bytes[n..][..|bytes[n..]| - 1];
  }

  lemma DropSame(bytes: seq<bv8>, n: nat, m: bv8, packets: seq<seq<bv8>>)
    requires n <= |bytes| && (packets == [] || Kept(bytes) == Kept(bytes[n..]))
    ensures Seen(bytes, m, packets) == bytes[..n] + Seen(bytes[n..], m, packets)
    ensures Served(bytes, packets) == Served(bytes[n..], packets)
  {
    if packets == [] {
      assert bytes == bytes[..n] + bytes[n..];
    } else if Kept(bytes) == [] {
      SplitFront(bytes, n, SeenNow(packets[0], Memory(packets[0], 0, m), packets[1..]));
    } else {
      SplitMost(bytes, n, SeenNow(Kept(bytes) + packets[0], Memory(packets[0], 1, m), packets[1..]));
    }
  }

  /** Taking the first byte, or the first pair, or a run of flags. */
  predicate Takes(bytes: seq<bv8>, n: nat) {
    && 1 <= n <= |bytes|
    && (if bytes[0] == HDLC_SYNC then forall k :: 0 <= k < n ==> bytes[k] == HDLC_SYNC
        else n == if bytes[0] == HDLC_ESC then 2 else 1)
  }

  lemma NowTakes(bytes: seq<bv8>, n: nat, m: bv8, packets: seq<seq<bv8>>)
    requires Takes(bytes, n)
    ensures SeenNow(bytes, m, packets) == bytes[..n] + Seen(bytes[n..], m, packets)
    ensures ServedNow(bytes, packets) ==> Served(bytes[n..], packets)
  {
    if packets == [] || |bytes| != 1 {
      if packets != [] {
        if bytes[0] == HDLC_SYNC {
          KeptFlags(bytes, n);
        } else {
          KeptDrop(bytes);
        }
      }
      DropSame(bytes, n, m, packets);
    } else {
      assert bytes[..n] == bytes && bytes[n..] == [];
    }
  }

  /** A single escape takes the byte behind it. */
  lemma NowTakesStale(m: bv8, packets: seq<seq<bv8>>)
    requires packets != []
    ensures SeenNow([HDLC_ESC], m, packets) == [HDLC_ESC, m] + Seen([], m, packets)
    ensures !ServedNow([HDLC_ESC], packets)
  {
  }

  /** With a flag in front it makes no difference whether the reader looks. */
  lemma FlagNow(bytes: seq<bv8>, m: bv8, packets: seq<seq<bv8>>)
    requires bytes != [] && bytes[0] == HDLC_SYNC
    ensures SeenNow(bytes, m, packets) == Seen(bytes, m, packets)
    ensures ServedNow(bytes, packets) == Served(bytes, packets)
    ensures SeenNow(bytes, m, packets) != [] && SeenNow(bytes, m, packets)[0] == HDLC_SYNC
  {
    NowTakes(bytes, 1, m, packets);
    KeptDrop(bytes);
    DropSame(bytes, 1, m, packets);
  }

  /** With more than one byte, or a flag, or no packet to come, there is nothing to fetch. */
  lemma NothingToFetch(bytes: seq<bv8>, m: bv8, packets: seq<seq<bv8>>)
    requires |bytes| >= 2 || bytes == [HDLC_SYNC] || packets == []
    ensures SeenNow(bytes, m, packets) == Seen(bytes, m, packets)
    ensures ServedNow(bytes, packets) == Served(bytes, packets)
  {
    if bytes == [HDLC_SYNC] {
      FlagNow(bytes, m, packets);
    }
  }

  lemma FetchIntoEmpty(m: bv8, packets: seq<seq<bv8>>)
    requires packets != []
    ensures Seen([], m, packets) == SeenNow(packets[0], Memory(packets[0], 0, m), packets[1..])
    ensures Served([], packets) == ServedNow(packets[0], packets[1..])
  {
    assert [] + packets[0] == packets[0];
  }

  lemma FetchBehind(x: bv8, m: bv8, packets: seq<seq<bv8>>)
    requires packets != [] && x != HDLC_SYNC
    ensures Seen([x], m, packets) == SeenNow([x] + packets[0], Memory(packets[0], 1, m), packets[1..])
    ensures Served([x], packets) == ServedNow([x] + packets[0], packets[1..])
  {
    assert [x][..0] == [] && Kept([x]) == [x];
  }

  lemma SizedRest(packets: seq<seq<bv8>>)
    requires packets != []
    ensures Sized(packets) ==> Sized(packets[1..])
    ensures Calm(packets) ==> Calm(packets[1..])
  {
  }

  // ---- which single escapes are served ----

  lemma OneFetch(bytes: seq<bv8>, kept: seq<bv8>, p: seq<bv8>, rest: seq<seq<bv8>>)
    requires kept == Kept(bytes)
    ensures Served(bytes, [p] + rest) == ServedNow(kept + p, rest)
  {
    assert ([p] + rest)[1..] == rest;
  }

  /** Behind a byte that is kept a single escape is served, whatever follows it. */
  lemma EscapeBehindKept(a: bv8, b: bv8, p: seq<bv8>)
    requires a != HDLC_ESC && b != HDLC_ESC && b != HDLC_SYNC
    ensures Served([], [[a, b]] + ([[HDLC_ESC]] + ([p] + [])))
  {
    KeptDrop([a, b]);
    KeptDrop([b, HDLC_ESC]);
    assert [a, b][1..] == [b] && [b, HDLC_ESC][1..] == [HDLC_ESC];
    assert [] + [a, b] == [a, b] && [b] + [HDLC_ESC] == [b, HDLC_ESC];
    OneFetch([], [], [a, b], [[HDLC_ESC]] + ([p] + []));
    OneFetch([a, b], [b], [HDLC_ESC], [p] + []);
    OneFetch([b, HDLC_ESC], [HDLC_ESC], p, []);
  }

  /** Behind a packet of a single byte it is not, although the byte before it is an ordinary one. */
  lemma EscapeBehindSingleByte(b: bv8, p: seq<bv8>)
    requires b != HDLC_ESC && b != HDLC_SYNC
    ensures !Served([], [[b]] + ([[HDLC_ESC]] + ([p] + [])))
  {
    assert [] + [b] == [b] && [] + [HDLC_ESC] == [HDLC_ESC];
    OneFetch([], [], [b], [[HDLC_ESC]] + ([p] + []));
    OneFetch([], [], [HDLC_ESC], [p] + []);
  }
}
