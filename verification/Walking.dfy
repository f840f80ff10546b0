/** The reading loop of src/smanet.cpp on values, one call at a time, and the decoder it follows: the
    frame it finds is the next one of the stream as it is seen. */
module Walking {
  import opened Fcs
  import opened Hdlc
  import opened Fetch
  import opened Common

  /** How a call stops: at the closing flag of a frame, with that flag and what follows it in the
      buffer, `m` its second byte so far, and some packets to come; without any more bytes; or with
      a full frame buffer. */
  datatype Stop =
    | Closed(content: seq<bv8>, bytes: seq<bv8>, m: bv8, packets: seq<seq<bv8>>)
    | Dry
    | Full(bytes: seq<bv8>, m: bv8, packets: seq<seq<bv8>>)

  /** The loop with the frame so far in `acc`: it looks whether to fetch a packet. */
  function Walk(acc: seq<bv8>, bytes: seq<bv8>, m: bv8, packets: seq<seq<bv8>>): Stop
    decreases |packets|, |bytes|, 1
  {
    if |acc| >= FRAME_SIZE then Full(bytes, m, packets)
    else if packets == [] || |bytes| >= 2 || bytes == [HDLC_SYNC] then WalkNow(acc, bytes, m, packets)
    else if bytes == [] then WalkNow(acc, packets[0], Memory(packets[0], 0, m), packets[1..])
    else WalkNow(acc, bytes + packets[0], Memory(packets[0], 1, m), packets[1..])
  }

  /** It takes a flag, an escape and the byte behind it, or a byte. */
  function WalkNow(acc: seq<bv8>, bytes: seq<bv8>, m: bv8, packets: seq<seq<bv8>>): Stop
    decreases |packets|, |bytes|, 0
  {
    if bytes == [] then Dry
    else if bytes[0] == HDLC_SYNC then
      if acc == [] then Walk([], bytes[1..], m, packets) else Closed(acc, bytes, m, packets)
    else if bytes[0] != HDLC_ESC then Walk(acc + [bytes[0]], bytes[1..], m, packets)
    else if |bytes| >= 2 then Walk(acc + [Flip(bytes[1])], bytes[2..], m, packets)
    else Walk(acc + [Flip(m)], [], m, packets)
  }

  // ---- it follows the decoder ----

  lemma {:induction false} SkippingKeepsScan(bytes: seq<bv8>, more: seq<bv8>, n: nat)
    requires n <= |bytes| && forall k :: 0 <= k < n ==> bytes[k] == HDLC_SYNC
    ensures ScanFrom([], bytes + more) == ScanFrom([], bytes[n..] + more)
    decreases n
  {
    if n > 0 {
      assert (bytes + more)[1..] == bytes[1..] + more;
      SkippingKeepsScan(bytes[1..], more, n - 1);
      assert bytes[1..][n - 1..] == bytes[n..];
    } else {
      assert bytes[n..] == bytes;
    }
  }

  lemma PlainKeepsScan(acc: seq<bv8>, b: bv8, more: seq<bv8>)
    requires |acc| < FRAME_SIZE && b != HDLC_ESC && b != HDLC_SYNC
    ensures ScanFrom(acc, [b] + more) == ScanFrom(acc + [b], more)
  {
    assert ([b] + more)[1..] == more;
  }

  lemma EscapeKeepsScan(acc: seq<bv8>, b: bv8, more: seq<bv8>)
    requires |acc| < FRAME_SIZE
    ensures ScanFrom(acc, [HDLC_ESC, b] + more) == ScanFrom(acc + [Flip(b)], more)
  {
    assert ([HDLC_ESC, b] + more)[2..] == more;
  }

  /** An escape at the end of everything: the stale byte read in its place does not matter. */
  lemma CutEscapeKeepsScan(acc: seq<bv8>, stale: bv8)
    requires |acc| < FRAME_SIZE
    ensures ScanFrom(acc, [HDLC_ESC]) == ScanFrom(acc + [stale], [])
  {
  }

  lemma FlagKeepsScan(acc: seq<bv8>, s: seq<bv8>)
    requires |acc| < FRAME_SIZE && s != [] && s[0] == HDLC_SYNC
    ensures ScanFrom(acc, s) == if acc == [] then ScanFrom([], s[1..]) else Frame(acc, s)
  {
  }

  predicate Agrees(stop: Stop, scan: Scan) {
    match stop
    case Closed(c, bytes, m, packets) => scan == Frame(c, Seen(bytes, m, packets))
    case Dry => scan == Incomplete
    case Full(bytes, m, packets) => scan == TooBig(Seen(bytes, m, packets))
  }

  /** The loop finds what the decoder finds in the stream as it is seen. */
  lemma {:induction false} WalkIsScan(acc: seq<bv8>, bytes: seq<bv8>, m: bv8, packets: seq<seq<bv8>>)
    requires Sized(packets)
    ensures Agrees(Walk(acc, bytes, m, packets), ScanFrom(acc, Seen(bytes, m, packets)))
    decreases |packets|, |bytes|, 1
  {
    if |acc| < FRAME_SIZE {
      if packets == [] || |bytes| >= 2 || bytes == [HDLC_SYNC] {
        NothingToFetch(bytes, m, packets);
        NowIsScan(acc, bytes, m, packets);
      } else {
        SizedRest(packets);
        if bytes == [] {
          FetchIntoEmpty(m, packets);
          NowIsScan(acc, packets[0], Memory(packets[0], 0, m), packets[1..]);
        } else {
          assert bytes == [bytes[0]];
          FetchBehind(bytes[0], m, packets);
          NowIsScan(acc, bytes + packets[0], Memory(packets[0], 1, m), packets[1..]);
        }
      }
    }
  }

  lemma {:induction false} NowIsScan(acc: seq<bv8>, bytes: seq<bv8>, m: bv8, packets: seq<seq<bv8>>)
    requires Sized(packets) && |acc| < FRAME_SIZE && (bytes == [] ==> packets == [])
    ensures Agrees(WalkNow(acc, bytes, m, packets), ScanFrom(acc, SeenNow(bytes, m, packets)))
    decreases |packets|, |bytes|, 0
  {
    if bytes == [] {
      assert SeenNow([], m, packets) == [];
    } else if bytes[0] == HDLC_SYNC {
      FlagNow(bytes, m, packets);
      FlagKeepsScan(acc, SeenNow(bytes, m, packets));
      if acc == [] {
        NowTakes(bytes, 1, m, packets);
        assert (bytes[..1] + Seen(bytes[1..], m, packets))[1..] == Seen(bytes[1..], m, packets);
        WalkIsScan([], bytes[1..], m, packets);
      }
    } else if bytes[0] != HDLC_ESC {
      NowTakes(bytes, 1, m, packets);
      assert bytes[..1] == [bytes[0]];
      PlainKeepsScan(acc, bytes[0], Seen(bytes[1..], m, packets));
      WalkIsScan(acc + [bytes[0]], bytes[1..], m, packets);
    } else if |bytes| >= 2 {
      NowTakes(bytes, 2, m, packets);
      assert bytes[..2] == [HDLC_ESC, bytes[1]];
      EscapeKeepsScan(acc, bytes[1], Seen(bytes[2..], m, packets));
      WalkIsScan(acc + [Flip(bytes[1])], bytes[2..], m, packets);
    } else {
      assert bytes == [HDLC_ESC];
      WalkIsScan(acc + [Flip(m)], [], m, packets);
      if packets == [] {
        CutEscapeKeepsScan(acc, Flip(m));
      } else {
        NowTakesStale(m, packets);
        EscapeKeepsScan(acc, m, Seen([], m, packets));
      }
    }
  }

  // ---- what it leaves ----

  /** What is left is not more than there was, and no worse. */
  predicate Leaves(acc: seq<bv8>, bytes: seq<bv8>, packets: seq<seq<bv8>>, served: bool, stop: Stop) {
    match stop
    case Closed(c, b, _, ps) =>
      && acc <= c && c != [] && b != [] && b[0] == HDLC_SYNC
      && |b| + |Flat(ps)| + (if |c| > |acc| then 1 else 0) <= |bytes| + |Flat(packets)|
      && Sized(ps) && (Calm(packets) ==> Calm(ps)) && (served ==> Served(b, ps))
    case Dry => true
    case Full(b, _, ps) =>
      && |b| + |Flat(ps)| <= |bytes| + |Flat(packets)|
      && Sized(ps) && (Calm(packets) ==> Calm(ps)) && (served ==> Served(b, ps))
  }

  lemma {:induction false} WalkLeaves(acc: seq<bv8>, bytes: seq<bv8>, m: bv8, packets: seq<seq<bv8>>)
    requires Sized(packets)
    ensures Leaves(acc, bytes, packets, Served(bytes, packets), Walk(acc, bytes, m, packets))
    decreases |packets|, |bytes|, 1
  {
    if |acc| < FRAME_SIZE {
      if packets == [] || |bytes| >= 2 || bytes == [HDLC_SYNC] {
        NothingToFetch(bytes, m, packets);
        NowLeaves(acc, bytes, m, packets);
      } else {
        SizedRest(packets);
        if bytes == [] {
          FetchIntoEmpty(m, packets);
          NowLeaves(acc, packets[0], Memory(packets[0], 0, m), packets[1..]);
        } else {
          assert bytes == [bytes[0]];
          FetchBehind(bytes[0], m, packets);
          NowLeaves(acc, bytes + packets[0], Memory(packets[0], 1, m), packets[1..]);
        }
      }
    }
  }

  lemma {:induction false} NowLeaves(acc: seq<bv8>, bytes: seq<bv8>, m: bv8, packets: seq<seq<bv8>>)
    requires Sized(packets)
    ensures Leaves(acc, bytes, packets, ServedNow(bytes, packets), WalkNow(acc, bytes, m, packets))
    decreases |packets|, |bytes|, 0
  {
    if bytes != [] {
      if bytes[0] == HDLC_SYNC {
        FlagNow(bytes, m, packets);
        if acc == [] {
          NowTakes(bytes, 1, m, packets);
          WalkLeaves([], bytes[1..], m, packets);
        }
      } else if bytes[0] != HDLC_ESC {
        NowTakes(bytes, 1, m, packets);
        WalkLeaves(acc + [bytes[0]], bytes[1..], m, packets);
      } else if |bytes| >= 2 {
        NowTakes(bytes, 2, m, packets);
        WalkLeaves(acc + [Flip(bytes[1])], bytes[2..], m, packets);
      } else {
        assert bytes == [HDLC_ESC];
        WalkLeaves(acc + [Flip(m)], [], m, packets);
      }
    }
  }

  // ---- calls one after the other ----

  /** The bytes move to the front of the buffer; its second byte changes if there are two. */
  function Moved(bytes: seq<bv8>, m: bv8): bv8 { Memory(bytes, 0, m) }
}
