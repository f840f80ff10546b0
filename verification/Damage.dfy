/** Any damage to a stream of frames: what the reader makes of bytes that stand where frames should,
    and which of the intact frames behind them it costs. */
module Damage {
  import opened Fcs
  import opened Hdlc
  import opened Common
  import opened Smanet
  import opened Session

  // ---- intact frames ----

  /** Bytes that can stand between two flags as one frame of valid size. */
  predicate Segment(x: seq<bv8>) {
    Escaped(x) && 1 <= |Unescape(x)| < FRAME_SIZE
  }

  /** The stream of frames with the given bodies, each between flags of its own. */
  function Wire(bodies: seq<seq<bv8>>): seq<bv8> {
    if bodies == [] then [] else [HDLC_SYNC] + bodies[0] + [HDLC_SYNC] + Wire(bodies[1..])
  }

  predicate Segments(bodies: seq<seq<bv8>>) {
    forall j :: 0 <= j < |bodies| ==> Segment(bodies[j])
  }

  function Verdicts(bodies: seq<seq<bv8>>): (v: seq<Verdict>)
    requires Segments(bodies)
    ensures |v| == |bodies|
    ensures forall k :: 0 <= k < |bodies| ==> v[k] == Judge(Unescape(bodies[k]))
  {
    seq(|bodies|, k requires 0 <= k < |bodies| && Segment(bodies[k]) => Judge(Unescape(bodies[k])))
  }

  lemma OneIntact(x: seq<bv8>, s: seq<bv8>)
    requires Segment(x)
    ensures Results([HDLC_SYNC] + x + [HDLC_SYNC] + s) == [Judge(Unescape(x))] + Results(s)
  {
    var all := [HDLC_SYNC] + x + [HDLC_SYNC] + s;
    assert all == [HDLC_SYNC] + (x + ([HDLC_SYNC] + s));
    SkipFlag(x + ([HDLC_SYNC] + s));
    ScanBody(x, s);
    ResultsOfFrame(all, Unescape(x), [HDLC_SYNC] + s);
    ResultsSkipFlag(s);
  }

  lemma VerdictsCons(bodies: seq<seq<bv8>>)
    requires Segments(bodies) && bodies != []
    ensures Verdicts(bodies) == [Judge(Unescape(bodies[0]))] + Verdicts(bodies[1..])
  {
  }

  /** Every frame between flags is read by itself, whatever comes behind it. */
  lemma {:induction false} IntactInFront(bodies: seq<seq<bv8>>, s: seq<bv8>)
    requires Segments(bodies)
    ensures Results(Wire(bodies) + s) == Verdicts(bodies) + Results(s)
    decreases |bodies|
  {
    if bodies == [] {
      assert Wire(bodies) + s == s;
    } else {
      var front, rest := [HDLC_SYNC] + bodies[0] + [HDLC_SYNC], Wire(bodies[1..]);
      Regroup(front, rest, s);
      OneIntact(bodies[0], rest + s);
      IntactInFront(bodies[1..], s);
      VerdictsCons(bodies);
      Regroup([Judge(Unescape(bodies[0]))], Verdicts(bodies[1..]), Results(s));
    }
  }

  lemma ResultsOfWire(bodies: seq<seq<bv8>>)
    requires Segments(bodies)
    ensures Results(Wire(bodies)) == Verdicts(bodies)
  {
    IntactInFront(bodies, []);
    assert Wire(bodies) + [] == Wire(bodies) && Results([]) == [];
  }

  /** Damage inside one frame that leaves its flags and escapes in order changes the result of that
      frame only: the reader is in step again at the closing flag. */
  lemma DamageCostsOneResult(bodies: seq<seq<bv8>>, k: nat, damaged: seq<bv8>)
    requires Segments(bodies) && k < |bodies| && Segment(damaged)
    ensures |Results(Wire(bodies))| == |bodies|
    ensures Results(Wire(bodies[k := damaged])) == Results(Wire(bodies))[k := Judge(Unescape(damaged))]
  {
    ResultsOfWire(bodies);
    ResultsOfWire(bodies[k := damaged]);
    assert Verdicts(bodies[k := damaged]) == Verdicts(bodies)[k := Judge(Unescape(damaged))];
  }

  // ---- any damage ----

  /** What the damaged bytes amount to: the results of the frames they close, the start of a frame that
      is still open behind them, and an escape whose byte has not come yet. */
  datatype Wreck = Wreck(results: seq<Verdict>, open: seq<bv8>, left: seq<bv8>) | Outgrown

  function Through(acc: seq<bv8>, d: seq<bv8>): (w: Wreck)
    decreases |d|
  {
    if |acc| >= FRAME_SIZE then Outgrown
    else if d == [] then Wreck([], acc, [])
    else if d[0] == HDLC_SYNC then
      if acc == [] then Through([], d[1..]) else Behind(Judge(acc), Through([], d[1..]))
    else if Ready(d) then Through(acc + [First(d)], d[Taken(d)..])
    else Wreck([], acc, d)
  }

  function Behind(v: Verdict, w: Wreck): Wreck {
    if w.Wreck? then w.(results := [v] + w.results) else w
  }

  /** The results of a stream when the frame `acc` is open in front of it. */
  function ResultsFrom(acc: seq<bv8>, s: seq<bv8>): seq<Verdict> {
    match ScanFrom(acc, s)
    case Frame(content, rest) => [Judge(content)] + Results(rest)
    case Incomplete => []
    case TooBig(_) => []
  }

  lemma FlagInFront(acc: seq<bv8>, s: seq<bv8>)
    requires |acc| < FRAME_SIZE
    ensures ResultsFrom(acc, [HDLC_SYNC] + s) == (if acc == [] then [] else [Judge(acc)]) + Results(s)
  {
    ResultsSkipFlag(s);
    if acc == [] {
      SkipFlag(s);
    }
  }

  /** A stream goes on behind the damage as behind what the damage amounts to. */
  lemma {:induction false} GoesOn(acc: seq<bv8>, d: seq<bv8>, s: seq<bv8>)
    requires Through(acc, d).Wreck?
    ensures var w := Through(acc, d); ResultsFrom(acc, d + s) == w.results + ResultsFrom(w.open, w.left + s)
    decreases |d|
  {
    if d == [] {
      assert d + s == s;
    } else if d[0] == HDLC_SYNC {
      var w := Through([], d[1..]);
      var first: seq<Verdict> := if acc == [] then [] else [Judge(acc)];
      assert d + s == [HDLC_SYNC] + (d[1..] + s);
      FlagInFront(acc, d[1..] + s);
      GoesOn([], d[1..], s);
      Regroup(first, w.results, ResultsFrom(w.open, w.left + s));
    } else if Ready(d) {
      ReadyExtends(d, s);
      ScanStep(acc, d + s);
      GoesOn(acc + [First(d)], d[Taken(d)..], s);
    }
  }

  /** An escape is left over. */
  predicate Dangling(d: seq<bv8>)
    decreases |d|
  {
    if d == [] then false
    else if d[0] == HDLC_SYNC then Dangling(d[1..])
    else if Ready(d) then Dangling(d[Taken(d)..])
    else true
  }

  lemma {:induction false} LeftIff(acc: seq<bv8>, d: seq<bv8>)
    requires Through(acc, d).Wreck?
    ensures Through(acc, d).left == if Dangling(d) then [HDLC_ESC] else []
    decreases |d|
  {
    if d != [] && d[0] == HDLC_SYNC {
      LeftIff([], d[1..]);
    } else if d != [] && Ready(d) {
      LeftIff(acc + [First(d)], d[Taken(d)..]);
    }
  }

  function EscapesAtEnd(d: seq<bv8>): nat {
    if d == [] || d[|d| - 1] != HDLC_ESC then 0 else 1 + EscapesAtEnd(d[..|d| - 1])
  }

  lemma {:induction false} EscapesBehind(a: seq<bv8>, d: seq<bv8>)
    ensures EscapesAtEnd(a + d) == if EscapesAtEnd(d) < |d| then EscapesAtEnd(d) else |d| + EscapesAtEnd(a)
    ensures EscapesAtEnd(d) <= |d|
    decreases |d|
  {
    if d == [] {
      assert a + d == a;
    } else {
      assert (a + d)[..|a + d| - 1] == a + d[..|d| - 1];
      EscapesBehind(a, d[..|d| - 1]);
    }
  }

  lemma EscapesOfOne(b: bv8)
    ensures EscapesAtEnd([b]) == if b == HDLC_ESC then 1 else 0
  {
    assert [b][..0] == [];
  }

  lemma EscapesOfPair(b: bv8)
    ensures EscapesAtEnd([HDLC_ESC, b]) == if b == HDLC_ESC then 2 else 0
  {
    EscapesOfOne(HDLC_ESC);
    assert [HDLC_ESC, b][..1] == [HDLC_ESC];
  }

  /** That is the case exactly if the damage ends in an odd number of escapes. */
  lemma {:induction false} DanglingIff(d: seq<bv8>)
    ensures Dangling(d) <==> EscapesAtEnd(d) % 2 == 1
    decreases |d|
  {
    if d == [] {
    } else if d[0] == HDLC_SYNC || (Ready(d) && d[0] != HDLC_ESC) {
      DanglingIff(d[1..]);
      EscapesOfOne(d[0]);
      EscapesBehind([d[0]], d[1..]);
      assert d == [d[0]] + d[1..];
    } else if Ready(d) {
      DanglingIff(d[2..]);
      EscapesOfPair(d[1]);
      EscapesBehind([HDLC_ESC, d[1]], d[2..]);
      assert d == [HDLC_ESC, d[1]] + d[2..];
    } else {
      EscapesOfOne(HDLC_ESC);
      assert d == [HDLC_ESC];
    }
  }

  function Flags(d: seq<bv8>): nat {
    if d == [] then 0 else (if d[0] == HDLC_SYNC then 1 else 0) + Flags(d[1..])
  }

  lemma {:induction false} NoMoreThanFlags(acc: seq<bv8>, d: seq<bv8>)
    requires Through(acc, d).Wreck?
    ensures |Through(acc, d).results| <= Flags(d)
    decreases |d|
  {
    if d != [] && d[0] == HDLC_SYNC {
      NoMoreThanFlags([], d[1..]);
    } else if d != [] && Ready(d) {
      NoMoreThanFlags(acc + [First(d)], d[Taken(d)..]);
      assert Flags(d[1..]) >= Flags(d[Taken(d)..]);
    }
  }

  /** The first intact frame behind the damage as part of the frame that is open there, if an escape
      takes its opening flag away. */
  function Swallowed(w: Wreck, x: seq<bv8>): seq<bv8>
    requires w.Wreck? && Escaped(x)
  {
    w.open + [Flip(HDLC_SYNC)] + Unescape(x)
  }

  /** No frame outgrows the buffer. */
  predicate Holds(d: seq<bv8>, after: seq<seq<bv8>>)
    requires Segments(after)
  {
    var w := Through([], d);
    w.Wreck? && (Dangling(d) && after != [] ==> |Swallowed(w, after[0])| < FRAME_SIZE)
  }

  /** The frame that is open behind the damage is closed by the next flag that is left. */
  function Closing(w: Wreck, after: seq<seq<bv8>>): (v: seq<Verdict>)
    requires Segments(after) && w.Wreck?
    ensures |v| <= 1
  {
    if after == [] then []
    else if w.left != [] then [Judge(Swallowed(w, after[0]))]
    else if w.open == [] then [] else [Judge(w.open)]
  }

  /** What becomes of the damage. */
  function Junk(d: seq<bv8>, after: seq<seq<bv8>>): seq<Verdict>
    requires Segments(after) && Holds(d, after)
  {
    Through([], d).results + Closing(Through([], d), after)
  }

  /** The frames that are lost though they are intact. */
  function Lost(d: seq<bv8>, after: seq<seq<bv8>>): (n: nat)
    ensures n <= |after|
  {
    if Dangling(d) && after != [] then 1 else 0
  }

  lemma IntactBehind(w: Wreck, after: seq<seq<bv8>>)
    requires Segments(after) && w.Wreck? && w.left == [] && |w.open| < FRAME_SIZE && after != []
    ensures ResultsFrom(w.open, Wire(after)) == (if w.open == [] then [] else [Judge(w.open)]) + Verdicts(after)
  {
    var tail := after[0] + [HDLC_SYNC] + Wire(after[1..]);
    assert Wire(after) == [HDLC_SYNC] + tail;
    FlagInFront(w.open, tail);
    ResultsSkipFlag(tail);
    ResultsOfWire(after);
  }

  lemma EscapeInFront(x: seq<bv8>, s: seq<bv8>)
    ensures [HDLC_ESC] + ([HDLC_SYNC] + x + s) == [HDLC_ESC, HDLC_SYNC] + (x + s)
  {
  }

  lemma SwallowedBehind(w: Wreck, after: seq<seq<bv8>>)
    requires Segments(after) && w.Wreck? && w.left == [HDLC_ESC] && after != [] && |Swallowed(w, after[0])| < FRAME_SIZE
    ensures ResultsFrom(w.open, w.left + Wire(after)) == [Judge(Swallowed(w, after[0]))] + Verdicts(after[1..])
  {
    var x, rest := after[0], Wire(after[1..]);
    var more := x + ([HDLC_SYNC] + rest);
    EscapeInFront(x, [HDLC_SYNC] + rest);
    Regroup([HDLC_SYNC] + x, [HDLC_SYNC], rest);
    EscapeTaken(w.open, HDLC_SYNC, more);
    ScanOn(w.open + [Flip(HDLC_SYNC)], x, [HDLC_SYNC] + rest);
    ResultsSkipFlag(rest);
    ResultsOfWire(after[1..]);
  }

  lemma EscapeTaken(acc: seq<bv8>, b: bv8, s: seq<bv8>)
    requires |acc| < FRAME_SIZE
    ensures ScanFrom(acc, [HDLC_ESC, b] + s) == ScanFrom(acc + [Flip(b)], s)
  {
    var t := [HDLC_ESC, b] + s;
    assert t[2..] == s;
    ScanStep(acc, t);
  }

  lemma NothingBehind(w: Wreck)
    requires w.Wreck? && (w.left == [] || w.left == [HDLC_ESC])
    ensures ResultsFrom(w.open, w.left + Wire([])) == []
  {
  }

  lemma {:induction false} OpenFits(acc: seq<bv8>, d: seq<bv8>)
    requires Through(acc, d).Wreck?
    ensures |Through(acc, d).open| < FRAME_SIZE
    decreases |d|
  {
    if d != [] && d[0] == HDLC_SYNC {
      OpenFits([], d[1..]);
    } else if d != [] && Ready(d) {
      OpenFits(acc + [First(d)], d[Taken(d)..]);
    }
  }

  lemma ClosedBehind(d: seq<bv8>, after: seq<seq<bv8>>, w: Wreck, n: nat)
    requires Segments(after) && Holds(d, after) && w == Through([], d) && n == Lost(d, after)
    ensures ResultsFrom(w.open, w.left + Wire(after)) == Closing(w, after) + Verdicts(after[n..])
  {
    LeftIff([], d);
    OpenFits([], d);
    if after == [] {
      NothingBehind(w);
    } else if Dangling(d) {
      SwallowedBehind(w, after);
    } else {
      assert w.left + Wire(after) == Wire(after) && after[n..] == after;
      IntactBehind(w, after);
    }
  }

  /** Any bytes in front of intact frames: they yield at most one result for each flag among them and
      one more, and the frames behind come out as they are, all of them unless the bytes end in an odd
      number of escapes, and all but the first then. */
  lemma AnyDamage(d: seq<bv8>, after: seq<seq<bv8>>)
    requires Segments(after) && Holds(d, after)
    ensures Results(d + Wire(after)) == Junk(d, after) + Verdicts(after[Lost(d, after)..])
    ensures |Junk(d, after)| <= Flags(d) + 1
  {
    var w, n := Through([], d), Lost(d, after);
    GoesOn([], d, Wire(after));
    ClosedBehind(d, after, w, n);
    Regroup(w.results, Closing(w, after), Verdicts(after[n..]));
    NoMoreThanFlags([], d);
  }

  /** Damage anywhere, of any length and over any number of frames and flags. */
  lemma DamageBetween(before: seq<seq<bv8>>, d: seq<bv8>, after: seq<seq<bv8>>)
    requires Segments(before) && Segments(after) && Holds(d, after)
    ensures Results(Wire(before) + (d + Wire(after)))
         == Verdicts(before) + Junk(d, after) + Verdicts(after[Lost(d, after)..])
    ensures Lost(d, after) == if EscapesAtEnd(d) % 2 == 1 && after != [] then 1 else 0
    ensures |Junk(d, after)| <= Flags(d) + 1
  {
    var intact := Verdicts(after[Lost(d, after)..]);
    IntactInFront(before, d + Wire(after));
    AnyDamage(d, after);
    DanglingIff(d);
    Regroup(Verdicts(before), Junk(d, after), intact);
  }

  lemma {:induction false} ShortGrows(acc: seq<bv8>, d: seq<bv8>)
    requires |acc| + |d| < FRAME_SIZE
    ensures Through(acc, d).Wreck? && |Through(acc, d).open| <= |acc| + |d|
    decreases |d|
  {
    if d != [] && d[0] == HDLC_SYNC {
      ShortGrows([], d[1..]);
    } else if d != [] && Ready(d) {
      ShortGrows(acc + [First(d)], d[Taken(d)..]);
    }
  }

  /** Damage that fits the frame buffer together with the frame behind it never outgrows it. */
  lemma ShortHolds(d: seq<bv8>, after: seq<seq<bv8>>)
    requires Segments(after) && |d| + 1 + (if after == [] then 0 else |Unescape(after[0])|) < FRAME_SIZE
    ensures Holds(d, after)
  {
    ShortGrows([], d);
  }
}
