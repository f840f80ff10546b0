/** The worker thread and the connecting thread of src/smabluetooth.cpp as a state machine whose
    steps are the regions that hold the mutex, and what every interleaving of them keeps. */
module Handshake {
  import opened BtFraming

  // ---- the fields both threads share, and what a packet does to them ----

  const MAC_NULL: Mac := [0x00, 0x00, 0x00, 0x00, 0x00, 0x00]
  const MAX_PACKETS_SIZE := 40

  datatype State = STATE_ERROR | STATE_NOT_CONNECTED | STATE_START | STATE_MAC | STATE_DEVICE_LIST | STATE_CONNECTED

  /** The fields the mutex protects. */
  datatype Shared = Shared(state: State, mac: Mac, macInv: Mac, numDevices: int, packets: seq<Packet>)

  const INITIAL := Shared(STATE_NOT_CONNECTED, MAC_NULL, MAC_NULL, 0, [])

  predicate ForUs(p: Packet, mac: Mac) {
    p.dst == mac || p.dst == MAC_NULL || p.dst == MAC_BROADCAST
  }

  predicate IsData(p: Packet) { p.cmd == 0x01 || p.cmd == 0x08 }

  /** What a packet that reached us means to the worker. */
  datatype Reaction =
    | Ignore
    | Store      // a data packet for the queue
    | Answer     // command 02, to be answered before the state moves on
    | TakeMac    // command 0A
    | TakeCount  // command 05
    | Fatal      // the worker gives up

  function React(c: Shared, p: Packet): Reaction {
    if !ForUs(p, c.mac) then Ignore
    else if IsData(p) then Store
    else if p.cmd == 0x02 then
      if |p.data| != 13 then Fatal
      else if c.state == STATE_NOT_CONNECTED then Answer else Ignore
    else if p.cmd == 0x0A then
      if |p.data| == 13 && c.state == STATE_START then TakeMac else Ignore
    else if p.cmd == 0x05 then
      if |p.data| % 8 != 0 || |p.data| / 8 == 1 then Fatal
      else if c.state == STATE_MAC then TakeCount else Ignore
    else Ignore
  }

  /** The queue with one more packet: when it is full the oldest one goes. */
  function Pushed(q: seq<Packet>, p: Packet): seq<Packet> {
    (if |q| >= MAX_PACKETS_SIZE then q[1..] else q) + [p]
  }

  function MacTaken(c: Shared, p: Packet): Shared
    requires |p.data| == 13
  {
    c.(state := STATE_MAC, mac := p.data[7..13], macInv := p.data[0..6])
  }

  function CountTaken(c: Shared, p: Packet): Shared {
    c.(state := STATE_DEVICE_LIST, numDevices := |p.data| / 8 - 1)
  }

  // ---- the threads ----

  /** The worker waits for packets, or is between the two halves of command 02, or has ended. */
  datatype Worker = Polling | Answering(p: Packet) | Stopped

  /** The other thread is inside `connect`, or has connected and may call `readPacket`, or waits
      inside it, or has failed to connect. */
  datatype Client = Connecting | Ready | Waiting | GaveUp

  datatype Fate = Consumed | Dropped

  /** A connection and its history: the handshake packets that were accepted, the data packets that
      arrived, what became of the oldest of them, and what the client got. */
  datatype Session = Session(
    shared: Shared, worker: Worker, client: Client,
    accepted: seq<Packet>, arrived: seq<Packet>, fate: seq<Fate>, got: seq<Packet>)

  const START := Session(INITIAL, Polling, Connecting, [], [], [], [])

  datatype Step =
    | Receive(p: Packet)     // the worker has read a packet
    | StreamFails            // the worker could not read one
    | AnswerSent(ok: bool)   // the answer to command 02 was written, or not
    | Connect                // `connect` looks at the state
    | ConnectTimesOut        // `connect` gives up and waits for the worker to end
    | ReadEnter              // `readPacket` is called
    | ReadWake               // the waiting `readPacket` looks at the queue
    | ReadTimesOut

  predicate Enabled(s: Session, step: Step) {
    match step
    case Receive(_) => s.worker == Polling
    case StreamFails => s.worker == Polling
    case AnswerSent(_) => s.worker.Answering?
    case Connect => s.client == Connecting
    case ConnectTimesOut => s.client == Connecting && !s.worker.Answering?
    case ReadEnter => s.client == Ready
    case ReadWake => s.client == Waiting
    case ReadTimesOut => s.client == Waiting
  }

  function Failed(s: Session): Session {
    s.(shared := s.shared.(state := STATE_ERROR), worker := Stopped)
  }

  function Receiving(s: Session, p: Packet): Session {
    match React(s.shared, p)
    case Ignore => s
    case Store => s.(
        shared := s.shared.(packets := Pushed(s.shared.packets, p)),
        arrived := s.arrived + [p],
        fate := if |s.shared.packets| >= MAX_PACKETS_SIZE then s.fate + [Dropped] else s.fate)
    case Answer => s.(worker := Answering(p))
    case TakeMac => s.(shared := MacTaken(s.shared, p), accepted := s.accepted + [p])
    case TakeCount => s.(shared := CountTaken(s.shared, p), accepted := s.accepted + [p])
    case Fatal => Failed(s)
  }

  function Popped(s: Session): Session
    requires s.shared.packets != []
  {
    s.(shared := s.shared.(packets := s.shared.packets[1..]), client := Ready,
       fate := s.fate + [Consumed], got := s.got + [s.shared.packets[0]])
  }

  function Next(s: Session, step: Step): Session
    requires Enabled(s, step)
  {
    match step
    case Receive(p) => Receiving(s, p)
    case StreamFails => Failed(s)
    case AnswerSent(ok) =>
      if ok then
        s.(shared := s.shared.(state := STATE_START), worker := Polling, accepted := s.accepted + [s.worker.p])
      else Failed(s)
    case Connect =>
      if s.shared.state == STATE_DEVICE_LIST then s.(shared := s.shared.(state := STATE_CONNECTED), client := Ready)
      else if s.shared.state == STATE_ERROR then s.(shared := s.shared.(state := STATE_NOT_CONNECTED), client := GaveUp)
      else s
    case ConnectTimesOut =>
      s.(shared := s.shared.(state := STATE_NOT_CONNECTED), client := GaveUp, worker := Stopped)
    case ReadEnter =>
      if s.shared.state != STATE_CONNECTED then s
      else if s.shared.packets == [] then s.(client := Waiting)
      else Popped(s)
    case ReadWake => if s.shared.packets == [] then s else Popped(s)
    case ReadTimesOut => s.(client := Ready)
  }

  // ---- what every state of every run satisfies ----

  predicate IsStart(p: Packet) { p.cmd == 0x02 && |p.data| == 13 && ForUs(p, MAC_NULL) }

  predicate IsMac(p: Packet, c: Shared) {
    p.cmd == 0x0A && |p.data| == 13 && ForUs(p, MAC_NULL) && c.mac == p.data[7..13] && c.macInv == p.data[0..6]
  }

  predicate IsCount(p: Packet, c: Shared) {
    p.cmd == 0x05 && |p.data| % 8 == 0 && ForUs(p, c.mac) && c.numDevices == |p.data| / 8 - 1 && c.numDevices != 0
  }

  /** The accepted packets are a 02, a 0A and a 05 packet, in this order and addressed to us, and the
      fields hold what they brought. */
  ghost predicate Handshaken(c: Shared, accepted: seq<Packet>) {
    && |accepted| <= 3
    && (|accepted| < 2 ==> c.mac == MAC_NULL && c.macInv == MAC_NULL)
    && (|accepted| < 3 ==> c.numDevices == 0)
    && (|accepted| >= 1 ==> IsStart(accepted[0]))
    && (|accepted| >= 2 ==> IsMac(accepted[1], c))
    && (|accepted| >= 3 ==> IsCount(accepted[2], c))
  }

  /** How many packets are accepted in a state, unless the connection failed. */
  function Progress(state: State): nat {
    match state
    case STATE_ERROR => 0
    case STATE_NOT_CONNECTED => 0
    case STATE_START => 1
    case STATE_MAC => 2
    case STATE_DEVICE_LIST => 3
    case STATE_CONNECTED => 3
  }

  ghost predicate InStep(s: Session) {
    && Handshaken(s.shared, s.accepted)
    && (s.client == GaveUp ==> s.shared.state == STATE_NOT_CONNECTED && s.worker == Stopped)
    && (s.client != GaveUp && s.shared.state != STATE_ERROR ==> |s.accepted| == Progress(s.shared.state))
    && (s.shared.state == STATE_ERROR ==> s.worker == Stopped)
    && (s.worker.Answering? ==>
          s.shared.state == STATE_NOT_CONNECTED && s.client == Connecting
          && React(s.shared, s.worker.p) == Answer)
    && (s.shared.state == STATE_CONNECTED ==> s.client == Ready || s.client == Waiting)
    && (s.client == Ready || s.client == Waiting ==>
          |s.accepted| == 3 && (s.shared.state == STATE_CONNECTED || s.shared.state == STATE_ERROR))
  }

  /** The packets with fate `Consumed`, in order of arrival. */
  function Chosen(arrived: seq<Packet>, fate: seq<Fate>): seq<Packet>
    requires |fate| <= |arrived|
  {
    if fate == [] then []
    else Chosen(arrived, fate[..|fate| - 1])
         + (if fate[|fate| - 1] == Consumed then [arrived[|fate| - 1]] else [])
  }

  /** The queue is what arrived last, and the rest was consumed in order or dropped. */
  ghost predicate Queued(s: Session) {
    && |s.fate| <= |s.arrived|
    && s.shared.packets == s.arrived[|s.fate|..]
    && |s.shared.packets| <= MAX_PACKETS_SIZE
    && s.got == Chosen(s.arrived, s.fate)
  }

  lemma ReceivingKeepsInStep(s: Session, p: Packet)
    requires InStep(s) && s.worker == Polling
    ensures InStep(Receiving(s, p))
  {
    match React(s.shared, p)
    case Ignore =>
    case Store =>
    case Answer =>
    case Fatal =>
    case TakeMac => assert (s.accepted + [p])[1] == p;
    case TakeCount => assert (s.accepted + [p])[2] == p;
  }

  lemma AnswerKeepsInStep(s: Session, ok: bool)
    requires InStep(s) && s.worker.Answering?
    ensures InStep(Next(s, AnswerSent(ok)))
  {
    assert (s.accepted + [s.worker.p])[0] == s.worker.p;
  }

  lemma StepKeepsInStep(s: Session, step: Step)
    requires InStep(s) && Enabled(s, step)
    ensures InStep(Next(s, step))
  {
    match step
    case Receive(p) => ReceivingKeepsInStep(s, p);
    case AnswerSent(ok) => AnswerKeepsInStep(s, ok);
    case StreamFails =>
    case Connect =>
    case ConnectTimesOut =>
    case ReadEnter =>
    case ReadWake =>
    case ReadTimesOut =>
  }

  lemma {:induction false} ChosenStays(arrived: seq<Packet>, p: Packet, fate: seq<Fate>)
    requires |fate| <= |arrived|
    ensures Chosen(arrived + [p], fate) == Chosen(arrived, fate)
    decreases |fate|
  {
    if fate != [] {
      ChosenStays(arrived, p, fate[..|fate| - 1]);
    }
  }

  lemma ChosenGrows(arrived: seq<Packet>, fate: seq<Fate>, f: Fate)
    requires |fate| < |arrived|
    ensures Chosen(arrived, fate + [f]) == Chosen(arrived, fate) + (if f == Consumed then [arrived[|fate|]] else [])
  {
    assert (fate + [f])[..|fate|] == fate;
  }

  lemma StoringKeepsQueued(s: Session, p: Packet)
    requires Queued(s) && React(s.shared, p) == Store
    ensures Queued(Receiving(s, p))
  {
    ChosenStays(s.arrived, p, s.fate);
    if |s.shared.packets| >= MAX_PACKETS_SIZE {
      ChosenGrows(s.arrived + [p], s.fate, Dropped);
    }
  }

  lemma PoppingKeepsQueued(s: Session)
    requires Queued(s) && s.shared.packets != []
    ensures Queued(Popped(s))
  {
    ChosenGrows(s.arrived, s.fate, Consumed);
  }

  lemma StepKeepsQueued(s: Session, step: Step)
    requires Queued(s) && Enabled(s, step)
    ensures Queued(Next(s, step))
  {
    if step.Receive? && React(s.shared, step.p) == Store {
      StoringKeepsQueued(s, step.p);
    } else if (step.ReadEnter? || step.ReadWake?) && s.shared.packets != [] {
      PoppingKeepsQueued(s);
    }
  }

  // ---- what a packet does, byte by byte ----

  /** Data packets are those with command 01 or 08 that are addressed to us, to nobody or to everybody.
      They and no others arrive, at the end of the queue, which forgets its oldest packet from the
      forty-first on. */
  lemma DataQueuedIff(s: Session, p: Packet)
    requires s.worker == Polling
    ensures var n, q := Receiving(s, p), s.shared.packets;
      var data := (p.cmd == 0x01 || p.cmd == 0x08) &&
        (p.dst == s.shared.mac || p.dst == [0, 0, 0, 0, 0, 0] || p.dst == [0xff, 0xff, 0xff, 0xff, 0xff, 0xff]);
      && (n.arrived == s.arrived + [p] <==> data) && (!data ==> n.arrived == s.arrived)
      && n.shared.packets == (if !data then q else if |q| < 40 then q + [p] else q[1..] + [p])
      && (data ==> n == s.(shared := n.shared, arrived := n.arrived, fate := n.fate) && n.shared == s.shared.(packets := n.shared.packets))
  {
  }

  /** All other packets: command 02 is to be answered, 0A brings the addresses and 05 the number of
      devices, each in its state; 02 and 05 end the connection if they are misshapen; everything else
      changes nothing. */
  lemma CommandTable(s: Session, p: Packet)
    requires s.worker == Polling && p.cmd != 0x01 && p.cmd != 0x08
    ensures var n, c, len := Receiving(s, p), s.shared, |p.data|;
      var us := p.dst == c.mac || p.dst == [0, 0, 0, 0, 0, 0] || p.dst == [0xff, 0xff, 0xff, 0xff, 0xff, 0xff];
      if us && p.cmd == 0x02 && len == 13 && c.state == STATE_NOT_CONNECTED then n == s.(worker := Answering(p))
      else if us && p.cmd == 0x0a && len == 13 && c.state == STATE_START then
        n == s.(accepted := s.accepted + [p],
                shared := c.(state := STATE_MAC, macInv := p.data[..6], mac := p.data[7..]))
      else if us && p.cmd == 0x05 && len % 8 == 0 && len != 8 && c.state == STATE_MAC then
        n == s.(accepted := s.accepted + [p], shared := c.(state := STATE_DEVICE_LIST, numDevices := len / 8 - 1))
      else if us && ((p.cmd == 0x02 && len != 13) || (p.cmd == 0x05 && (len % 8 != 0 || len == 8))) then
        n == s.(worker := Stopped, shared := c.(state := STATE_ERROR))
      else n == s
  {
  }

  // ---- runs ----

  /** `run` is a sequence of states in which the k-th step leads to the next state. */
  ghost predicate IsRun(run: seq<Session>, steps: seq<Step>) {
    && |run| == |steps| + 1 && run[0] == START
    && forall k {:trigger Leads(run, steps, k)} :: 0 <= k < |steps| ==> Leads(run, steps, k)
  }

  ghost predicate Leads(run: seq<Session>, steps: seq<Step>, k: nat)
    requires |run| == |steps| + 1 && k < |steps|
  {
    Enabled(run[k], steps[k]) && run[k + 1] == Next(run[k], steps[k])
  }

  lemma {:induction false} RunKeepsInvariants(run: seq<Session>, steps: seq<Step>, k: nat)
    requires IsRun(run, steps) && k < |run|
    ensures InStep(run[k]) && Queued(run[k])
  {
    if k > 0 {
      RunKeepsInvariants(run, steps, k - 1);
      assert Leads(run, steps, k - 1);
      StepKeepsInStep(run[k - 1], steps[k - 1]);
      StepKeepsQueued(run[k - 1], steps[k - 1]);
    }
  }

  /** The moves of the connection state. */
  predicate Move(from: State, to: State) {
    || from == to
    || (from == STATE_NOT_CONNECTED && to == STATE_START)
    || (from == STATE_START && to == STATE_MAC)
    || (from == STATE_MAC && to == STATE_DEVICE_LIST)
    || (from == STATE_DEVICE_LIST && to == STATE_CONNECTED)
    || to == STATE_ERROR
    || to == STATE_NOT_CONNECTED
  }

  /** In every run the state moves only forward one step at a time, or to the error state, or, when
      `connect` fails, back to the beginning. */
  lemma StateMoves(run: seq<Session>, steps: seq<Step>, k: nat)
    requires IsRun(run, steps) && k < |steps|
    ensures var s, n := run[k], run[k + 1];
      && Move(s.shared.state, n.shared.state)
      && (s.shared.state != n.shared.state && n.shared.state == STATE_NOT_CONNECTED ==>
            s.client == Connecting && n.client == GaveUp)
      && (s.shared.state == STATE_CONNECTED ==> n.shared.state in {STATE_CONNECTED, STATE_ERROR})
  {
    RunKeepsInvariants(run, steps, k);
    assert Leads(run, steps, k);
  }

  /** Connected means that the three handshake packets, addressed to us, were accepted in order, and
      that address and device count are theirs. */
  lemma ConnectedIsHandshaken(run: seq<Session>, steps: seq<Step>, k: nat)
    requires IsRun(run, steps) && k < |run| && run[k].shared.state == STATE_CONNECTED
    ensures var s := run[k];
      |s.accepted| == 3 && IsStart(s.accepted[0]) && IsMac(s.accepted[1], s.shared) && IsCount(s.accepted[2], s.shared)
    ensures var a, c := run[k].accepted, run[k].shared;
      && a[0].cmd == 0x02 && |a[0].data| == 13 && a[1].cmd == 0x0a && |a[1].data| == 13
      && c.macInv == a[1].data[..6] && c.mac == a[1].data[7..]
      && a[2].cmd == 0x05 && |a[2].data| == 8 * (c.numDevices + 1) && c.numDevices != 0
  {
    RunKeepsInvariants(run, steps, k);
    var m := run[k].accepted[1];
    assert m.data[7..13] == m.data[7..];
  }

  ghost predicate Prefix<T>(a: seq<T>, b: seq<T>) { |a| <= |b| && b[..|a|] == a }

  ghost predicate Grown(s: Session, n: Session) {
    && Prefix(s.accepted, n.accepted) && Prefix(s.arrived, n.arrived)
    && Prefix(s.fate, n.fate) && Prefix(s.got, n.got)
  }

  lemma StepGrows(s: Session, step: Step)
    requires Enabled(s, step)
    ensures Grown(s, Next(s, step))
  {
  }

  lemma PrefixTransitive<T>(a: seq<T>, b: seq<T>, c: seq<T>)
    requires Prefix(a, b) && Prefix(b, c)
    ensures Prefix(a, c)
  {
    assert c[..|a|] == c[..|b|][..|a|];
  }

  lemma GrownTransitive(r: Session, s: Session, n: Session)
    requires Grown(r, s) && Grown(s, n)
    ensures Grown(r, n)
  {
    PrefixTransitive(r.accepted, s.accepted, n.accepted);
    PrefixTransitive(r.arrived, s.arrived, n.arrived);
    PrefixTransitive(r.fate, s.fate, n.fate);
    PrefixTransitive(r.got, s.got, n.got);
  }

  lemma GrowsAt(run: seq<Session>, steps: seq<Step>, k: nat)
    requires IsRun(run, steps) && k < |steps|
    ensures Grown(run[k], run[k + 1])
  {
    assert Leads(run, steps, k);
    StepGrows(run[k], steps[k]);
  }

  /** Nothing that was accepted, decided or handed out is ever taken back. */
  lemma {:induction false} HistoryGrows(run: seq<Session>, steps: seq<Step>, i: nat, k: nat)
    requires IsRun(run, steps) && i <= k < |run|
    ensures Grown(run[i], run[k])
  {
    if i < k {
      HistoryGrows(run, steps, i, k - 1);
      GrowsAt(run, steps, k - 1);
      GrownTransitive(run[i], run[k - 1], run[k]);
    }
  }

  /** Once accepted, address and device count stay what they are for the rest of the run. */
  lemma AcceptedFieldsStay(run: seq<Session>, steps: seq<Step>, i: nat, k: nat)
    requires IsRun(run, steps) && i <= k < |run|
    ensures |run[i].accepted| >= 2 ==>
      run[k].shared.mac == run[i].shared.mac && run[k].shared.macInv == run[i].shared.macInv
    ensures |run[i].accepted| >= 3 ==> run[k].shared.numDevices == run[i].shared.numDevices
  {
    RunKeepsInvariants(run, steps, i);
    RunKeepsInvariants(run, steps, k);
    HistoryGrows(run, steps, i, k);
  }

  /** The state in which a handshake packet is expected. */
  function ExpectedIn(cmd: bv8): State {
    if cmd == 0x02 then STATE_NOT_CONNECTED else if cmd == 0x0A then STATE_START else STATE_MAC
  }

  predicate WellFormed(p: Packet) {
    || (p.cmd == 0x02 && |p.data| == 13)
    || (p.cmd == 0x0A && |p.data| == 13)
    || (p.cmd == 0x05 && |p.data| % 8 == 0 && |p.data| != 8)
  }

  /** A well-formed handshake packet that is out of order or repeated changes nothing, and one that
      is in order and addressed to us is never ignored. */
  lemma OutOfOrderIgnored(s: Session, p: Packet)
    requires WellFormed(p) && s.worker == Polling
    ensures Receiving(s, p) == s <==> !ForUs(p, s.shared.mac) || s.shared.state != ExpectedIn(p.cmd)
  {
  }

  /** But a 02 or 05 packet of the wrong size ends the connection in every state, also when it comes
      long after the handshake. */
  lemma MisshapenIsFatal(s: Session, p: Packet)
    requires s.worker == Polling && ForUs(p, s.shared.mac) && (p.cmd == 0x02 || p.cmd == 0x05) && !WellFormed(p)
    ensures Receiving(s, p).shared.state == STATE_ERROR
  {
  }

  /** The device count of a connection is positive unless the 05 packet was empty. */
  lemma DeviceCountPositiveIff(run: seq<Session>, steps: seq<Step>, k: nat)
    requires IsRun(run, steps) && k < |run| && run[k].shared.state == STATE_CONNECTED
    ensures |run[k].accepted| == 3
    ensures run[k].shared.numDevices >= 1 <==> run[k].accepted[2].data != []
  {
    ConnectedIsHandshaken(run, steps, k);
  }

  // ---- the queue ----

  /** The queue is bounded, and holds the packets that arrived last; what the client got is an
      in-order selection of the others. */
  lemma QueueIsRecentArrivals(run: seq<Session>, steps: seq<Step>, k: nat)
    requires IsRun(run, steps) && k < |run|
    ensures var s := run[k];
      && |s.shared.packets| <= 40 && |s.shared.packets| <= |s.arrived| && |s.fate| <= |s.arrived|
      && s.shared.packets == s.arrived[|s.arrived| - |s.shared.packets|..]
      && s.got == Chosen(s.arrived, s.fate)
  {
    RunKeepsInvariants(run, steps, k);
  }

  /** A data packet arrives while forty are unread. */
  ghost predicate Overrun(s: Session, step: Step) {
    step.Receive? && React(s.shared, step.p) == Store && |s.shared.packets| >= MAX_PACKETS_SIZE
  }

  lemma OverrunIs(s: Session, step: Step)
    ensures Overrun(s, step) <==>
      && step.Receive? && (step.p.cmd == 0x01 || step.p.cmd == 0x08)
      && (step.p.dst == s.shared.mac || step.p.dst == [0, 0, 0, 0, 0, 0] || step.p.dst == [0xff, 0xff, 0xff, 0xff, 0xff, 0xff])
      && |s.shared.packets| >= 40
  {
  }

  lemma {:induction false} AllChosen(arrived: seq<Packet>, fate: seq<Fate>)
    requires |fate| <= |arrived| && Dropped !in fate
    ensures Chosen(arrived, fate) == arrived[..|fate|]
    decreases |fate|
  {
    if fate != [] {
      var n := |fate| - 1;
      assert fate[n] == Consumed by {
        assert fate[n] in fate;
      }
      AllChosen(arrived, fate[..n]);
      assert arrived[..n] + [arrived[n]] == arrived[..n + 1];
    }
  }

  lemma OneStepDrops(s: Session, step: Step)
    requires Enabled(s, step)
    ensures Dropped in Next(s, step).fate <==> Dropped in s.fate || Overrun(s, step)
  {
    var n := Next(s, step);
    if Overrun(s, step) {
      assert n.fate == s.fate + [Dropped];
      assert n.fate[|s.fate|] == Dropped;
    } else if Dropped in s.fate {
      assert Prefix(s.fate, n.fate);
    }
  }

  lemma DropsAt(run: seq<Session>, steps: seq<Step>, k: nat)
    requires IsRun(run, steps) && k < |steps|
    ensures Dropped in run[k + 1].fate <==> Dropped in run[k].fate || Overrun(run[k], steps[k])
  {
    assert Leads(run, steps, k);
    OneStepDrops(run[k], steps[k]);
  }

  /** Packets are dropped exactly by overruns. */
  lemma {:induction false} DropsComeFromOverruns(run: seq<Session>, steps: seq<Step>, k: nat)
    requires IsRun(run, steps) && k < |run|
    ensures Dropped in run[k].fate <==> exists i :: 0 <= i < k && Overrun(run[i], steps[i])
  {
    if k > 0 {
      DropsComeFromOverruns(run, steps, k - 1);
      DropsAt(run, steps, k - 1);
    }
  }

  /** As long as no data packet arrives while forty are unread, the client gets every packet, in the
      order of arrival: what it got and what waits is all that came. As soon as one does, a packet
      is lost. */
  lemma LosslessIff(run: seq<Session>, steps: seq<Step>, k: nat)
    requires IsRun(run, steps) && k < |run|
    ensures run[k].got + run[k].shared.packets == run[k].arrived
      <==> !exists i :: 0 <= i < k && Overrun(run[i], steps[i])
  {
    var s := run[k];
    RunKeepsInvariants(run, steps, k);
    DropsComeFromOverruns(run, steps, k);
    if Dropped !in s.fate {
      AllChosen(s.arrived, s.fate);
    } else {
      FewerChosen(s.arrived, s.fate);
    }
  }

  lemma {:induction false} FewerChosen(arrived: seq<Packet>, fate: seq<Fate>)
    requires |fate| <= |arrived|
    ensures |Chosen(arrived, fate)| <= |fate|
    ensures Dropped in fate ==> |Chosen(arrived, fate)| < |fate|
    decreases |fate|
  {
    if fate != [] {
      var n := |fate| - 1;
      FewerChosen(arrived, fate[..n]);
      if Dropped in fate && fate[n] != Dropped {
        var i :| 0 <= i < |fate| && fate[i] == Dropped;
        assert fate[..n][i] == Dropped;
      }
    }
  }
}
