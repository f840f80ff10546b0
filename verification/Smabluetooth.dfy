/** The connection of src/smabluetooth.cpp: its fields, and the regions of code that hold the mutex
    as methods. Every method is a step of the state machine of both threads. */
module Smabluetooth {
  import opened BtFraming
  import opened Handshake

  /** `after` is `before` and one more step. */
  ghost predicate Stepped(before: seq<Session>, after: seq<Session>, done: seq<Step>, all: seq<Step>, step: Step)
    requires before != []
  {
    var s := before[|before| - 1];
    Enabled(s, step) && after == before + [Next(s, step)] && all == done + [step]
  }

  lemma RunGrows(run: seq<Session>, steps: seq<Step>, step: Step)
    requires IsRun(run, steps) && Enabled(run[|run| - 1], step)
    ensures IsRun(run + [Next(run[|run| - 1], step)], steps + [step])
  {
    var longer, all := run + [Next(run[|run| - 1], step)], steps + [step];
    forall k | 0 <= k < |all| ensures Leads(longer, all, k) {
      assert k < |steps| ==> Leads(run, steps, k);
    }
  }

  /** The stream brings packet `p` of `own` next, and then `tail`. */
  ghost predicate Comes(incoming: seq<Event>, own: Mac, p: Packet, tail: seq<bv8>) {
    Steady(incoming) && Carries(Flat(incoming), own, p, tail) && p.data != []
  }

  class Smabluetooth {
    const con: Stream
    var state: State
    var mac: Mac
    var macInv: Mac
    var numDevices: int
    var packets: seq<Packet>
    ghost var run: seq<Session>
    ghost var steps: seq<Step>

    ghost function View(): Shared
      reads this
    {
      Shared(state, mac, macInv, numDevices, packets)
    }

    /** The fields are where the steps taken so far have led. */
    ghost predicate Valid()
      reads this
    {
      IsRun(run, steps) && run[|run| - 1].shared == View()
    }

    ghost function Now(): Session
      requires run != []
      reads this
    {
      run[|run| - 1]
    }

    constructor (con: Stream)
      ensures Valid() && this.con == con && Now() == START
      ensures state == STATE_NOT_CONNECTED && mac == macInv == [0, 0, 0, 0, 0, 0] && numDevices == 0 && packets == []
    {
      this.con := con;
      state, mac, macInv, numDevices, packets := STATE_NOT_CONNECTED, MAC_NULL, MAC_NULL, 0, [];
      run, steps := [START], [];
    }

    /** Notes the step that was taken. */
    ghost method Take(step: Step)
      requires IsRun(run, steps) && Enabled(Now(), step) && View() == Next(Now(), step).shared
      modifies `run, `steps
      ensures Valid() && Stepped(old(run), run, old(steps), steps, step)
    {
      RunGrows(run, steps, step);
      run, steps := run + [Next(Now(), step)], steps + [step];
    }

    // ---- the worker ----

    /** Command 02 up to the point where the mutex is let go: does it have to be answered? */
    method Cmd02(p: Packet) returns (ret: int, answer: bool)
      requires ForUs(p, mac) && p.cmd == 0x02
      ensures answer <==> React(View(), p) == Answer
      ensures (ret < 0 <==> React(View(), p) == Fatal) && ret <= 0
    {
      if |p.data| != 13 {
        return -1, false;
      }
      if state != STATE_NOT_CONNECTED {
        return 0, false;
      }
      return 0, true;
    }

    method Cmd0A(p: Packet) returns (ret: int)
      requires ForUs(p, mac) && p.cmd == 0x0A
      modifies `state, `mac, `macInv
      ensures ret == 0
      ensures View() == if React(old(View()), p) == TakeMac then MacTaken(old(View()), p) else old(View())
    {
      if |p.data| != 13 {
        return 0;
      }
      if state != STATE_START {
        return 0;
      }
      mac := p.data[7..13];
      macInv := p.data[0..6];
      state := STATE_MAC;
      return 0;
    }

    method Cmd05(p: Packet) returns (ret: int)
      requires ForUs(p, mac) && p.cmd == 0x05
      modifies `state, `numDevices
      ensures (ret < 0 <==> React(old(View()), p) == Fatal) && ret <= 0
      ensures View() == if React(old(View()), p) == TakeCount then CountTaken(old(View()), p) else old(View())
    {
      if |p.data| % 8 != 0 {
        return -1;
      }
      var n := |p.data| / 8 - 1;
      if n == 0 {
        return -1;
      }
      if state != STATE_MAC {
        return 0;
      }
      numDevices := n;
      state := STATE_DEVICE_LIST;
      return 0;
    }

    method StorePacket(p: Packet)
      modifies `packets
      ensures View() == old(View()).(packets := Pushed(old(packets), p))
    {
      if |packets| >= MAX_PACKETS_SIZE {
        packets := packets[1..];
      }
      packets := packets + [p];
    }

    method PacketEvent(p: Packet) returns (ret: int, answer: bool)
      requires ForUs(p, mac) && !IsData(p)
      modifies `state, `mac, `macInv, `numDevices
      ensures var c := old(View());
        && (ret < 0 <==> React(c, p) == Fatal) && ret <= 0
        && (answer <==> React(c, p) == Answer)
        && View() == if React(c, p) == TakeMac then MacTaken(c, p)
                     else if React(c, p) == TakeCount then CountTaken(c, p) else c
    {
      ret, answer := 0, false;
      if p.cmd == 0x02 {
        ret, answer := Cmd02(p);
      } else if p.cmd == 0x0A {
        ret := Cmd0A(p);
      } else if p.cmd == 0x05 {
        ret := Cmd05(p);
      }
    }

    /** What the worker does with a packet it has read; `answer` tells whether command 02 is to be
        answered. Packets with command 01 or 08 go into the queue, if they are addressed to us, to nobody
        or to everybody. */
    method Handle(p: Packet) returns (ret: int, answer: bool)
      requires Valid() && Now().worker == Polling
      modifies `state, `mac, `macInv, `numDevices, `packets, `run, `steps
      ensures Valid() && Stepped(old(run), run, old(steps), steps, Receive(p))
      ensures answer <==> Now().worker == Answering(p)
      ensures ret < 0 <==> Now().worker == Stopped
      ensures var data := (p.cmd == 0x01 || p.cmd == 0x08) &&
        (p.dst == old(mac) || p.dst == [0, 0, 0, 0, 0, 0] || p.dst == [0xff, 0xff, 0xff, 0xff, 0xff, 0xff]);
        packets == if !data then old(packets) else if |old(packets)| < 40 then old(packets) + [p] else old(packets)[1..] + [p]
    {
      DataQueuedIff(Now(), p);
      var forUs := p.dst == mac || p.dst == MAC_NULL || p.dst == MAC_BROADCAST;
      ret, answer := 0, false;
      if (p.cmd == 0x01 || p.cmd == 0x08) && forUs {
        StorePacket(p);
      } else if forUs {
        ret, answer := PacketEvent(p);
        if ret < 0 {
          state := STATE_ERROR;
        }
      }
      Take(Receive(p));
    }

    /** The second half of command 02: the answer goes back to where the packet came from. If it
        cannot be written the worker gives up. */
    method SendAnswer(p: Packet) returns (ret: int)
      requires Valid() && Now().worker == Answering(p) && |p.data| == 13
      modifies `state, `run, `steps, con`accepts, con`outgoing
      ensures Valid() && Stepped(old(run), run, old(steps), steps, AnswerSent(ret == 0))
      ensures View() == old(View()).(state := if ret == 0 then STATE_START else STATE_ERROR)
      ensures ret == if Accepted(old(con.accepts)) then 0 else -1
      ensures con.outgoing == old(con.outgoing) + if ret == 0 then Encode(mac, Packet(p.dst, p.src, 0x02, p.data)) else []
    {
      ret := WritePacket(con, mac, Packet(p.dst, p.src, 0x02, p.data));
      if ret < 0 {
        state := STATE_ERROR;
      } else {
        state := STATE_START;
      }
      Take(AnswerSent(ret == 0));
    }

    /** The stream broke, or brought something that is no packet. */
    method GiveUp()
      requires Valid() && Now().worker == Polling
      modifies `state, `run, `steps
      ensures Valid() && Stepped(old(run), run, old(steps), steps, StreamFails)
      ensures View() == old(View()).(state := STATE_ERROR)
    {
      state := STATE_ERROR;
      Take(StreamFails);
    }

    /** Takes a packet as far as it goes. */
    method Deal(p: Packet)
      requires Valid() && Now().worker == Polling
      modifies this, con`accepts, con`outgoing
      ensures Valid() && |steps| in {|old(steps)| + 1, |old(steps)| + 2} && steps[..|old(steps)|] == old(steps)
      ensures steps[|old(steps)|] == Receive(p) && (|steps| == |old(steps)| + 2 ==> steps[|old(steps)| + 1].AnswerSent?)
      ensures React(old(View()), p) == Store ==> Stepped(old(run), run, old(steps), steps, Receive(p))
      ensures var data := (p.cmd == 0x01 || p.cmd == 0x08) &&
        (p.dst == old(mac) || p.dst == [0, 0, 0, 0, 0, 0] || p.dst == [0xff, 0xff, 0xff, 0xff, 0xff, 0xff]);
        packets == if !data then old(packets) else if |old(packets)| < 40 then old(packets) + [p] else old(packets)[1..] + [p]
    {
      var ret, answer := Handle(p);
      if answer {
        AnsweredIsThirteen(this, p);
        ret := SendAnswer(p);
      }
    }

    /** One round of the worker, with nothing of the other thread in between: it reads a packet and
        takes it as far as it goes. A packet at the front of the stream is the one it takes, and if it
        is data for us the round is that one step and the stream goes on behind the packet. */
    method WorkerRound(data: array<bv8>, ghost own: Mac, ghost p: Packet, ghost tail: seq<bv8>)
      requires Valid() && Now().worker == Polling && data.Length == MAX_DATA
      modifies this, con, data
      ensures Valid() && |old(steps)| <= |steps| <= |old(steps)| + 2 && steps[..|old(steps)|] == old(steps)
      ensures Comes(old(con.incoming), own, p, tail) ==> |steps| > |old(steps)| && steps[|old(steps)|] == Receive(p.(src := own))
      ensures |steps| == |old(steps)| + 2 ==> steps[|old(steps)| + 1].AnswerSent?
      ensures Comes(old(con.incoming), own, p, tail) && React(old(View()), p.(src := own)) == Store ==> (
        Stepped(old(run), run, old(steps), steps, Receive(p.(src := own))) && Steady(con.incoming) && Flat(con.incoming) == tail)
      ensures Comes(old(con.incoming), own, p, tail) ==> (
        var data := (p.cmd == 0x01 || p.cmd == 0x08) &&
          (p.dst == old(mac) || p.dst == [0, 0, 0, 0, 0, 0] || p.dst == [0xff, 0xff, 0xff, 0xff, 0xff, 0xff]);
        var q := p.(src := own);
        packets == if !data then old(packets) else if |old(packets)| < 40 then old(packets) + [q] else old(packets)[1..] + [q])
    {
      var res := ReceivePacket(con, data, own, p, tail);
      match res {
        case Idle =>
        case Failed => GiveUp();
        case Got(packet) => Deal(packet);
      }
    }

    // ---- the other thread ----

    /** The waiting loop of `connect`, one look at the state. */
    method TryConnect() returns (done: bool, ret: int)
      requires Valid() && Now().client == Connecting
      modifies `state, `run, `steps
      ensures Valid() && Stepped(old(run), run, old(steps), steps, Connect)
      ensures done && ret == 0 <==> Now().client == Ready
      ensures done && ret < 0 <==> Now().client == GaveUp
      ensures !done <==> Now().client == Connecting
      ensures old(state) == STATE_DEVICE_LIST ==> done && ret == 0 && View() == old(View()).(state := STATE_CONNECTED)
      ensures old(state) == STATE_ERROR ==> done && ret == -1 && View() == old(View()).(state := STATE_NOT_CONNECTED)
      ensures old(state) != STATE_DEVICE_LIST && old(state) != STATE_ERROR ==> !done && View() == old(View())
    {
      done, ret := true, 0;
      if state != STATE_DEVICE_LIST {
        if state == STATE_ERROR {
          state := STATE_NOT_CONNECTED;
          ret := -1;
        } else {
          done := false;
        }
      } else {
        state := STATE_CONNECTED;
      }
      Take(Connect);
    }

    /** `connect` gives up after the worker has ended. */
    method TimeOut() returns (ret: int)
      requires Valid() && Now().client == Connecting && !Now().worker.Answering?
      modifies `state, `run, `steps
      ensures Valid() && Stepped(old(run), run, old(steps), steps, ConnectTimesOut)
      ensures ret == -1 && Now().client == GaveUp && View() == old(View()).(state := STATE_NOT_CONNECTED)
    {
      state := STATE_NOT_CONNECTED;
      ret := -1;
      Take(ConnectTimesOut);
    }

    /** Takes the front packet, if there is one. */
    method TakePacket() returns (p: seq<Packet>)
      modifies `packets
      ensures p == if old(packets) == [] then [] else [old(packets)[0]]
      ensures View() == old(View()).(packets := old(packets)[|p|..])
    {
      if packets == [] {
        return [];
      }
      p := [packets[0]];
      packets := packets[1..];
    }

    /** `readPacket` up to its first wait. */
    method EnterRead() returns (ret: int, p: seq<Packet>)
      requires Valid() && Now().client == Ready
      modifies `packets, `run, `steps
      ensures Valid() && Stepped(old(run), run, old(steps), steps, ReadEnter)
      ensures ret < 0 <==> state != STATE_CONNECTED
      ensures p == if ret < 0 || old(packets) == [] then [] else [old(packets)[0]]
      ensures View() == old(View()).(packets := old(packets)[|p|..])
      ensures Now().got == old(Now().got) + p && (Now().client == Waiting <==> ret == 0 && p == [])
    {
      ret, p := 0, [];
      if state != STATE_CONNECTED {
        ret := -1;
      } else {
        p := TakePacket();
      }
      Take(ReadEnter);
    }

    /** The wait is over: there is a packet, or not yet. */
    method WakeRead() returns (p: seq<Packet>)
      requires Valid() && Now().client == Waiting
      modifies `packets, `run, `steps
      ensures Valid() && Stepped(old(run), run, old(steps), steps, ReadWake)
      ensures p == if old(packets) == [] then [] else [old(packets)[0]]
      ensures View() == old(View()).(packets := old(packets)[|p|..])
      ensures Now().got == old(Now().got) + p && (Now().client == Waiting <==> p == [])
    {
      p := TakePacket();
      Take(ReadWake);
    }

    /** Nothing came. */
    method EndRead() returns (ret: int)
      requires Valid() && Now().client == Waiting
      modifies `run, `steps
      ensures Valid() && Stepped(old(run), run, old(steps), steps, ReadTimesOut)
      ensures ret == 0
    {
      ret := 0;
      Take(ReadTimesOut);
    }
  }

  /** Only a packet of 13 bytes is answered. */
  lemma AnsweredIsThirteen(b: Smabluetooth, p: Packet)
    requires b.Valid() && b.Now().worker == Answering(p)
    ensures |p.data| == 13
  {
    RunKeepsInvariants(b.run, b.steps, |b.run| - 1);
  }

  /** What holds of a connection whenever the mutex is free: its queue is bounded and holds what
      arrived last, and being connected means that the handshake was completed with the values the
      fields have. */
  lemma ConnectionSafe(b: Smabluetooth)
    requires b.Valid()
    ensures |b.packets| <= 40 && |b.packets| <= |b.Now().arrived|
    ensures b.packets == b.Now().arrived[|b.Now().arrived| - |b.packets|..]
    ensures b.state == STATE_CONNECTED ==> (
      var a := b.Now().accepted;
      |a| == 3 && IsStart(a[0]) && IsMac(a[1], b.View()) && IsCount(a[2], b.View()))
  {
    var k := |b.run| - 1;
    QueueIsRecentArrivals(b.run, b.steps, k);
    if b.state == STATE_CONNECTED {
      ConnectedIsHandshaken(b.run, b.steps, k);
    }
  }

  /** And nothing was lost exactly as long as no packet arrived while forty were unread. */
  lemma ConnectionLosslessIff(b: Smabluetooth)
    requires b.Valid()
    ensures b.Now().got + b.packets == b.Now().arrived
      <==> !exists i :: 0 <= i < |b.steps| && Overrun(b.run[i], b.steps[i])
  {
    LosslessIff(b.run, b.steps, |b.run| - 1);
  }
}
