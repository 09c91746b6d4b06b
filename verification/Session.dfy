/** DeviceSession as a class: each method is one stretch of the reader, of the delivery task or
of a timer between two awaits, tied to the step it takes in the state machine of Server. */
module Session {
  import opened Basics
  import opened Models
  import opened Crc
  import opened Framing
  import opened Codec
  import opened Decoding
  import opened RoundTrip
  import opened Completion
  import opened Server
  import opened Connections

  class DeviceSession {
    const tongue: Tongue
    var deviceId: Option<string>
    var ignition: Option<bool>
    var refused: bool
    /** The reader is still in its loop. */
    var open: bool
    var outSerial: word
    /** Each running timer, with the command it is for; and the tasks of those that fired. */
    var awaiting: map<nat, Command>
    var lapsed: seq<Command>
    /** What has been written to the socket. */
    var outbound: seq<byte>
    /** The locals of _process_frames and of deliver_commands, and where the latter waits. */
    var acks: seq<Frame>
    var asked: seq<Frame>
    var jobs: seq<Job>
    var phase: Phase
    var claimant: string
    var todo: seq<Command>
    ghost var start: Option<string>
    ghost var arrivals: seq<Arrival>
    ghost var done: seq<Job>
    ghost var log: seq<Entry>

    ghost function View(): Link
      reads this
    {
      Link(deviceId, ignition, refused, open, outSerial, awaiting, lapsed, phase, claimant, todo,
           Reading(start, arrivals, acks, asked, jobs, done), outbound, log)
    }

    constructor (tongue: Tongue)
      ensures View() == FRESH && this.tongue == tongue
    {
      this.tongue := tongue;
      deviceId, ignition, refused, open, outSerial, outbound := None, None, false, true, 0, [];
      awaiting, lapsed, phase, claimant, todo := map[], [], Resting, "", [];
      acks, asked, jobs := [], [], [];
      start, arrivals, done, log := None, [], [], [];
    }

    /** One turn of the loop over a read's frames. */
    method HandleFrame(r: Arrival)
      modifies this`deviceId, this`ignition, this`refused, this`acks, this`asked, this`jobs, this`arrivals, this`log
      ensures View() == Handled(Arrived(old(View()), r), r)
    {
      hide Handled;
      arrivals, log := arrivals + [r], log + [Arrives(r)];
      if r.frame.protocol == PROTO_LOGIN {
        HandleLogin(r);
      } else if IsPosition(r.frame.protocol) {
        HandlePosition(r);
      } else if r.frame.protocol == PROTO_HEARTBEAT {
        HandleHeartbeat(r);
      } else {
        HandleOther(r);
      }
    }

    method HandleLogin(r: Arrival)
      requires r.frame.protocol == PROTO_LOGIN
      modifies this`deviceId, this`refused, this`acks, this`log
      ensures View() == Handled(old(View()), r)
    {
      hide DecodeLogin;
      var name := DecodeLogin(r.frame.content);
      if name.None? { return; }
      if !r.admit {
        refused := true;
        return;
      }
      if deviceId.Some? && deviceId != name {
        log := log + [Unregisters(deviceId.value)];
      }
      deviceId := name;
      log := log + [Registers(name.value)];
      acks := acks + [r.frame];
    }

    method HandlePosition(r: Arrival)
      requires IsPosition(r.frame.protocol)
      modifies this`ignition, this`acks, this`jobs, this`log
      ensures View() == Handled(old(View()), r)
    {
      hide Enqueued, Position;
      if deviceId.None? { return; }
      var event := Position(deviceId.value, r);
      acks := acks + [r.frame];
      if event.Some? { Enqueue(Locate(event.value)); }
    }

    method HandleHeartbeat(r: Arrival)
      requires r.frame.protocol == PROTO_HEARTBEAT
      modifies this`ignition, this`acks, this`jobs, this`log
      ensures View() == Handled(old(View()), r)
    {
      hide Enqueued, DecodeHeartbeat;
      acks := acks + [r.frame];
      if deviceId.Some? {
        var status := DecodeHeartbeat(r.frame.content, deviceId.value);
        if status.Some? { Enqueue(Heard(status.value)); }
      }
    }

    method HandleOther(r: Arrival)
      requires r.frame.protocol != PROTO_LOGIN && !IsPosition(r.frame.protocol) && r.frame.protocol != PROTO_HEARTBEAT
      modifies this`ignition, this`acks, this`asked, this`jobs, this`log
      ensures View() == Handled(old(View()), r)
    {
      hide Enqueued;
      if r.frame.protocol == PROTO_LBS {
        if deviceId.Some? { acks := acks + [r.frame]; }
      } else if r.frame.protocol == PROTO_TIME_REQUEST {
        asked := asked + [r.frame];
      } else if IsReply(r.frame.protocol) {
        if deviceId.Some? { Enqueue(Answer(r.frame)); }
      }
    }

    method Enqueue(job: Job)
      modifies this`ignition, this`jobs, this`log
      ensures View() == Enqueued(old(View()), job)
    {
      var said := Says(job);
      jobs := jobs + [job];
      if said.Some? {
        ignition := said;
      }
      log := log + [Due(job)];
    }

    /** One of the gathered publishes runs. */
    method FinishJob(i: nat)
      requires i < |jobs|
      modifies this`awaiting, this`jobs, this`done, this`log
      ensures View() == JobDone(tongue, old(View()), i)
    {
      DoneSpares(tongue, View(), jobs[i], jobs[..i] + jobs[i + 1..], done + [jobs[i]]);
      hide Done;
      var job := jobs[i];
      jobs, done := jobs[..i] + jobs[i + 1..], done + [job];
      Perform(job);
    }

    method Perform(job: Job)
      modifies this`awaiting, this`log
      ensures View() == Done(tongue, old(View()), job)
    {
      hide DecodeCommandReply, ReplyCompletion;
      if job.Answer? && deviceId.Some? {
        var reply := DecodeCommandReply(job.frame.protocol, job.frame.content, tongue.utf16);
        if reply.Some? {
          awaiting := awaiting - {reply.value.serverFlag};
          var failed := tongue.isFailure(reply.value.text);
          log := log + [Called(None, ReplyCompletion(deviceId.value, reply.value, failed))];
        }
      }
      log := log + [Did(job)];
    }

    /** All publishes have returned: the ACKs, then the answers to time requests. */
    method WriteReplies(clocks: seq<Clock>)
      requires Answerable(View(), clocks)
      modifies this`outbound, this`acks, this`asked, this`jobs, this`start, this`arrivals, this`done, this`log
      ensures View() == Replied(old(View()), clocks)
    {
      hide Wrotes, AckPackets, TimePackets, AckBytes, TimeBytes, InRange, TimePacket;
      WriteAcks();
      WriteTimes(clocks);
      log := log + Wrotes(AckPackets(acks) + TimePackets(asked, clocks));
      start, arrivals, done := deviceId, [], [];
      acks, asked, jobs := [], [], [];
    }

    method WriteAcks()
      modifies this`outbound
      ensures outbound == old(outbound) + AckBytes(acks)
    {
      hide BuildAck;
      for i := 0 to |acks|
        invariant outbound + AckBytes(acks[i..]) == old(outbound) + AckBytes(acks)
      {
        var frame := acks[i];
        assert acks[i..][1..] == acks[i + 1..];
        outbound := outbound + BuildAck(frame.protocol, frame.serial).value;
      }
    }

    method WriteTimes(clocks: seq<Clock>)
      requires |clocks| == |asked| && forall t | t in clocks :: InRange(t)
      modifies this`outbound
      ensures outbound == old(outbound) + TimeBytes(asked, clocks)
    {
      hide BuildTimeResponse;
      for i := 0 to |asked|
        invariant outbound + TimeBytes(asked[i..], clocks[i..]) == old(outbound) + TimeBytes(asked, clocks)
      {
        assert asked[i..][1..] == asked[i + 1..] && clocks[i..][1..] == clocks[i + 1..];
        assert InRange(clocks[i]);
        outbound := outbound + BuildTimeResponse(asked[i].serial, clocks[i]).value;
      }
    }

    /** The loop over a read's frames. */
    method HandleFrames(got: seq<Arrival>)
      requires View().reading == Idle(deviceId)
      modifies this`deviceId, this`ignition, this`refused, this`acks, this`asked, this`jobs, this`arrivals, this`log
      ensures InStep(View()) && start == old(deviceId) && arrivals == got && done == []
      ensures refused <==> old(refused) || AnyTurnedAway(got)
    {
      hide InStep, Handled, Arrived, AnyTurnedAway, TurnedAway;
      IdleInStep(View());
      NobodyTurnedAway();
      for i := 0 to |got|
        invariant InStep(View()) && start == old(deviceId) && arrivals == got[..i] && done == []
        invariant refused <==> old(refused) || AnyTurnedAway(got[..i])
      {
        HandledInStep(View(), got[i]);
        HandledRefuses(View(), got[i]);
        AnyTurnedAwayGrows(got[..i], got[i]);
        assert got[..i + 1] == got[..i] + [got[i]];
        HandleFrame(got[i]);
      }
      assert got[..|got|] == got;
    }

    /** One read, with nothing else happening meanwhile: the frames are handled, their publishes
    gathered, and then everything is answered. */
    method ProcessFrames(got: seq<Arrival>, clocks: seq<Clock>)
      requires View().reading == Idle(deviceId)
      requires |clocks| == |Asked(got)| && forall t | t in clocks :: InRange(t)
      modifies this`deviceId, this`ignition, this`refused, this`awaiting, this`outbound
      modifies this`acks, this`asked, this`jobs, this`start, this`arrivals, this`done, this`log
      ensures View().reading == Idle(deviceId)
      ensures deviceId == DeviceAfter(old(deviceId), got)
      ensures refused <==> old(refused) || AnyTurnedAway(got)
      ensures outbound == old(outbound) + AckBytes(Acks(old(deviceId), got)) + TimeBytes(Asked(got), clocks)
    {
      hide InStep, AckBytes, TimeBytes, JobDone, Acks, Asked, DeviceAfter, AnyTurnedAway;
      HandleFrames(got);
      while jobs != []
        invariant InStep(View()) && outbound == old(outbound) && start == old(deviceId) && arrivals == got
        invariant refused <==> old(refused) || AnyTurnedAway(got)
        decreases |jobs|
      {
        DoneInStep(tongue, View(), 0);
        FinishJob(0);
      }
      RightReplies(View());
      WriteReplies(clocks);
    }

    /** handle(): the reading loop, and then the session's name is taken off the registry. */
    method Handle(received: seq<seq<Arrival>>, clocks: seq<seq<Clock>>)
      requires View().reading == Idle(deviceId) && open && !refused
      requires Clocked(received, clocks)
      modifies this`deviceId, this`ignition, this`refused, this`open, this`awaiting, this`outbound
      modifies this`acks, this`asked, this`jobs, this`start, this`arrivals, this`done, this`log
      ensures !open && View().reading == Idle(deviceId)
      ensures deviceId == DeviceAtEnd(old(deviceId), received)
      ensures outbound == old(outbound) + BytesOverall(old(deviceId), received, clocks)
      ensures deviceId.Some? ==> log != [] && log[|log| - 1] == Unregisters(deviceId.value)
    {
      hide AckBytes, TimeBytes, BytesOverall, DeviceAtEnd, Clocked;
      ReadOn(received, clocks);
      Close();
    }

    /** Read after read until the stream ends or a login has been turned away. */
    method ReadOn(received: seq<seq<Arrival>>, clocks: seq<seq<Clock>>)
      requires View().reading == Idle(deviceId) && !refused
      requires Clocked(received, clocks)
      modifies this`deviceId, this`ignition, this`refused, this`awaiting, this`outbound
      modifies this`acks, this`asked, this`jobs, this`start, this`arrivals, this`done, this`log
      ensures View().reading == Idle(deviceId)
      ensures deviceId == DeviceAtEnd(old(deviceId), received)
      ensures outbound == old(outbound) + BytesOverall(old(deviceId), received, clocks)
    {
      hide AckBytes, TimeBytes, Acks, Asked, DeviceAfter, InRange, AnyTurnedAway, BytesOverall, DeviceAtEnd;
      var i := 0;
      assert received[0..] == received && clocks[0..] == clocks;
      while i < |received| && !refused
        invariant 0 <= i <= |received| && View().reading == Idle(deviceId)
        invariant !refused ==> DeviceAtEnd(deviceId, received[i..]) == DeviceAtEnd(old(deviceId), received)
        invariant var all := old(outbound) + BytesOverall(old(deviceId), received, clocks);
          !refused ==> outbound + BytesOverall(deviceId, received[i..], clocks[i..]) == all
        invariant refused ==> deviceId == DeviceAtEnd(old(deviceId), received)
        invariant refused ==> outbound == old(outbound) + BytesOverall(old(deviceId), received, clocks)
      {
        ghost var before, device, rest, times := outbound, deviceId, received[i..], clocks[i..];
        assert rest[1..] == received[i + 1..] && times[1..] == clocks[i + 1..];
        ProcessFrames(received[i], clocks[i]);
        OneRead(device, rest, times, before);
        i := i + 1;
      }
      if !refused {
        assert received[i..] == [] && clocks[i..] == [];
        NothingReceived(deviceId);
      }
    }

    method Close()
      modifies this`open, this`log
      ensures View() == Closed(old(View()))
    {
      if deviceId.Some? {
        log := log + [Unregisters(deviceId.value)];
      }
      open := false;
    }

    /** The lock is taken; only a session that stands for a tracker asks for commands. */
    method Deliver() returns (asks: bool)
      requires phase == Resting
      modifies this`phase, this`claimant, this`log
      ensures asks == deviceId.Some?
      ensures View() == if asks then Asking(old(View())) else old(View())
    {
      if deviceId.None? { return false; }
      phase, claimant := Claiming, deviceId.value;
      log := log + [Asks(claimant)];
      return true;
    }

    method ClaimReturned(commands: seq<Command>, writes: bool)
      requires phase == Claiming
      modifies this`outSerial, this`outbound, this`phase, this`todo, this`log
      ensures View() == Begun(Logged(old(View()), Claimed(commands)), commands, writes)
    {
      hide Begun;
      log := log + [Claimed(commands)];
      BegunForgetsTodo(View(), commands, writes);
      todo := commands;
      Continue(writes);
    }

    method ClaimRaised()
      requires phase == Claiming
      modifies this`phase
      ensures View() == old(View()).(phase := Resting)
    {
      phase := Resting;
    }

    /** deliver_commands, from one await to the next: the loop goes on until a command is being
    written, or its failure recorded, or nothing is left. */
    method Continue(writes: bool)
      modifies this`outSerial, this`outbound, this`phase, this`todo, this`log
      ensures View() == Begun(old(View()), old(todo), writes)
    {
      hide GivenUp, Tried;
      if todo == [] {
        phase := Resting;
        return;
      }
      var command := todo[0];
      if command.cut && ignition == Some(true) {
        todo := todo[1..];
        GiveUp(command, IgnitionOn, "ignition_on");
        return;
      }
      Try(writes);
    }

    /** A command that cannot be printed raises out of the task, and the rest are left behind. */
    method Try(writes: bool)
      requires todo != []
      modifies this`outSerial, this`outbound, this`phase, this`todo, this`log
      ensures View() == Tried(old(View()), old(todo), writes)
    {
      hide GivenUp, Posted, Strand, BuildCommand, Following;
      var command := todo[0];
      outSerial := Following(outSerial);
      var frame := BuildCommand(outSerial, command.id, command.text);
      if frame.Err? {
        log := log + Strand(todo);
        phase, todo := Resting, [];
        return;
      }
      todo := todo[1..];
      if writes {
        Send(command, frame.value);
      } else {
        GiveUp(command, ConnectionLost, "connection_lost");
      }
    }

    method Send(command: Command, bytes: seq<byte>)
      requires Printable(command)
      modifies this`outbound, this`phase, this`log
      ensures View() == Posted(old(View()), command, outSerial, bytes)
    {
      hide CommandPacket;
      outbound := outbound + bytes;
      log := log + [Commanded(command, CommandPacket(outSerial, command))];
      phase := Sending(command);
    }

    method GiveUp(command: Command, fate: Fate, error: string)
      modifies this`phase, this`log
      ensures View() == GivenUp(old(View()), command, fate, error)
    {
      phase := Completing;
      log := log + [Disposed(command, fate)];
      log := log + [Called(Some(command), Failure(deviceId, command.id, error))];
    }

    method Drained(writes: bool)
      requires phase.Sending?
      modifies this`outSerial, this`outbound, this`awaiting, this`phase, this`todo, this`log
      ensures View() == Begun(Armed(old(View())), old(todo), writes)
    {
      hide Begun;
      awaiting := awaiting[phase.command.id := phase.command];
      log := log + [Disposed(phase.command, TimerArmed)];
      Continue(writes);
    }

    method DrainRaised()
      requires phase.Sending?
      modifies this`phase, this`log
      ensures View() == GivenUp(old(View()), old(phase).command, ConnectionLost, "connection_lost")
    {
      GiveUp(phase.command, ConnectionLost, "connection_lost");
    }

    /** The timer's callback starts a task ... */
    method ReplyTimedOut(id: nat)
      requires id in awaiting
      modifies this`awaiting, this`lapsed
      ensures View() == TimerFired(old(View()), id)
    {
      lapsed := lapsed + [awaiting[id]];
      awaiting := awaiting - {id};
    }

    /** ... that records the outcome when it runs. */
    method ReportNoReply(i: nat)
      requires i < |lapsed|
      modifies this`lapsed, this`log
      ensures View() == Lapsed(old(View()), i)
    {
      var command := lapsed[i];
      lapsed := lapsed[..i] + lapsed[i + 1..];
      log := log + [Called(Some(command), Failure(deviceId, command.id, NO_REPLY))];
    }
  }

  predicate AnyTurnedAway(arrivals: seq<Arrival>) {
    exists k :: 0 <= k < |arrivals| && TurnedAway(arrivals[k])
  }

  lemma NobodyTurnedAway()
    ensures !AnyTurnedAway([])
  {
  }

  lemma HandledRefuses(l: Link, r: Arrival)
    ensures Handled(Arrived(l, r), r).refused <==> l.refused || TurnedAway(r)
  {
    hide DecodeLogin, DecodeHeartbeat, Position;
  }

  lemma AnyTurnedAwayGrows(got: seq<Arrival>, r: Arrival)
    ensures AnyTurnedAway(got + [r]) <==> AnyTurnedAway(got) || TurnedAway(r)
  {
    hide TurnedAway;
    assert forall k | 0 <= k < |got| :: (got + [r])[k] == got[k];
    assert (got + [r])[|got|] == r;
  }

  /** Every time request of every read has its clock reading. */
  predicate Clocked(received: seq<seq<Arrival>>, clocks: seq<seq<Clock>>) {
    && |clocks| == |received|
    && (forall i | 0 <= i < |received| :: |clocks[i]| == |Asked(received[i])|)
    && (forall i | 0 <= i < |received| :: forall t | t in clocks[i] :: InRange(t))
  }

  /** The device id when the connection ends: the last admitted login's, up to the end of the first
  read with a login turned away. */
  function DeviceAtEnd(device: Option<string>, received: seq<seq<Arrival>>): Option<string>
    decreases received
  {
    if received == [] then device
    else
      var next := DeviceAfter(device, received[0]);
      if AnyTurnedAway(received[0]) then next else DeviceAtEnd(next, received[1..])
  }

  /** What the reader writes in that time. */
  function BytesOverall(device: Option<string>, received: seq<seq<Arrival>>, clocks: seq<seq<Clock>>): seq<byte>
    requires Clocked(received, clocks)
    decreases received
  {
    if received == [] then []
    else
      var first := AckBytes(Acks(device, received[0])) + TimeBytes(Asked(received[0]), clocks[0]);
      if AnyTurnedAway(received[0]) then first
      else first + BytesOverall(DeviceAfter(device, received[0]), received[1..], clocks[1..])
  }

  lemma NothingReceived(device: Option<string>)
    ensures DeviceAtEnd(device, []) == device && BytesOverall(device, [], []) == []
  {
  }

  lemma OneRead(device: Option<string>, received: seq<seq<Arrival>>, clocks: seq<seq<Clock>>, before: seq<byte>)
    requires Clocked(received, clocks) && received != []
    ensures var next := DeviceAfter(device, received[0]);
      var after := before + AckBytes(Acks(device, received[0])) + TimeBytes(Asked(received[0]), clocks[0]);
      if AnyTurnedAway(received[0]) then
        DeviceAtEnd(device, received) == next && before + BytesOverall(device, received, clocks) == after
      else
        && DeviceAtEnd(device, received) == DeviceAtEnd(next, received[1..])
        && before + BytesOverall(device, received, clocks) == after + BytesOverall(next, received[1..], clocks[1..])
  {
    hide AckBytes, TimeBytes, Acks, Asked, DeviceAfter, InRange, AnyTurnedAway;
    var acks, times := AckBytes(Acks(device, received[0])), TimeBytes(Asked(received[0]), clocks[0]);
    Associate(before, acks, times);
    if !AnyTurnedAway(received[0]) {
      Associate(before, acks + times, BytesOverall(DeviceAfter(device, received[0]), received[1..], clocks[1..]));
    }
  }

  /** What a publish does apart from leaving the list of those under way. */
  lemma DoneSpares(t: Tongue, l: Link, job: Job, jobs: seq<Job>, done: seq<Job>)
    ensures Done(t, l.(reading := l.reading.(jobs := jobs, done := done)), job)
         == Done(t, l, job).(reading := l.reading.(jobs := jobs, done := done))
  {
    hide DecodeCommandReply, ReplyCompletion;
  }

  lemma RightReplies(l: Link)
    requires InStep(l)
    ensures l.reading.acks == Acks(l.reading.start, l.reading.arrivals) && l.reading.asked == Asked(l.reading.arrivals)
    ensures l.deviceId == DeviceAfter(l.reading.start, l.reading.arrivals)
  {
  }

  lemma BegunForgetsTodo(l: Link, commands: seq<Command>, writes: bool)
    ensures Begun(l.(todo := commands), commands, writes) == Begun(l, commands, writes)
  {
    hide Printable, Strand, CommandPacket, BuildCommand;
  }
}
