/** One tracker's connection: the reader, the delivery of commands and the reply timers, as
steps between awaits. */
module Server {
  import opened Basics
  import opened Models
  import opened Crc
  import opened Framing
  import opened Codec
  import opened Decoding
  import opened RoundTrip
  import opened Completion
  import Registry

  const PROTO_LOGIN: byte := 0x01
  const PROTO_HEARTBEAT: byte := 0x13
  const PROTO_LBS: byte := 0x18

  // ---- What one read's frames mean, frame by frame ------------------------------------------

  /** A frame as it is handled; `admit` is the allowlist's word on a login. */
  datatype Arrival = Arrival(frame: Frame, admit: bool)

  datatype Job = Locate(event: LocationEvent) | Heard(status: StatusEvent) | Answer(frame: Frame)

  /** The tracker a login names, if it is readable. */
  function Named(r: Arrival): Option<string> {
    if r.frame.protocol == PROTO_LOGIN then DecodeLogin(r.frame.content) else None
  }

  predicate LogsIn(r: Arrival) { Named(r).Some? && r.admit }
  predicate TurnedAway(r: Arrival) { Named(r).Some? && !r.admit }

  predicate IsPosition(protocol: byte) {
    protocol == PROTO_LOCATION || protocol == PROTO_LOCATION_ACC || protocol == PROTO_ALARM
  }

  predicate IsReply(protocol: byte) {
    protocol == PROTO_COMMAND_REPLY || protocol == PROTO_COMMAND_REPLY_NEW
  }

  /** The device id in force after some frames: the last admitted login's. */
  function DeviceAfter(start: Option<string>, arrivals: seq<Arrival>): Option<string> {
    if arrivals == [] then start
    else if LogsIn(arrivals[|arrivals| - 1]) then Named(arrivals[|arrivals| - 1])
    else DeviceAfter(start, arrivals[..|arrivals| - 1])
  }

  /** Which frames are acknowledged, given the device id in force. */
  predicate Accepts(device: Option<string>, r: Arrival) {
    || LogsIn(r)
    || r.frame.protocol == PROTO_HEARTBEAT
    || (device.Some? && (IsPosition(r.frame.protocol) || r.frame.protocol == PROTO_LBS))
  }

  function Position(device: string, r: Arrival): Option<LocationEvent> {
    var event := DecodeLocation(r.frame.content, device, r.frame.protocol);
    if event.Some? && r.frame.protocol == PROTO_ALARM then Some(event.value.(eventType := "alarm")) else event
  }

  /** What is published for a frame, given the device id in force. */
  function JobsOf(device: Option<string>, r: Arrival): seq<Job> {
    if device.None? then []
    else if IsPosition(r.frame.protocol) then
      (var event := Position(device.value, r); if event.Some? then [Locate(event.value)] else [])
    else if r.frame.protocol == PROTO_HEARTBEAT then
      (var status := DecodeHeartbeat(r.frame.content, device.value); if status.Some? then [Heard(status.value)] else [])
    else if IsReply(r.frame.protocol) then [Answer(r.frame)]
    else []
  }

  /** What a publish says about the ignition. */
  function Says(job: Job): Option<bool> {
    match job
    case Locate(event) => event.ignition
    case Heard(status) => Some(status.ignition)
    case Answer(_) => None
  }

  /** What a frame says of the ignition, read off its bytes: bit 1 of a heartbeat's first byte, or
  what a position tells. */
  function Reported(r: Arrival): Option<bool> {
    var content := r.frame.content;
    if r.frame.protocol == 0x13 then (if content == [] then None else Some(content[0] / 2 % 2 == 1))
    else if r.frame.protocol in {0x12, 0x16, 0x22} then ToldIgnition(content, r.frame.protocol)
    else None
  }

  /** The frames to acknowledge, in arrival order. */
  function Acks(start: Option<string>, arrivals: seq<Arrival>): seq<Frame> {
    if arrivals == [] then []
    else
      var init, last := arrivals[..|arrivals| - 1], arrivals[|arrivals| - 1];
      Acks(start, init) + (if Accepts(DeviceAfter(start, init), last) then [last.frame] else [])
  }

  function Asked(arrivals: seq<Arrival>): seq<Frame> {
    if arrivals == [] then []
    else
      var last := arrivals[|arrivals| - 1];
      Asked(arrivals[..|arrivals| - 1]) + (if last.frame.protocol == PROTO_TIME_REQUEST then [last.frame] else [])
  }

  function Jobs(start: Option<string>, arrivals: seq<Arrival>): seq<Job> {
    if arrivals == [] then []
    else
      var init, last := arrivals[..|arrivals| - 1], arrivals[|arrivals| - 1];
      Jobs(start, init) + JobsOf(DeviceAfter(start, init), last)
  }

  // ---- The connection as a state machine --------------------------------------------------------

  /** A row just moved from queued to sent, as the claim returns it. */
  datatype Command = Command(id: nat, deviceId: string, cut: bool, text: string)

  datatype Fate = IgnitionOn | TimerArmed | ConnectionLost | Stranded

  /** What happened on the connection, in order. A call that reports a refusal, a loss or a
  timeout is about a claimed command; one that reports a reply is about whatever id it names. */
  datatype Entry =
    | Arrives(read: Arrival)
    | Unregisters(deviceId: string)
    | Registers(deviceId: string)
    | Due(job: Job)
    | Did(job: Job)
    | Wrote(packet: Packet)
    | Commanded(command: Command, packet: Packet)
    | Asks(deviceId: string)
    | Claimed(commands: seq<Command>)
    | Disposed(command: Command, fate: Fate)
    | Called(about: Option<Command>, completion: Completion)

  /** Where deliver_commands is suspended. */
  datatype Phase = Resting | Claiming | Sending(command: Command) | Completing

  /** The reader's locals: the frames of this read handled so far and what is still to be done. */
  datatype Reading = Reading(
    start: Option<string>, arrivals: seq<Arrival>, acks: seq<Frame>, asked: seq<Frame>, jobs: seq<Job>, done: seq<Job>)

  /** The session's fields; whether its reader still runs; the delivery task's locals; the timers
  running and those whose task has not run yet, each with its command; the bytes written to the
  socket; and the log. */
  datatype Link = Link(
    deviceId: Option<string>, ignition: Option<bool>, refused: bool, open: bool, outSerial: word,
    awaiting: map<nat, Command>, lapsed: seq<Command>,
    phase: Phase, claimant: string, todo: seq<Command>,
    reading: Reading, outbound: seq<byte>, log: seq<Entry>)

  datatype Action =
    | Handles(read: Arrival)
    | Does(i: nat)                    // one of the gathered publishes finishes
    | Replies(clocks: seq<Clock>)     // all have: ACKs and time replies are written
    | Closes                          // handle() ends: end of stream, timeout, error or refusal
    | Delivers                        // a delivery task gets the lock
    | ClaimFails
    | Claims(commands: seq<Command>, writes: bool)  // rows just moved to sent; does the next write raise?
    | Drains(writes: bool)
    | Breaks                          // the drain raises a connection error
    | Completes(writes: bool)         // the complete call of a refusal or a loss returns
    | Fires(id: nat)                  // a reply timer
    | Lapses(i: nat)                  // the task it started runs

  datatype Tongue = Tongue(utf16: seq<byte> -> string, isFailure: string -> bool)

  function Idle(device: Option<string>): Reading { Reading(device, [], [], [], [], []) }

  const FRESH := Link(None, None, false, true, 0, map[], [], Resting, "", [], Idle(None), [], [])

  /** A clock build_time_response can print. */
  predicate InRange(t: Clock) {
    && 2000 <= t.year < 2256 && 1 <= t.month <= 12 && 1 <= t.day <= 31
    && 0 <= t.hour < 24 && 0 <= t.minute < 60 && 0 <= t.second < 60
  }

  predicate Answerable(l: Link, clocks: seq<Clock>) {
    |clocks| == |l.reading.asked| && forall t | t in clocks :: InRange(t)
  }

  predicate BetweenReads(l: Link) { l.reading == Idle(l.deviceId) }

  /** A refused login ends the loop once its read is done; deliveries and timers go on after it. */
  predicate Enabled(l: Link, a: Action) {
    match a
    case Handles(_) => l.open && l.reading.done == [] && (l.refused ==> l.reading.arrivals != [])
    case Does(i) => i < |l.reading.jobs|
    case Replies(clocks) => l.reading.jobs == [] && Answerable(l, clocks)
    case Closes => l.open && BetweenReads(l)
    case Delivers => l.phase == Resting && l.deviceId.Some?
    case ClaimFails => l.phase == Claiming
    case Claims(commands, _) => l.phase == Claiming && forall c | c in commands :: c.deviceId == l.claimant
    case Drains(_) => l.phase.Sending?
    case Breaks => l.phase.Sending?
    case Completes(_) => l.phase == Completing
    case Fires(id) => id in l.awaiting
    case Lapses(i) => i < |l.lapsed|
  }

  function Arrived(l: Link, r: Arrival): Link {
    Logged(l.(reading := l.reading.(arrivals := l.reading.arrivals + [r])), Arrives(r))
  }

  function Logged(l: Link, e: Entry): Link { l.(log := l.log + [e]) }

  function Acked(l: Link, frame: Frame): Link {
    l.(reading := l.reading.(acks := l.reading.acks + [frame]))
  }

  /** A login: the registry forgets the former name, if it is another, and learns the new one. */
  function LoggedIn(l: Link, name: string): Link {
    var l1 := if l.deviceId.Some? && l.deviceId.value != name then Logged(l, Unregisters(l.deviceId.value)) else l;
    Logged(l1.(deviceId := Some(name)), Registers(name))
  }

  /** The end of handle(): the registry forgets the name, and the reader is gone. */
  function Closed(l: Link): Link {
    (if l.deviceId.Some? then Logged(l, Unregisters(l.deviceId.value)) else l).(open := false)
  }

  /** One frame is handled: everything between two awaits of the reader. */
  function Handled(l: Link, r: Arrival): Link {
    var d, f := l.deviceId, r.frame;
    if f.protocol == PROTO_LOGIN then
      var name := DecodeLogin(f.content);
      if name.None? then l
      else if !r.admit then l.(refused := true)
      else Acked(LoggedIn(l, name.value), f)
    else if IsPosition(f.protocol) then
      if d.None? then l
      else
        var event := Position(d.value, r);
        if event.None? then Acked(l, f) else Enqueued(Acked(l, f), Locate(event.value))
    else if f.protocol == PROTO_LBS then
      if d.None? then l else Acked(l, f)
    else if f.protocol == PROTO_HEARTBEAT then
      var status := if d.Some? then DecodeHeartbeat(f.content, d.value) else None;
      if status.None? then Acked(l, f) else Enqueued(Acked(l, f), Heard(status.value))
    else if f.protocol == PROTO_TIME_REQUEST then
      l.(reading := l.reading.(asked := l.reading.asked + [f]))
    else if IsReply(f.protocol) then
      if d.None? then l else Enqueued(l, Answer(f))
    else l
  }

  /** A publish joins the gathered ones; its ignition is taken over at once. */
  function Enqueued(l: Link, job: Job): Link {
    var said := Says(job);
    Logged(l.(ignition := if said.Some? then said else l.ignition,
              reading := l.reading.(jobs := l.reading.jobs + [job])), Due(job))
  }

  // ---- What is written --------------------------------------------------------------------------

  function AckPacket(frame: Frame): Packet {
    assert BuildFrame(frame.protocol, frame.serial, []).Ok?;
    Request(frame.protocol, frame.serial, [])
  }

  function AckPackets(frames: seq<Frame>): seq<Packet> {
    if frames == [] then [] else [AckPacket(frames[0])] + AckPackets(frames[1..])
  }

  function AckBytes(frames: seq<Frame>): seq<byte> {
    if frames == [] then [] else BuildAck(frames[0].protocol, frames[0].serial).value + AckBytes(frames[1..])
  }

  function TimePacket(frame: Frame, t: Clock): Packet
    requires InRange(t)
  {
    var content := [t.year - 2000, t.month, t.day, t.hour, t.minute, t.second];
    assert BuildFrame(PROTO_TIME_REQUEST, frame.serial, content).Ok?;
    Request(PROTO_TIME_REQUEST, frame.serial, content)
  }

  function TimePackets(asked: seq<Frame>, clocks: seq<Clock>): seq<Packet>
    requires |clocks| == |asked| && forall t | t in clocks :: InRange(t)
  {
    if asked == [] then [] else [TimePacket(asked[0], clocks[0])] + TimePackets(asked[1..], clocks[1..])
  }

  function TimeBytes(asked: seq<Frame>, clocks: seq<Clock>): seq<byte>
    requires |clocks| == |asked| && forall t | t in clocks :: InRange(t)
  {
    if asked == [] then []
    else
      assert InRange(clocks[0]);
      BuildTimeResponse(asked[0].serial, clocks[0]).value + TimeBytes(asked[1..], clocks[1..])
  }

  function Wrotes(packets: seq<Packet>): seq<Entry> {
    if packets == [] then [] else [Wrote(packets[0])] + Wrotes(packets[1..])
  }

  /** The command can be printed: build_command does not raise. */
  predicate Printable(c: Command) {
    IsAscii(c.text) && |c.text| <= 243 && c.id < FLAG_LIMIT
  }

  function CommandPacket(serial: word, c: Command): (p: Packet)
    requires Printable(c)
    ensures p.protocol == PROTO_COMMAND && p.serial == serial && p.content == CommandContent(c.id, c.text)
  {
    assert BuildFrame(PROTO_COMMAND, serial, CommandContent(c.id, c.text)).Ok?;
    Request(PROTO_COMMAND, serial, CommandContent(c.id, c.text))
  }

  // ---- Delivery -----------------------------------------------------------------------------------

  function Strand(commands: seq<Command>): seq<Entry> {
    if commands == [] then [] else [Disposed(commands[0], Stranded)] + Strand(commands[1..])
  }

  /** The last check before a cut. */
  predicate Refused(l: Link, c: Command) { c.cut && l.ignition == Some(true) }

  /** The loop of deliver_commands, up to its next await. */
  function Begun(l: Link, todo: seq<Command>, writes: bool): Link {
    if todo == [] then l.(phase := Resting, todo := [])
    else if Refused(l, todo[0]) then GivenUp(l.(todo := todo[1..]), todo[0], IgnitionOn, "ignition_on")
    else Tried(l, todo, writes)
  }

  /** The next serial of our own packets; two bytes, so it wraps. */
  function Following(serial: word): word { (serial + 1) % 0x1_0000 }

  /** A command that cannot be printed raises out of the task, and the rest stay where they are. */
  function Tried(l: Link, todo: seq<Command>, writes: bool): Link
    requires todo != []
  {
    var c, serial := todo[0], Following(l.outSerial);
    var bytes := BuildCommand(serial, c.id, c.text);
    if bytes.Err? then
      l.(outSerial := serial, phase := Resting, todo := [], log := l.log + Strand(todo))
    else if writes then
      Posted(l.(outSerial := serial, todo := todo[1..]), c, serial, bytes.value)
    else GivenUp(l.(outSerial := serial, todo := todo[1..]), c, ConnectionLost, "connection_lost")
  }

  function Posted(l: Link, c: Command, serial: word, bytes: seq<byte>): Link
    requires Printable(c)
  {
    Logged(l.(phase := Sending(c), outbound := l.outbound + bytes), Commanded(c, CommandPacket(serial, c)))
  }

  /** The command fails, and an outcome is sent off under the device id the session has by now. */
  function GivenUp(l: Link, c: Command, fate: Fate, error: string): Link {
    Logged(Logged(l.(phase := Completing), Disposed(c, fate)), Called(Some(c), Failure(l.deviceId, c.id, error)))
  }

  /** Nothing is recorded before a login, so there always is a device id. */
  function Failure(device: Option<string>, id: nat, error: string): Completion {
    Completion(id, Name(device), false, None, Some(error))
  }

  function Name(device: Option<string>): string { if device.Some? then device.value else "" }

  /** The outcome a reply records. */
  function ReplyCompletion(device: string, reply: CommandReply, failed: bool): Completion {
    var error := if failed then Some("tracker_reported_failure") else None;
    Completion(reply.serverFlag, device, !failed, Some(reply.text), error)
  }

  function Done(t: Tongue, l: Link, job: Job): Link {
    if job.Answer? && l.deviceId.Some? then
      var reply := DecodeCommandReply(job.frame.protocol, job.frame.content, t.utf16);
      if reply.None? then Logged(l, Did(job))
      else
        var call := ReplyCompletion(l.deviceId.value, reply.value, t.isFailure(reply.value.text));
        Logged(Logged(l.(awaiting := l.awaiting - {reply.value.serverFlag}), Called(None, call)), Did(job))
    else Logged(l, Did(job))
  }

  /** The timer is forgotten, and a task started for its report ... */
  function TimerFired(l: Link, id: nat): Link
    requires id in l.awaiting
  {
    l.(awaiting := l.awaiting - {id}, lapsed := l.lapsed + [l.awaiting[id]])
  }

  /** ... which reads the device id when it runs. */
  function Lapsed(l: Link, i: nat): Link
    requires i < |l.lapsed|
  {
    var c := l.lapsed[i];
    Logged(l.(lapsed := l.lapsed[..i] + l.lapsed[i + 1..]), Called(Some(c), Failure(l.deviceId, c.id, NO_REPLY)))
  }

  /** Once drained, the timer is armed. */
  function Armed(l: Link): Link
    requires l.phase.Sending?
  {
    var c := l.phase.command;
    Logged(l.(awaiting := l.awaiting[c.id := c]), Disposed(c, TimerArmed))
  }

  function JobDone(t: Tongue, l: Link, i: nat): Link
    requires i < |l.reading.jobs|
  {
    var job, jobs := l.reading.jobs[i], l.reading.jobs;
    Done(t, l, job).(reading := l.reading.(jobs := jobs[..i] + jobs[i + 1..], done := l.reading.done + [job]))
  }

  function Replied(l: Link, clocks: seq<Clock>): Link
    requires Answerable(l, clocks)
  {
    var acks, asked := l.reading.acks, l.reading.asked;
    l.(log := l.log + Wrotes(AckPackets(acks) + TimePackets(asked, clocks)),
       outbound := l.outbound + AckBytes(acks) + TimeBytes(asked, clocks),
       reading := Idle(l.deviceId))
  }

  /** The delivery task has the lock and asks for the commands of the device id it finds. */
  function Asking(l: Link): Link {
    Logged(l.(phase := Claiming, claimant := Name(l.deviceId)), Asks(Name(l.deviceId)))
  }

  function After(t: Tongue, l: Link, a: Action): Link
    requires Enabled(l, a)
  {
    match a
    case Handles(r) => Handled(Arrived(l, r), r)
    case Does(i) => JobDone(t, l, i)
    case Replies(clocks) => Replied(l, clocks)
    case Closes => Closed(l)
    case Delivers => Asking(l)
    case ClaimFails => l.(phase := Resting)
    case Claims(commands, writes) => Begun(Logged(l, Claimed(commands)), commands, writes)
    case Drains(writes) => Begun(Armed(l), l.todo, writes)
    case Breaks => GivenUp(l, l.phase.command, ConnectionLost, "connection_lost")
    case Completes(writes) => Begun(l, l.todo, writes)
    case Fires(id) => TimerFired(l, id)
    case Lapses(i) => Lapsed(l, i)
  }

  /** The loop leaves a command behind exactly when the next one passes the last check and
  cannot be printed: both known before the call. */
  lemma BegunStrandsIff(l: Link, todo: seq<Command>, writes: bool)
    ensures (exists k :: |l.log| <= k < |Begun(l, todo, writes).log| && IsStranded(Begun(l, todo, writes).log[k]))
       <==> (todo != [] && !Printable(todo[0]) && !Refused(l, todo[0]))
  {
    if todo != [] {
      PrintableIff(Following(l.outSerial), todo[0]);
    }
    hide Printable, CommandPacket, BuildCommand;
    var end := Begun(l, todo, writes);
    if todo != [] && !Printable(todo[0]) && !Refused(l, todo[0]) {
      assert end.log == l.log + Strand(todo);
      assert end.log[|l.log|] == Strand(todo)[0];
    }
  }

  /** Each attempt takes the next serial of two bytes, and the frame bears it. */
  lemma SerialAdvances(l: Link, todo: seq<Command>, writes: bool)
    requires todo != [] && !Refused(l, todo[0])
    ensures var l' := Begun(l, todo, writes);
      && l'.outSerial == (if l.outSerial == 65535 then 0 else l.outSerial + 1)
      && (l'.phase.Sending? ==>
            l'.log[|l'.log| - 1].Commanded? && l'.log[|l'.log| - 1].packet.serial == l'.outSerial)
  {
    PrintableIff(Following(l.outSerial), todo[0]);
    hide Printable, CommandPacket, BuildCommand, Strand;
  }

  /** What is reported of a command that is refused, lost or not answered. */
  lemma OutcomesNamed(l: Link, c: Command, rest: seq<Command>, writes: bool, i: nat, device: string)
    requires l.deviceId == Some(device)
    ensures c.cut && l.ignition == Some(true) ==>
              Begun(l, [c] + rest, writes).log
              == l.log + [Disposed(c, IgnitionOn),
                          Called(Some(c), Completion(c.id, device, false, None, Some("ignition_on")))]
    ensures Printable(c) && !(c.cut && l.ignition == Some(true)) ==>
              Begun(l, [c] + rest, false).log
              == l.log + [Disposed(c, ConnectionLost),
                          Called(Some(c), Completion(c.id, device, false, None, Some("connection_lost")))]
    ensures i < |l.lapsed| && l.lapsed[i] == c ==>
              Lapsed(l, i).log == l.log + [Called(Some(c), Completion(c.id, device, false, None, Some("no_reply")))]
  {
    PrintableIff(Following(l.outSerial), c);
    hide Printable, CommandPacket, BuildCommand, Strand;
  }

  lemma PrintableIff(serial: word, c: Command)
    ensures BuildCommand(serial, c.id, c.text).Ok? <==> Printable(c)
  {
  }

  predicate IsStranded(e: Entry) { e.Disposed? && e.fate == Stranded }

  /** A login's registry calls come to what the registry's own login step does. */
  function Replayed(sessions: map<string, Registry.SessionId>, s: Registry.SessionId, log: seq<Entry>)
    : map<string, Registry.SessionId>
  {
    if log == [] then sessions
    else
      var before := Replayed(sessions, s, log[..|log| - 1]);
      match log[|log| - 1]
      case Unregisters(d) => Registry.Removed(before, d, s)
      case Registers(d) => before[d := s]
      case _ => before
  }

  lemma {:induction false} ReplayedAppend(sessions: map<string, Registry.SessionId>, s: Registry.SessionId,
        a: seq<Entry>, b: seq<Entry>)
    ensures Replayed(sessions, s, a + b) == Replayed(Replayed(sessions, s, a), s, b)
    decreases b
  {
    if b == [] {
      assert a + b == a;
    } else {
      assert (a + b)[..|a + b| - 1] == a + b[..|b| - 1];
      ReplayedAppend(sessions, s, a, b[..|b| - 1]);
    }
  }

  lemma LoginTellsRegistry(l: Link, r: Arrival, w: Registry.World, s: Registry.SessionId)
    requires LogsIn(r) && Registry.Enabled(w, Registry.LogsIn(s, Named(r).value)) && w.links[s].deviceId == l.deviceId
    ensures var l' := Handled(l, r);
      && l.log <= l'.log
      && Replayed(w.registry, s, l'.log[|l.log|..]) == Registry.Next(w, Registry.LogsIn(s, Named(r).value)).registry
  {
    hide DecodeLogin;
    var name := Named(r).value;
    var added := Handled(l, r).log[|l.log|..];
    if l.deviceId.Some? && l.deviceId.value != name {
      assert added == [Unregisters(l.deviceId.value), Registers(name)];
      var first := added[..1];
      assert first == [Unregisters(l.deviceId.value)] && first[..0] == [];
      assert Replayed(w.registry, s, first) == Registry.Removed(w.registry, l.deviceId.value, s);
    } else {
      assert added == [Registers(name)] && added[..0] == [];
    }
  }

  /** ... and closing, to what its closing step does. */
  lemma CloseTellsRegistry(l: Link, w: Registry.World, s: Registry.SessionId)
    requires Enabled(l, Closes)
    requires Registry.Enabled(w, Registry.Closes(s)) && w.links[s].deviceId == l.deviceId
    ensures var l' := Closed(l);
      && l.log <= l'.log
      && Replayed(w.registry, s, l'.log[|l.log|..]) == Registry.Next(w, Registry.Closes(s)).registry
  {
    var added := Closed(l).log[|l.log|..];
    if l.deviceId.Some? {
      assert added == [Unregisters(l.deviceId.value)] && added[..0] == [];
    }
  }
}
