/** What a connection's log comes to, and what every step keeps of it. */
module Ledger {
  import opened Basics
  import opened Models
  import opened Crc
  import opened Framing
  import opened Codec
  import opened Decoding
  import opened RoundTrip
  import opened Completion
  import opened Server

  /** The log summed up: the frame last handled, the tracker last logged in as, the ignition last
  reported once logged in, the device id last asked for, the command last written, whether the last
  entry left one behind, and the commands, publishes and packets so far. */
  datatype Books = Books(
    last: Option<Arrival>, device: Option<string>, ignition: Option<bool>, asked: Option<string>,
    sent: Option<Command>, stranding: bool,
    claimed: seq<Command>, disposed: seq<Command>, due: seq<Job>, did: seq<Job>, written: seq<Packet>)

  const BLANK := Books(None, None, None, None, None, false, [], [], [], [], [])

  function Entered(b: Books, e: Entry): Books {
    var b' := b.(stranding := IsStranded(e));
    match e
    case Arrives(r) =>
      b'.(last := Some(r), ignition := if b.device.Some? && Reported(r).Some? then Reported(r) else b.ignition)
    case Unregisters(_) => b'
    case Registers(d) => b'.(device := Some(d))
    case Due(job) => b'.(due := b.due + [job])
    case Did(job) => b'.(did := b.did + [job])
    case Wrote(p) => b'.(written := b.written + [p])
    case Commanded(c, p) => b'.(written := b.written + [p], sent := Some(c))
    case Asks(d) => b'.(asked := Some(d))
    case Claimed(cs) => b'.(claimed := b.claimed + cs)
    case Disposed(c, _) => b'.(disposed := b.disposed + [c])
    case Called(_, _) => b'
  }

  function Read(log: seq<Entry>): Books {
    if log == [] then BLANK else Entered(Read(log[..|log| - 1]), log[|log| - 1])
  }

  /** The tracker a publish is for. */
  function DeviceOf(job: Job): Option<string> {
    match job
    case Locate(event) => Some(event.deviceId)
    case Heard(status) => Some(status.deviceId)
    case Answer(_) => None
  }

  /** What a frame calls for once a tracker is logged in: a position is published as its bytes are
  decoded, an alarm marked as one; a heartbeat with the ignition its first byte tells. */
  predicate Calls(device: Option<string>, r: Arrival, job: Job) {
    var protocol, content := r.frame.protocol, r.frame.content;
    device.Some? &&
    match job
    case Locate(event) =>
      && protocol in {0x12, 0x16, 0x22} && DecodeLocation(content, device.value, protocol).Some?
      && event == DecodeLocation(content, device.value, protocol).value.(
                    eventType := if protocol == 0x16 then "alarm" else "location")
    case Heard(status) =>
      protocol == 0x13 && content != [] && status == StatusEvent(device.value, content[0] / 2 % 2 == 1)
    case Answer(frame) => protocol in {0x15, 0x21} && frame == r.frame
  }

  /** What may be logged after what. */
  predicate Fair(b: Books, e: Entry) {
    match e
    case Arrives(_) => true
    case Unregisters(d) => b.device == Some(d)
    case Registers(_) => true
    case Due(job) => b.last.Some? && Calls(b.device, b.last.value, job)
    case Did(job) => job in b.due
    case Wrote(_) => true
    case Commanded(c, p) =>
      && Printable(c) && p.protocol == PROTO_COMMAND && p.content == CommandContent(c.id, c.text)
      && (c.cut ==> b.ignition != Some(true))
    case Asks(d) => b.device == Some(d)
    case Claimed(cs) => forall c | c in cs :: b.asked == Some(c.deviceId)
    case Disposed(c, IgnitionOn) => c.cut && b.ignition == Some(true)
    case Disposed(c, TimerArmed) => Printable(c) && b.sent == Some(c)
    case Disposed(c, ConnectionLost) => Printable(c)
    case Disposed(c, Stranded) => b.stranding || (!Printable(c) && !(c.cut && b.ignition == Some(true)))
    case Called(about, call) => FromGateway(call) && (about.Some? ==> Reports(b, about.value, call))
  }

  /** A failure call is about a claimed command and goes out under the device id of the moment. */
  predicate Reports(b: Books, c: Command, call: Completion) {
    c in b.claimed && call.id == c.id && b.device == Some(call.deviceId) && !call.ok
  }

  predicate AllFair(log: seq<Entry>) {
    log != [] ==> AllFair(log[..|log| - 1]) && Fair(Read(log[..|log| - 1]), log[|log| - 1])
  }

  lemma {:induction false} FairAt(log: seq<Entry>, k: nat)
    requires AllFair(log) && k < |log|
    ensures AllFair(log[..k]) && Fair(Read(log[..k]), log[k])
  {
    if k == |log| - 1 {
    } else {
      var init := log[..|log| - 1];
      FairAt(init, k);
      assert init[..k] == log[..k];
    }
  }

  /** Claimed and not yet disposed of. */
  function InHand(l: Link): seq<Command> {
    (if l.phase.Sending? then [l.phase.command] else []) + l.todo
  }

  ghost predicate Carried(outbound: seq<byte>, b: Books) {
    outbound == Concat(PrintAll(b.written))
  }

  /** Once logged in a session always stands for some tracker. */
  predicate Steady(l: Link) {
    && (l.phase != Resting ==> l.deviceId.Some?)
    && (l.phase == Resting || l.phase == Claiming ==> l.todo == [])
    && (l.awaiting != map[] || l.lapsed != [] ==> l.deviceId.Some?)
  }

  /** The timers and their tasks are those of claimed commands. */
  predicate Timed(l: Link, b: Books) {
    && (forall id | id in l.awaiting :: l.awaiting[id].id == id && l.awaiting[id] in b.claimed)
    && (forall c | c in l.lapsed :: c in b.claimed)
  }

  /** The session's fields and the delivery task's locals, but for the commands in hand. */
  ghost predicate Squares(l: Link, b: Books) {
    && l.deviceId == b.device && l.ignition == b.ignition
    && Timed(l, b) && Carried(l.outbound, b)
    && multiset(b.due) == multiset(b.did) + multiset(l.reading.jobs)
    && (l.phase == Claiming ==> b.asked == Some(l.claimant))
  }

  ghost predicate Holds(l: Link, hand: seq<Command>) {
    && AllFair(l.log) && Squares(l, Read(l.log))
    && Read(l.log).claimed == Read(l.log).disposed + hand
  }

  ghost predicate Booked(l: Link) {
    && Steady(l) && Holds(l, InHand(l))
    && (l.phase.Sending? ==> Printable(l.phase.command) && Read(l.log).sent == Some(l.phase.command))
  }

  // ---- Logging one entry -----------------------------------------------------------------------

  lemma LogGrows(log: seq<Entry>, e: Entry)
    ensures Read(log + [e]) == Entered(Read(log), e)
    ensures AllFair(log) && Fair(Read(log), e) ==> AllFair(log + [e])
  {
    assert (log + [e])[..|log|] == log;
  }

  lemma FairCall(b: Books, about: Option<Command>, call: Completion)
    requires FromGateway(call) && (about.Some? ==> Reports(b, about.value, call))
    ensures Fair(b, Called(about, call))
  {
  }

  /** A call or a packet already accounted for changes no account. */
  lemma CallKeeps(l: Link, hand: seq<Command>, about: Option<Command>, call: Completion)
    requires Holds(l, hand) && FromGateway(call) && (about.Some? ==> Reports(Read(l.log), about.value, call))
    ensures Holds(Logged(l, Called(about, call)), hand)
    ensures Read(Logged(l, Called(about, call)).log) == Read(l.log).(stranding := false)
  {
    FairCall(Read(l.log), about, call);
    LogGrows(l.log, Called(about, call));
    hide AllFair, Read, Fair;
  }

  lemma DisposalKeeps(l: Link, c: Command, rest: seq<Command>, fate: Fate)
    requires Holds(l, [c] + rest) && Fair(Read(l.log), Disposed(c, fate))
    ensures Holds(Logged(l, Disposed(c, fate)), rest)
    ensures var b := Read(l.log);
      Read(l.log + [Disposed(c, fate)]) == b.(stranding := fate == Stranded, disposed := b.disposed + [c])
  {
    LogGrows(l.log, Disposed(c, fate));
    hide AllFair, Read, Fair, Concat, PrintAll;
    Associate(Read(l.log).disposed, [c], rest);
  }

  // ---- Delivery ------------------------------------------------------------------------------------

  lemma GivenUpKeeps(l: Link, c: Command, rest: seq<Command>, fate: Fate, error: string)
    requires l.deviceId.Some? && l.todo == rest && Holds(l, [c] + rest)
    requires Fair(Read(l.log), Disposed(c, fate)) && error != NO_REPLY
    ensures Booked(GivenUp(l, c, fate, error))
  {
    hide AllFair, Read, Fair, Carried;
    var l1 := l.(phase := Completing);
    assert Holds(l1, [c] + rest);
    DisposalKeeps(l1, c, rest, fate);
    var l2 := Logged(l1, Disposed(c, fate));
    assert c in [c] + rest;
    CallKeeps(l2, rest, Some(c), Failure(l.deviceId, c.id, error));
    assert [] + rest == rest;
  }

  lemma BytesOfCommand(serial: word, c: Command)
    requires Printable(c)
    ensures BuildCommand(serial, c.id, c.text).Ok?
    ensures BuildCommand(serial, c.id, c.text).value == Print(CommandPacket(serial, c))
  {
  }

  lemma {:induction false} PrintAllAppend(a: seq<Packet>, b: seq<Packet>)
    ensures PrintAll(a + b) == PrintAll(a) + PrintAll(b)
  {
    hide Print;
    if a == [] {
      assert a + b == b;
    } else {
      assert (a + b)[1..] == a[1..] + b;
      PrintAllAppend(a[1..], b);
      PrintedIsBlock(a[0]);
    }
  }

  lemma BytesAppend(a: seq<Packet>, b: seq<Packet>)
    ensures Concat(PrintAll(a + b)) == Concat(PrintAll(a)) + Concat(PrintAll(b))
  {
    hide Print;
    PrintAllAppend(a, b);
    ConcatAppend(PrintAll(a), PrintAll(b));
  }

  lemma BytesOfOne(p: Packet)
    ensures Concat(PrintAll([p])) == Print(p)
  {
    hide Print;
    PrintedIsBlock(p);
    var one := PrintAll([p]);
    assert [p][1..] == [] && one == [Print(p)] && one[1..] == [];
  }

  lemma SentKeeps(l: Link, c: Command, rest: seq<Command>, serial: word, bytes: seq<byte>)
    requires l.deviceId.Some? && l.todo == rest && Holds(l, [c] + rest)
    requires Printable(c) && !Refused(l, c) && bytes == Print(CommandPacket(serial, c))
    ensures Booked(Posted(l, c, serial, bytes))
  {
    var p, b := CommandPacket(serial, c), Read(l.log);
    var l' := Posted(l, c, serial, bytes);
    FairCommand(b, c, p);
    LogGrows(l.log, Commanded(c, p));
    SquaresSent(l, l', b, c, p);
    hide AllFair, Read, Fair, Print, Printable, Squares, CommandPacket;
    assert Read(l'.log).claimed == Read(l'.log).disposed + ([c] + rest);
    assert InHand(l') == [c] + rest;
  }

  lemma SquaresSent(l: Link, l': Link, b: Books, c: Command, p: Packet)
    requires Squares(l, b) && l' == l.(phase := Sending(c), outbound := l.outbound + Print(p), log := l'.log)
    ensures Squares(l', Entered(b, Commanded(c, p)))
  {
    hide Print, PrintAll, Concat;
    BytesAppend(b.written, [p]);
    BytesOfOne(p);
  }

  lemma FairCommand(b: Books, c: Command, p: Packet)
    requires Printable(c) && !(c.cut && b.ignition == Some(true))
    requires p.protocol == PROTO_COMMAND && p.content == CommandContent(c.id, c.text)
    ensures Fair(b, Commanded(c, p))
  {
  }

  // ---- Leaving commands behind ---------------------------------------------------------------

  lemma {:induction false} StrandGrows(log: seq<Entry>, todo: seq<Command>)
    requires AllFair(log)
    requires todo != [] ==> Fair(Read(log), Disposed(todo[0], Stranded))
    ensures AllFair(log + Strand(todo))
    ensures var b, b' := Read(log), Read(log + Strand(todo));
      b' == b.(stranding := b'.stranding, disposed := b.disposed + todo)
    decreases todo
  {
    if todo == [] {
      assert log + Strand(todo) == log && Read(log).disposed + todo == Read(log).disposed;
    } else {
      var c, rest := todo[0], todo[1..];
      LogGrows(log, Disposed(c, Stranded));
      hide AllFair, Read;
      StrandGrows(log + [Disposed(c, Stranded)], rest);
      Associate(log, [Disposed(c, Stranded)], Strand(rest));
      Associate(Read(log).disposed, [c], rest);
      assert [c] + rest == todo;
    }
  }

  lemma StrandKeeps(l: Link, todo: seq<Command>, serial: word)
    requires Holds(l, todo) && todo != [] && !Printable(todo[0]) && !Refused(l, todo[0])
    requires l.deviceId.Some?
    ensures Booked(l.(outSerial := serial, phase := Resting, todo := [], log := l.log + Strand(todo)))
  {
    StrandGrows(l.log, todo);
    SquaresStranded(l, l.(outSerial := serial, phase := Resting, todo := [], log := l.log + Strand(todo)), Read(l.log),
                    Read(l.log + Strand(todo)), todo);
    hide AllFair, Read, Strand, Printable, Squares;
    assert (Read(l.log).disposed + todo) + ([] + []) == Read(l.log).disposed + todo;
  }

  lemma SquaresStranded(l: Link, l': Link, b: Books, b': Books, todo: seq<Command>)
    requires Squares(l, b) && l' == l.(outSerial := l'.outSerial, phase := Resting, todo := [], log := l'.log)
    requires b' == b.(stranding := b'.stranding, disposed := b.disposed + todo)
    ensures Squares(l', b')
  {
    hide Concat, PrintAll;
  }

  lemma BegunKeeps(l: Link, todo: seq<Command>, writes: bool)
    requires l.deviceId.Some? && Holds(l, todo)
    ensures Booked(Begun(l, todo, writes))
  {
    hide AllFair, Read, Posted, GivenUp, Strand, BuildCommand, CommandPacket, Printable, Concat, PrintAll, Print;
    if todo == [] {
      assert todo == [] + [];
    } else {
      var c, rest, serial := todo[0], todo[1..], Following(l.outSerial);
      assert todo == [c] + rest;
      PrintableIff(serial, c);
      if Refused(l, c) {
        GivenUpKeeps(l.(todo := rest), c, rest, IgnitionOn, "ignition_on");
      } else if !Printable(c) {
        StrandKeeps(l, todo, serial);
      } else if writes {
        BytesOfCommand(serial, c);
        SentKeeps(l.(outSerial := serial, todo := rest), c, rest, serial, BuildCommand(serial, c.id, c.text).value);
      } else {
        GivenUpKeeps(l.(outSerial := serial, todo := rest), c, rest, ConnectionLost, "connection_lost");
      }
    }
  }

  lemma ClaimsKeep(l: Link, commands: seq<Command>, writes: bool)
    requires Booked(l) && l.phase == Claiming && forall c | c in commands :: c.deviceId == l.claimant
    ensures Booked(Begun(Logged(l, Claimed(commands)), commands, writes))
  {
    LogGrows(l.log, Claimed(commands));
    hide AllFair, Read, Begun, PrintAll, Concat;
    assert Read(l.log).disposed + ([] + []) == Read(l.log).disposed;
    BegunKeeps(Logged(l, Claimed(commands)), commands, writes);
  }

  lemma DrainsKeep(l: Link, c: Command, writes: bool)
    requires Booked(l) && l.phase == Sending(c)
    ensures Booked(Begun(Armed(l), l.todo, writes))
  {
    hide AllFair, Read, Begun, PrintAll, Concat;
    assert c in [c] + l.todo;
    var l1 := l.(awaiting := l.awaiting[c.id := c]);
    DisposalKeeps(l1, c, l.todo, TimerArmed);
    BegunKeeps(Armed(l), l.todo, writes);
  }

  lemma BreaksKeep(l: Link, c: Command)
    requires Booked(l) && l.phase == Sending(c)
    ensures Booked(GivenUp(l, c, ConnectionLost, "connection_lost"))
  {
    hide AllFair, Read, PrintAll, Concat, GivenUp;
    GivenUpKeeps(l, c, l.todo, ConnectionLost, "connection_lost");
  }

  lemma CompletesKeep(l: Link, writes: bool)
    requires Booked(l) && l.phase == Completing
    ensures Booked(Begun(l, l.todo, writes))
  {
    hide AllFair, Read, Begun, PrintAll, Concat;
    assert [] + l.todo == l.todo;
    BegunKeeps(l, l.todo, writes);
  }

  lemma DeliversKeep(l: Link)
    requires Booked(l) && l.phase == Resting && l.deviceId.Some?
    ensures Booked(Asking(l))
  {
    LogGrows(l.log, Asks(Name(l.deviceId)));
    hide AllFair, Read, PrintAll, Concat;
  }

  lemma ClaimFailsKeeps(l: Link)
    requires Booked(l) && l.phase == Claiming
    ensures Booked(l.(phase := Resting))
  {
    hide AllFair, Read, PrintAll, Concat;
  }

  lemma FiresKeep(l: Link, id: nat)
    requires Booked(l) && id in l.awaiting
    ensures Booked(TimerFired(l, id))
  {
    hide AllFair, Read, PrintAll, Concat;
  }

  lemma LapsesKeep(l: Link, i: nat)
    requires Booked(l) && i < |l.lapsed|
    ensures Booked(Lapsed(l, i))
  {
    hide AllFair, Read, PrintAll, Concat;
    var c := l.lapsed[i];
    var l1 := l.(lapsed := l.lapsed[..i] + l.lapsed[i + 1..]);
    CallKeeps(l1, InHand(l), Some(c), Failure(l.deviceId, c.id, NO_REPLY));
  }

  // ---- The reader -----------------------------------------------------------------------------------

  /** A frame is handled: what it says of the ignition is on the books at once. */
  function Noted(l: Link, r: Arrival): Link {
    Arrived(l, r).(ignition := if l.deviceId.Some? && Reported(r).Some? then Reported(r) else l.ignition)
  }

  lemma ArrivesKeeps(l: Link, r: Arrival)
    requires Booked(l)
    ensures Booked(Noted(l, r)) && Read(Noted(l, r).log).last == Some(r)
  {
    LogGrows(l.log, Arrives(r));
    hide AllFair, Read, PrintAll, Concat, Reported;
  }

  /** The publish says just what the frame's bytes do. */
  lemma PositionSays(device: string, r: Arrival)
    requires IsPosition(r.frame.protocol)
    ensures var event := Position(device, r);
      && (event.None? ==> Reported(r).None?)
      && (event.Some? ==> Says(Locate(event.value)) == Reported(r) && Calls(Some(device), r, Locate(event.value)))
  {
    IgnitionTold(r.frame.content, device, r.frame.protocol);
    hide DecodeLocation, OnTheMap;
  }

  lemma HeartbeatSays(device: string, r: Arrival)
    requires r.frame.protocol == PROTO_HEARTBEAT
    ensures var status := DecodeHeartbeat(r.frame.content, device);
      && (status.None? ==> Reported(r).None?)
      && (status.Some? ==> Says(Heard(status.value)) == Reported(r) && Calls(Some(device), r, Heard(status.value)))
  {
    hide DecodeHeartbeat;
  }

  /** So noting it beforehand changes nothing. */
  lemma NotedAlike(l: Link, r: Arrival)
    ensures Handled(Arrived(l, r), r) == Handled(Noted(l, r), r)
  {
    hide DecodeLogin, Position, DecodeHeartbeat, Reported, Says;
    OthersSilent(r);
    if l.deviceId.Some? {
      if IsPosition(r.frame.protocol) {
        PositionSays(l.deviceId.value, r);
      } else if r.frame.protocol == PROTO_HEARTBEAT {
        HeartbeatSays(l.deviceId.value, r);
      }
      AnswerSays(r.frame);
    }
  }

  lemma AnswerSays(frame: Frame)
    ensures Says(Answer(frame)) == None
  {
  }

  lemma OthersSilent(r: Arrival)
    ensures !IsPosition(r.frame.protocol) && r.frame.protocol != PROTO_HEARTBEAT ==> Reported(r).None?
  {
  }

  lemma EnqueuedKeeps(l: Link, r: Arrival, job: Job)
    requires Booked(l) && Read(l.log).last == Some(r) && Calls(l.deviceId, r, job)
    requires Says(job).Some? ==> l.ignition == Says(job)
    ensures Booked(Enqueued(l, job))
  {
    LogGrows(l.log, Due(job));
    hide AllFair, Read, PrintAll, Concat, Says, DeviceOf, Calls;
  }

  lemma LoggedInKeeps(l: Link, name: string)
    requires Booked(l)
    ensures Booked(LoggedIn(l, name))
  {
    hide AllFair, Read, PrintAll, Concat;
    if l.deviceId.Some? && l.deviceId.value != name {
      LogGrows(l.log, Unregisters(l.deviceId.value));
      RegistersKeeps(Logged(l, Unregisters(l.deviceId.value)), name);
    } else {
      RegistersKeeps(l, name);
    }
  }

  lemma RegistersKeeps(l: Link, name: string)
    requires Booked(l)
    ensures Booked(Logged(l.(deviceId := Some(name)), Registers(name)))
  {
    LogGrows(l.log, Registers(name));
    hide AllFair, Read, PrintAll, Concat;
  }

  lemma ClosesKeeps(l: Link)
    requires Booked(l)
    ensures Booked(Closed(l))
  {
    hide AllFair, Read, PrintAll, Concat;
    if l.deviceId.Some? {
      LogGrows(l.log, Unregisters(l.deviceId.value));
    }
  }

  lemma SameBooks(l: Link, r: Reading)
    requires Booked(l) && r.jobs == l.reading.jobs
    ensures Booked(l.(reading := r))
  {
    hide AllFair, Read, PrintAll, Concat;
  }

  lemma HandledKeeps(l: Link, r: Arrival)
    requires Booked(l)
    ensures Booked(Handled(Arrived(l, r), r))
  {
    ArrivesKeeps(l, r);
    NotedAlike(l, r);
    hide Booked, Enqueued, LoggedIn, DecodeLogin, DecodeHeartbeat, Position, Arrived, Handled;
    if r.frame.protocol == PROTO_LOGIN {
      LoginKeeps(Noted(l, r), r);
    } else {
      NotedWell(l, r);
      JobsKeep(Noted(l, r), r);
    }
  }

  lemma NotedWell(l: Link, r: Arrival)
    ensures Noted(l, r).deviceId.Some? && Reported(r).Some? ==> Noted(l, r).ignition == Reported(r)
  {
  }

  lemma AckedKeeps(l: Link, frame: Frame)
    requires Booked(l)
    ensures Booked(Acked(l, frame))
    ensures Booked(l.(reading := l.reading.(asked := l.reading.asked + [frame])))
  {
    SameBooks(l, Acked(l, frame).reading);
    SameBooks(l, l.reading.(asked := l.reading.asked + [frame]));
  }

  lemma LoginKeeps(l: Link, r: Arrival)
    requires Booked(l) && r.frame.protocol == PROTO_LOGIN
    ensures Booked(Handled(l, r))
  {
    hide DecodeLogin, LoggedIn, AllFair, Read, PrintAll, Concat;
    var name := DecodeLogin(r.frame.content);
    if name.Some? && r.admit {
      LoggedInKeeps(l, name.value);
      AckedKeeps(LoggedIn(l, name.value), r.frame);
    }
  }

  lemma JobsKeep(l: Link, r: Arrival)
    requires Booked(l) && r.frame.protocol != PROTO_LOGIN
    requires Read(l.log).last == Some(r)
    requires l.deviceId.Some? && Reported(r).Some? ==> l.ignition == Reported(r)
    ensures Booked(Handled(l, r))
  {
    hide Booked, Enqueued, DecodeHeartbeat, Position, DeviceOf, Acked, Reported, Says, Calls, Read;
    AckedKeeps(l, r.frame);
    AckedSpares(l, r.frame);
    if l.deviceId.Some? {
      var d := l.deviceId.value;
      if IsPosition(r.frame.protocol) {
        PositionSays(d, r);
        if Position(d, r).Some? { EnqueuedKeeps(Acked(l, r.frame), r, Locate(Position(d, r).value)); }
      } else if r.frame.protocol == PROTO_HEARTBEAT {
        HeartbeatSays(d, r);
        var status := DecodeHeartbeat(r.frame.content, d);
        if status.Some? { EnqueuedKeeps(Acked(l, r.frame), r, Heard(status.value)); }
      } else if IsReply(r.frame.protocol) {
        AnswerSays(r.frame);
        AnswerCalled(d, r);
        EnqueuedKeeps(l, r, Answer(r.frame));
      }
    }
  }

  lemma AnswerCalled(device: string, r: Arrival)
    requires IsReply(r.frame.protocol)
    ensures Calls(Some(device), r, Answer(r.frame))
  {
  }

  lemma AckedSpares(l: Link, frame: Frame)
    ensures Acked(l, frame).deviceId == l.deviceId && Acked(l, frame).ignition == l.ignition
    ensures Acked(l, frame).log == l.log
  {
  }

  lemma DoesKeep(t: Tongue, l: Link, i: nat)
    requires Booked(l) && i < |l.reading.jobs|
    ensures Booked(JobDone(t, l, i))
  {
    hide AllFair, Read, PrintAll, Concat, DecodeCommandReply;
    var job := l.reading.jobs[i];
    if job.Answer? && l.deviceId.Some? {
      var reply := DecodeCommandReply(job.frame.protocol, job.frame.content, t.utf16);
      if reply.Some? {
        var call := ReplyCompletion(l.deviceId.value, reply.value, t.isFailure(reply.value.text));
        var l1 := l.(awaiting := l.awaiting - {reply.value.serverFlag});
        CallKeeps(l1, InHand(l), None, call);
        DidKeeps(Logged(l1, Called(None, call)), l.reading, i);
      } else {
        DidKeeps(l, l.reading, i);
      }
    } else {
      DidKeeps(l, l.reading, i);
    }
  }

  lemma WithoutJob(jobs: seq<Job>, i: nat)
    requires i < |jobs|
    ensures multiset(jobs) == multiset(jobs[..i] + jobs[i + 1..]) + multiset{jobs[i]}
  {
    assert jobs == jobs[..i] + [jobs[i]] + jobs[i + 1..];
  }

  lemma DidKeeps(l: Link, r: Reading, i: nat)
    requires Booked(l) && l.reading == r && i < |r.jobs|
    ensures var r' := r.(jobs := r.jobs[..i] + r.jobs[i + 1..], done := r.done + [r.jobs[i]]);
      Booked(Logged(l, Did(r.jobs[i])).(reading := r'))
  {
    var job, b := r.jobs[i], Read(l.log);
    var l' := Logged(l, Did(job)).(reading := r.(jobs := r.jobs[..i] + r.jobs[i + 1..], done := r.done + [job]));
    SquaresDid(l, l', b, i);
    LogGrows(l.log, Did(job));
    hide AllFair, Read, Squares, Printable, Says;
    assert InHand(l') == InHand(l);
  }

  lemma SquaresDid(l: Link, l': Link, b: Books, i: nat)
    requires Squares(l, b) && i < |l.reading.jobs|
    requires l' == l.(reading := l'.reading, log := l'.log)
    requires l'.reading.jobs == l.reading.jobs[..i] + l.reading.jobs[i + 1..]
    ensures Squares(l', Entered(b, Did(l.reading.jobs[i]))) && l.reading.jobs[i] in b.due
  {
    var job := l.reading.jobs[i];
    WithoutJob(l.reading.jobs, i);
    hide PrintAll, Concat;
    assert job in multiset(b.due);
    assert multiset(b.did + [job]) == multiset(b.did) + multiset{job};
  }

  lemma {:induction false} WrotesGrow(log: seq<Entry>, packets: seq<Packet>)
    requires AllFair(log)
    ensures AllFair(log + Wrotes(packets))
    ensures var b, b' := Read(log), Read(log + Wrotes(packets));
      b' == b.(stranding := b'.stranding, written := b.written + packets)
    decreases packets
  {
    hide AllFair, Read;
    if packets == [] {
      assert log + Wrotes(packets) == log && Read(log).written + packets == Read(log).written;
    } else {
      var p, rest := packets[0], packets[1..];
      LogGrows(log, Wrote(p));
      WrotesGrow(log + [Wrote(p)], rest);
      Associate(log, [Wrote(p)], Wrotes(rest));
      Associate(Read(log).written, [p], rest);
      assert [p] + rest == packets;
    }
  }

  lemma {:induction false} BytesOfAcks(frames: seq<Frame>)
    ensures Concat(PrintAll(AckPackets(frames))) == AckBytes(frames)
  {
    hide Print;
    if frames != [] {
      BytesOfAcks(frames[1..]);
      AckPrints(frames[0]);
      BytesOfFirst(AckPackets(frames));
      assert AckPackets(frames)[1..] == AckPackets(frames[1..]);
    }
  }

  lemma AckPrints(frame: Frame)
    ensures Print(AckPacket(frame)) == BuildAck(frame.protocol, frame.serial).value
  {
  }

  lemma TimePrints(frame: Frame, t: Clock)
    requires InRange(t)
    ensures Print(TimePacket(frame, t)) == BuildTimeResponse(frame.serial, t).value
  {
  }

  lemma BytesOfFirst(packets: seq<Packet>)
    requires packets != []
    ensures Concat(PrintAll(packets)) == Print(packets[0]) + Concat(PrintAll(packets[1..]))
  {
    hide Print;
    PrintedIsBlock(packets[0]);
    assert PrintAll(packets)[1..] == PrintAll(packets[1..]);
  }

  lemma {:induction false} BytesOfTimes(asked: seq<Frame>, clocks: seq<Clock>)
    requires |clocks| == |asked| && forall t | t in clocks :: InRange(t)
    ensures Concat(PrintAll(TimePackets(asked, clocks))) == TimeBytes(asked, clocks)
  {
    hide Print, InRange;
    if asked != [] {
      assert clocks[0] in clocks && forall t | t in clocks[1..] :: t in clocks;
      BytesOfTimes(asked[1..], clocks[1..]);
      TimePrints(asked[0], clocks[0]);
      BytesOfFirst(TimePackets(asked, clocks));
      assert TimePackets(asked, clocks)[1..] == TimePackets(asked[1..], clocks[1..]);
    }
  }

  lemma RepliesKeep(l: Link, clocks: seq<Clock>)
    requires Booked(l) && l.reading.jobs == [] && Answerable(l, clocks)
    ensures Booked(Replied(l, clocks))
  {
    var acks, asked := l.reading.acks, l.reading.asked;
    var packets := AckPackets(acks) + TimePackets(asked, clocks);
    var b := Read(l.log);
    WrotesGrow(l.log, packets);
    BytesOfAcks(acks);
    BytesOfTimes(asked, clocks);
    BytesAppend(AckPackets(acks), TimePackets(asked, clocks));
    BytesAppend(b.written, packets);
    Associate(l.outbound, Concat(PrintAll(AckPackets(acks))), Concat(PrintAll(TimePackets(asked, clocks))));
    SquaresReplied(l, Replied(l, clocks), b, Read(Replied(l, clocks).log), packets);
    hide AllFair, Read, Wrotes, AckPackets, TimePackets, AckBytes, TimeBytes, Concat, PrintAll, InRange, Squares;
  }

  lemma SquaresReplied(l: Link, l': Link, b: Books, b': Books, packets: seq<Packet>)
    requires Squares(l, b) && l.reading.jobs == []
    requires l' == l.(outbound := Concat(PrintAll(b'.written)), log := l'.log, reading := Idle(l.deviceId))
    requires b' == b.(stranding := b'.stranding, written := b.written + packets)
    ensures Squares(l', b')
  {
    hide Concat, PrintAll;
  }
}
