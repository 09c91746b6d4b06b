/** Whole runs of one tracker's connection: any interleaving of reading, publishing, delivering
and timing out. */
module Connections {
  import opened Basics
  import opened Models
  import opened Crc
  import opened Framing
  import opened Codec
  import opened Decoding
  import opened RoundTrip
  import opened Completion
  import opened Server
  import opened Ledger
  import CommandStore

  // ---- The reader's locals ---------------------------------------------------------------------

  /** The reader's locals are what the frames of this read call for. */
  ghost predicate InStep(l: Link) {
    var r := l.reading;
    && l.deviceId == DeviceAfter(r.start, r.arrivals)
    && r.acks == Acks(r.start, r.arrivals)
    && r.asked == Asked(r.arrivals)
    && multiset(r.jobs) + multiset(r.done) == multiset(Jobs(r.start, r.arrivals))
    && (r.done == [] ==> r.jobs == Jobs(r.start, r.arrivals))
  }

  /** A branch of the loop does what the lists call for. */
  predicate Matches(l: Link, r: Arrival, l': Link) {
    && l'.deviceId == (if LogsIn(r) then Named(r) else l.deviceId)
    && l'.reading == Reading(
         l.reading.start, l.reading.arrivals,
         l.reading.acks + (if Accepts(l.deviceId, r) then [r.frame] else []),
         l.reading.asked + (if r.frame.protocol == PROTO_TIME_REQUEST then [r.frame] else []),
         l.reading.jobs + JobsOf(l.deviceId, r), l.reading.done)
  }

  lemma EnqueuedReading(l: Link, job: Job)
    ensures Enqueued(l, job).reading == l.reading.(jobs := l.reading.jobs + [job])
    ensures Enqueued(l, job).deviceId == l.deviceId
  {
  }

  lemma NothingAdded(r: Reading)
    ensures r.acks + [] == r.acks && r.asked + [] == r.asked && r.jobs + [] == r.jobs
  {
  }

  lemma HandledLogin(l: Link, r: Arrival)
    requires r.frame.protocol == PROTO_LOGIN
    ensures Matches(l, r, Handled(l, r))
  {
    hide DecodeLogin;
    NothingAdded(l.reading);
  }

  lemma HandledPosition(l: Link, r: Arrival)
    requires IsPosition(r.frame.protocol)
    ensures Matches(l, r, Handled(l, r))
  {
    hide Position, Enqueued;
    NothingAdded(l.reading);
    if l.deviceId.Some? {
      var event := Position(l.deviceId.value, r);
      if event.Some? { EnqueuedReading(Acked(l, r.frame), Locate(event.value)); }
    }
  }

  lemma HandledHeartbeat(l: Link, r: Arrival)
    requires r.frame.protocol == PROTO_HEARTBEAT
    ensures Matches(l, r, Handled(l, r))
  {
    hide DecodeHeartbeat, Enqueued;
    NothingAdded(l.reading);
    if l.deviceId.Some? {
      var status := DecodeHeartbeat(r.frame.content, l.deviceId.value);
      if status.Some? { EnqueuedReading(Acked(l, r.frame), Heard(status.value)); }
    }
  }

  lemma HandledOther(l: Link, r: Arrival)
    requires r.frame.protocol != PROTO_LOGIN && !IsPosition(r.frame.protocol) && r.frame.protocol != PROTO_HEARTBEAT
    ensures Matches(l, r, Handled(l, r))
  {
    hide Enqueued;
    NothingAdded(l.reading);
    EnqueuedReading(l, Answer(r.frame));
  }

  /** Every branch, under whatever device id is in force. */
  lemma HandledMatches(l: Link, r: Arrival)
    ensures Matches(l, r, Handled(l, r))
  {
    hide *;
    if r.frame.protocol == PROTO_LOGIN {
      HandledLogin(l, r);
    } else if IsPosition(r.frame.protocol) {
      HandledPosition(l, r);
    } else if r.frame.protocol == PROTO_HEARTBEAT {
      HandledHeartbeat(l, r);
    } else {
      HandledOther(l, r);
    }
  }

  lemma ListsGrow(start: Option<string>, arrivals: seq<Arrival>, r: Arrival)
    ensures var more, d := arrivals + [r], DeviceAfter(start, arrivals);
      && DeviceAfter(start, more) == (if LogsIn(r) then Named(r) else d)
      && Acks(start, more) == Acks(start, arrivals) + (if Accepts(d, r) then [r.frame] else [])
      && Asked(more) == Asked(arrivals) + (if r.frame.protocol == PROTO_TIME_REQUEST then [r.frame] else [])
      && Jobs(start, more) == Jobs(start, arrivals) + JobsOf(d, r)
  {
    hide Accepts, LogsIn, Named, JobsOf;
    assert (arrivals + [r])[..|arrivals|] == arrivals;
  }

  lemma HandledInStep(l: Link, r: Arrival)
    requires InStep(l) && l.reading.done == []
    ensures var l' := Handled(Arrived(l, r), r);
      && InStep(l') && l'.reading.start == l.reading.start && l'.reading.arrivals == l.reading.arrivals + [r]
      && l'.reading.done == []
  {
    hide Handled, Acks, Asked, Jobs, DeviceAfter, JobsOf, Accepts, LogsIn, Named;
    HandledMatches(Arrived(l, r), r);
    ListsGrow(l.reading.start, l.reading.arrivals, r);
  }

  lemma DoneInStep(t: Tongue, l: Link, i: nat)
    requires InStep(l) && i < |l.reading.jobs|
    ensures var l' := JobDone(t, l, i);
      && InStep(l') && l'.reading.start == l.reading.start && l'.reading.arrivals == l.reading.arrivals
      && |l'.reading.jobs| == |l.reading.jobs| - 1
  {
    hide Acks, Asked, Jobs, DeviceAfter, DecodeCommandReply;
    var jobs := l.reading.jobs;
    assert jobs == jobs[..i] + [jobs[i]] + jobs[i + 1..];
  }

  lemma NothingRead(d: Option<string>)
    ensures DeviceAfter(d, []) == d && Acks(d, []) == [] && Asked([]) == [] && Jobs(d, []) == []
  {
  }

  lemma IdleInStep(l: Link)
    requires l.reading == Idle(l.deviceId)
    ensures InStep(l)
  {
    NothingRead(l.deviceId);
  }

  // ---- Every step ----------------------------------------------------------------------------------

  ghost predicate Good(l: Link) {
    Booked(l) && InStep(l)
  }

  predicate Reader(a: Action) { a.Handles? || a.Does? || a.Replies? }

  lemma StepKeeps(t: Tongue, l: Link, a: Action)
    requires Good(l) && Enabled(l, a)
    ensures Good(After(t, l, a))
  {
    StepBooked(t, l, a);
    match a {
      case Handles(r) => HandledInStep(l, r);
      case Does(i) => DoneInStep(t, l, i);
      case Replies(clocks) => IdleInStep(Replied(l, clocks));
      case _ =>
        hide Acks, Asked, Jobs, DeviceAfter, Booked;
        DeliveryLeavesReader(t, l, a);
    }
    hide Booked, Acks, Asked, Jobs, DeviceAfter, Handled, JobDone, Begun, Replied;
  }

  lemma DeliveryLeavesReader(t: Tongue, l: Link, a: Action)
    requires Enabled(l, a) && !Reader(a)
    ensures After(t, l, a).reading == l.reading && After(t, l, a).deviceId == l.deviceId
    ensures After(t, l, a).refused == l.refused && (l.open <== After(t, l, a).open)
  {
    hide Begun;
    match a {
      case Claims(commands, writes) => BegunLeavesReader(Logged(l, Claimed(commands)), commands, writes);
      case Drains(writes) => BegunLeavesReader(Armed(l), l.todo, writes);
      case Completes(writes) => BegunLeavesReader(l, l.todo, writes);
      case _ =>
    }
  }

  lemma BegunLeavesReader(l: Link, todo: seq<Command>, writes: bool)
    ensures var l' := Begun(l, todo, writes);
      && l'.reading == l.reading && l'.deviceId == l.deviceId && l'.refused == l.refused && l'.open == l.open
  {
    hide Tried;
    if todo != [] {
      TriedLeavesReader(l, todo, writes);
    }
  }

  lemma TriedLeavesReader(l: Link, todo: seq<Command>, writes: bool)
    requires todo != []
    ensures var l' := Tried(l, todo, writes);
      && l'.reading == l.reading && l'.deviceId == l.deviceId && l'.refused == l.refused && l'.open == l.open
  {
    hide Printable, Strand, CommandPacket, BuildCommand;
  }

  lemma StepBooked(t: Tongue, l: Link, a: Action)
    requires Booked(l) && Enabled(l, a)
    ensures Booked(After(t, l, a))
  {
    match a {
      case Handles(r) =>
        HandledKeeps(l, r);
      case Does(i) => DoesKeep(t, l, i);
      case Replies(clocks) => RepliesKeep(l, clocks);
      case Closes => ClosesKeeps(l);
      case Delivers => DeliversKeep(l);
      case ClaimFails => ClaimFailsKeeps(l);
      case Claims(commands, writes) => ClaimsKeep(l, commands, writes);
      case Drains(writes) => DrainsKeep(l, l.phase.command, writes);
      case Breaks => BreaksKeep(l, l.phase.command);
      case Completes(writes) => CompletesKeep(l, writes);
      case Fires(id) => FiresKeep(l, id);
      case Lapses(i) => LapsesKeep(l, i);
    }
    hide Booked, Handled, JobDone, Replied, Closed, Asking, Begun, GivenUp, TimerFired, Lapsed;
  }

  // ---- Runs --------------------------------------------------------------------------------------

  lemma FreshIsGood()
    ensures Good(FRESH)
  {
    NothingRead(None);
  }

  ghost predicate Possible(t: Tongue, l: Link, actions: seq<Action>)
    decreases actions
  {
    actions != [] ==> Enabled(l, actions[0]) && Possible(t, After(t, l, actions[0]), actions[1..])
  }

  ghost function Run(t: Tongue, l: Link, actions: seq<Action>): Link
    requires Possible(t, l, actions)
    decreases actions
  {
    if actions == [] then l else Run(t, After(t, l, actions[0]), actions[1..])
  }

  lemma {:induction false} RunKeeps(t: Tongue, l: Link, actions: seq<Action>)
    requires Good(l) && Possible(t, l, actions)
    ensures Good(Run(t, l, actions))
    decreases actions
  {
    if actions != [] {
      hide Good, Enabled, After;
      StepKeeps(t, l, actions[0]);
      RunKeeps(t, After(t, l, actions[0]), actions[1..]);
    }
  }

  /** A connection after any interleaving of reading, publishing, delivering and timing out. */
  ghost predicate Reachable(t: Tongue, l: Link) {
    exists actions :: Possible(t, FRESH, actions) && Run(t, FRESH, actions) == l
  }

  lemma ReachableIsGood(t: Tongue, l: Link)
    requires Reachable(t, l)
    ensures Good(l)
  {
    FreshIsGood();
    var actions :| Possible(t, FRESH, actions) && Run(t, FRESH, actions) == l;
    RunKeeps(t, FRESH, actions);
  }

  lemma {:induction false} RunSnoc(t: Tongue, l: Link, actions: seq<Action>, a: Action)
    requires Possible(t, l, actions) && Enabled(Run(t, l, actions), a)
    ensures Possible(t, l, actions + [a])
    ensures Run(t, l, actions + [a]) == After(t, Run(t, l, actions), a)
    decreases actions
  {
    hide Enabled, After;
    if actions == [] {
      assert actions + [a] == [a] && [a][1..] == [];
    } else {
      assert (actions + [a])[0] == actions[0] && (actions + [a])[1..] == actions[1..] + [a];
      RunSnoc(t, After(t, l, actions[0]), actions[1..], a);
    }
  }

  lemma ReachableStep(t: Tongue, l: Link, a: Action)
    requires Reachable(t, l) && Enabled(l, a)
    ensures Reachable(t, After(t, l, a))
  {
    hide Enabled, After, Possible, Run;
    var actions :| Possible(t, FRESH, actions) && Run(t, FRESH, actions) == l;
    RunSnoc(t, FRESH, actions, a);
  }

  lemma FreshReachable(t: Tongue)
    ensures Reachable(t, FRESH)
  {
    assert Possible(t, FRESH, []) && Run(t, FRESH, []) == FRESH;
  }

  /** What every entry of a reachable log was fair to. */
  lemma EntryFair(t: Tongue, l: Link, k: nat)
    requires Reachable(t, l) && k < |l.log|
    ensures Fair(Read(l.log[..k]), l.log[k])
  {
    ReachableIsGood(t, l);
    hide Fair, Read;
    FairAt(l.log, k);
  }

  // ---- ACKs and publishes --------------------------------------------------------------------------

  /** ACK discipline, whatever was interleaved: once every publish of a read has returned, the
  ACKs of exactly the accepted frames go out in arrival order, then the time replies in order,
  and the publishes are exactly those the frames call for under the device ids in force. */
  lemma AckDiscipline(t: Tongue, l: Link, clocks: seq<Clock>)
    requires Reachable(t, l) && Enabled(l, Replies(clocks))
    ensures var r, l' := l.reading, After(t, l, Replies(clocks));
      && |clocks| == |Asked(r.arrivals)|
      && l'.outbound == l.outbound + AckBytes(Acks(r.start, r.arrivals)) + TimeBytes(Asked(r.arrivals), clocks)
      && l'.log == l.log + Wrotes(AckPackets(Acks(r.start, r.arrivals)) + TimePackets(Asked(r.arrivals), clocks))
      && multiset(r.done) == multiset(Jobs(r.start, r.arrivals))
      && l.deviceId == DeviceAfter(r.start, r.arrivals)
  {
    ReachableIsGood(t, l);
    hide Booked, InStep, Acks, Asked, Jobs, DeviceAfter, AckBytes, TimeBytes, AckPackets, TimePackets, Wrotes, InRange;
    hide Reachable;
    InStepSays(l);
    RepliesAre(t, l, clocks);
    hide Replied, After;
  }

  lemma RepliesAre(t: Tongue, l: Link, clocks: seq<Clock>)
    requires Enabled(l, Replies(clocks))
    ensures var r, l' := l.reading, After(t, l, Replies(clocks));
      && r.jobs == [] && |clocks| == |r.asked|
      && l'.outbound == l.outbound + AckBytes(r.acks) + TimeBytes(r.asked, clocks)
      && l'.log == l.log + Wrotes(AckPackets(r.acks) + TimePackets(r.asked, clocks))
  {
    hide AckBytes, TimeBytes, AckPackets, TimePackets, Wrotes, InRange;
  }

  lemma InStepSays(l: Link)
    requires InStep(l) && l.reading.jobs == []
    ensures var r := l.reading;
      && r.acks == Acks(r.start, r.arrivals) && r.asked == Asked(r.arrivals)
      && multiset(r.done) == multiset(Jobs(r.start, r.arrivals)) && l.deviceId == DeviceAfter(r.start, r.arrivals)
  {
    hide Acks, Asked, Jobs, DeviceAfter;
    assert multiset(l.reading.jobs) == multiset{};
  }

  lemma {:induction false} DueAt(log: seq<Entry>, job: Job) returns (j: nat)
    requires job in Read(log).due
    ensures j < |log| && log[j] == Due(job)
  {
    var n := |log| - 1;
    if log[n] == Due(job) {
      j := n;
    } else {
      hide Says;
      j := DueAt(log[..n], job);
    }
  }

  /** The frame last handled ahead of entry k. */
  lemma {:induction false} LastHandled(log: seq<Entry>, k: nat) returns (i: nat)
    requires k <= |log| && Read(log[..k]).last.Some?
    ensures i < k && log[i] == Arrives(Read(log[..k]).last.value)
    ensures forall m | i < m < k :: !log[m].Arrives?
  {
    assert log[..k][..k - 1] == log[..k - 1];
    if log[k - 1].Arrives? {
      i := k - 1;
    } else {
      i := LastHandled(log, k - 1);
    }
  }

  /** In every run, each position or heartbeat that was published joined the publishes when its
  frame was handled, just as that frame's bytes call for under the device id then in force; and
  what was published is, each once, what joined, but for the publishes still under way. */
  lemma EventsCarryDevice(t: Tongue, l: Link, k: nat) returns (i: nat, j: nat)
    requires Reachable(t, l) && k < |l.log| && l.log[k].Did? && !l.log[k].job.Answer?
    ensures i < j < k && l.log[j] == Due(l.log[k].job)
    ensures l.log[i].Arrives? && forall m | i < m < j :: !l.log[m].Arrives?
    ensures Read(l.log[..j]).device == DeviceOf(l.log[k].job) && DeviceOf(l.log[k].job).Some?
    ensures Calls(Read(l.log[..j]).device, l.log[i].read, l.log[k].job)
    ensures multiset(Read(l.log).due) == multiset(Read(l.log).did) + multiset(l.reading.jobs)
  {
    ReachableIsGood(t, l);
    EntryFair(t, l, k);
    j := DueAt(l.log[..k], l.log[k].job);
    EntryFair(t, l, j);
    assert l.log[..k][j] == l.log[j];
    i := LastHandled(l.log, j);
    CalledFor(Read(l.log[..j]).device, l.log[i].read, l.log[k].job);
    hide Read, Calls;
  }

  lemma CalledFor(device: Option<string>, r: Arrival, job: Job)
    requires Calls(device, r, job)
    ensures device.Some? && (job.Answer? || DeviceOf(job) == device)
  {
    hide DecodeLocation, OnTheMap;
  }

  /** Before a login is admitted nothing is published, and only heartbeats are acknowledged. */
  lemma {:induction false} SilentBeforeLogin(arrivals: seq<Arrival>)
    requires forall r | r in arrivals :: !LogsIn(r)
    ensures DeviceAfter(None, arrivals) == None && Jobs(None, arrivals) == []
    ensures forall f | f in Acks(None, arrivals) :: f.protocol == PROTO_HEARTBEAT
  {
    if arrivals != [] {
      var init, last := arrivals[..|arrivals| - 1], arrivals[|arrivals| - 1];
      assert last in arrivals && forall r | r in init :: r in arrivals;
      SilentBeforeLogin(init);
    }
  }

  /** What the socket carries, ACKs, time replies and commands in any interleaving, cut into any
  reads: the tracker's decoder gets exactly the frames written, in the order they were written. */
  lemma OutboundReadable(t: Tongue, l: Link, max: int, chunks: seq<seq<byte>>)
    requires Reachable(t, l) && max >= 259 && Concat(chunks) == l.outbound
    ensures FedAll(State([], 0), max, chunks) == (FramesOf(Read(l.log).written), State([], 0))
  {
    ReachableIsGood(t, l);
    hide FedAll, Print, Read, AllFair, InStep, Steady, Timed;
    PrintParse(Read(l.log).written, max, chunks);
  }

  // ---- The end of a connection ------------------------------------------------------------------------

  /** A login was turned away and its read is done, or the connection is closed. */
  predicate Deaf(l: Link) {
    (l.refused || !l.open) && BetweenReads(l)
  }

  /** From then on no frame is handled and the device id stays, whatever deliveries and timers do. */
  lemma {:induction false} DeafForGood(t: Tongue, l: Link, actions: seq<Action>)
    requires Deaf(l) && Possible(t, l, actions)
    ensures Deaf(Run(t, l, actions)) && Run(t, l, actions).deviceId == l.deviceId
    ensures forall a | a in actions :: !a.Handles? && !a.Does?
    decreases actions
  {
    if actions != [] {
      StaysDeaf(t, l, actions[0]);
      hide Enabled, After, Deaf;
      DeafForGood(t, After(t, l, actions[0]), actions[1..]);
      assert actions == [actions[0]] + actions[1..];
    }
  }

  lemma StaysDeaf(t: Tongue, l: Link, a: Action)
    requires Deaf(l) && Enabled(l, a)
    ensures Deaf(After(t, l, a)) && After(t, l, a).deviceId == l.deviceId && !a.Handles? && !a.Does?
  {
    hide Begun, Wrotes, AckBytes, TimeBytes, AckPackets, TimePackets;
    if !Reader(a) {
      DeliveryLeavesReader(t, l, a);
    }
  }

  // ---- Delivery ------------------------------------------------------------------------------------

  /** In every reachable state the commands claimed so far are, in order and each once, those
  disposed of and then those still in hand. */
  lemma EveryCommandDisposedOnce(t: Tongue, l: Link)
    requires Reachable(t, l)
    ensures Read(l.log).claimed == Read(l.log).disposed + InHand(l)
    ensures l.phase == Resting ==> Read(l.log).claimed == Read(l.log).disposed
  {
    ReachableIsGood(t, l);
    hide Read, AllFair, Squares, InStep;
    if l.phase == Resting {
      assert InHand(l) == [];
      assert Read(l.log).disposed + [] == Read(l.log).disposed;
    }
  }

  /** Entry j is a frame that says something of the ignition, handled after a login. */
  predicate Spoke(log: seq<Entry>, j: nat) {
    && j < |log| && log[j].Arrives? && Reported(log[j].read).Some?
    && exists i | 0 <= i < j :: log[i].Registers?
  }

  /** The last such frame ahead of entry k. */
  predicate LastSpoke(log: seq<Entry>, k: nat, j: nat) {
    j < k && Spoke(log, j) && forall m: nat | j < m < k :: !Spoke(log, m)
  }

  lemma SpokeEarlier(log: seq<Entry>, k: nat)
    requires k <= |log|
    ensures forall j: nat | j < k :: Spoke(log[..k], j) == Spoke(log, j)
    ensures forall j: nat :: LastSpoke(log[..k], k, j) == LastSpoke(log, k, j)
  {
    forall j: nat | j < k ensures Spoke(log[..k], j) == Spoke(log, j) {
      assert forall i | 0 <= i < j :: log[..k][i] == log[i];
    }
    hide Spoke;
  }

  /** The books say of the ignition what the last such frame said. */
  lemma {:induction false} IgnitionRead(log: seq<Entry>)
    ensures Read(log).device.Some? <==> exists i | 0 <= i < |log| :: log[i].Registers?
    ensures Read(log).ignition.Some? ==> exists j: nat :: LastSpoke(log, |log|, j)
    ensures forall j: nat | LastSpoke(log, |log|, j) :: Read(log).ignition == Reported(log[j].read)
  {
    if log != [] {
      var n := |log| - 1;
      IgnitionRead(log[..n]);
      SpokeEarlier(log, n);
      hide Reported;
      SpokeNext(log);
    }
  }

  lemma SpokeNext(log: seq<Entry>)
    requires log != []
    requires var init := log[..|log| - 1];
      && (Read(init).device.Some? <==> exists i | 0 <= i < |init| :: init[i].Registers?)
      && (Read(init).ignition.Some? ==> exists j: nat :: LastSpoke(log, |init|, j))
      && (forall j: nat | LastSpoke(log, |init|, j) :: Read(init).ignition == Reported(log[j].read))
    ensures Read(log).device.Some? <==> exists i | 0 <= i < |log| :: log[i].Registers?
    ensures Read(log).ignition.Some? ==> exists j: nat :: LastSpoke(log, |log|, j)
    ensures forall j: nat | LastSpoke(log, |log|, j) :: Read(log).ignition == Reported(log[j].read)
  {
    var n := |log| - 1;
    var init, e := log[..n], log[n];
    EnteredSays(Read(init), e);
    assert Read(log) == Entered(Read(init), e);
    hide Reported, Read, Entered;
    assert forall i | 0 <= i < n :: init[i] == log[i];
    assert Spoke(log, n) <==> e.Arrives? && Reported(e.read).Some? && Read(init).device.Some?;
    hide Spoke;
    LastSpokeNext(log);
  }

  lemma LastSpokeNext(log: seq<Entry>)
    requires log != []
    ensures var n := |log| - 1;
      if Spoke(log, n) then LastSpoke(log, |log|, n) && forall j: nat | LastSpoke(log, |log|, j) :: j == n
      else forall j: nat :: LastSpoke(log, |log|, j) <==> LastSpoke(log, n, j)
  {
    hide Spoke;
  }

  lemma EnteredSays(b: Books, e: Entry)
    ensures Entered(b, e).device.Some? <==> b.device.Some? || e.Registers?
    ensures Entered(b, e).ignition == if e.Arrives? && Reported(e.read).Some? && b.device.Some? then Reported(e.read)
                                      else b.ignition
  {
    hide Reported;
  }

  /** A cut goes out only if the last frame that said anything of the ignition since the login did
  not say on; it is refused only if that frame said on; a timer is armed only for the command just
  written; and what that frame said is what the session goes by. */
  lemma CutsAreSafe(t: Tongue, l: Link, k: nat)
    requires Reachable(t, l) && k < |l.log|
    ensures var e := l.log[k];
      && (e.Commanded? && e.command.cut ==>
            forall j: nat | LastSpoke(l.log, k, j) :: Reported(l.log[j].read) == Some(false))
      && (e.Disposed? && e.fate == IgnitionOn ==>
            e.command.cut && exists j: nat :: LastSpoke(l.log, k, j) && Reported(l.log[j].read) == Some(true))
      && (e.Disposed? && e.fate == TimerArmed ==> Read(l.log[..k]).sent == Some(e.command))
    ensures l.ignition.Some? ==> exists j: nat :: LastSpoke(l.log, |l.log|, j)
    ensures forall j: nat | LastSpoke(l.log, |l.log|, j) :: l.ignition == Reported(l.log[j].read)
  {
    hide Read, Fair, Spoke, LastSpoke, Reported, Reachable;
    CutEntry(t, l, k);
    IgnitionHeld(t, l);
    IgnitionRead(l.log);
    IgnitionAhead(l.log, k);
  }

  /** The same of the entries ahead of k. */
  lemma IgnitionAhead(log: seq<Entry>, k: nat)
    requires k <= |log|
    ensures Read(log[..k]).ignition.Some? ==> exists j: nat :: LastSpoke(log, k, j)
    ensures forall j: nat | LastSpoke(log, k, j) ::
      && (Reported(log[j].read) == Some(true) || Reported(log[j].read) == Some(false))
      && Read(log[..k]).ignition == Reported(log[j].read)
  {
    IgnitionRead(log[..k]);
    SpokeEarlier(log, k);
    hide Read, Spoke, LastSpoke, Reported;
    forall j: nat | LastSpoke(log, k, j)
      ensures Reported(log[j].read) == Some(true) || Reported(log[j].read) == Some(false)
      ensures Read(log[..k]).ignition == Reported(log[j].read)
    {
      LastIsBefore(log, k, j);
    }
  }

  lemma IgnitionHeld(t: Tongue, l: Link)
    requires Reachable(t, l)
    ensures l.ignition == Read(l.log).ignition
  {
    ReachableIsGood(t, l);
    hide Read, AllFair, InStep, Printable;
  }

  lemma CutEntry(t: Tongue, l: Link, k: nat)
    requires Reachable(t, l) && k < |l.log|
    ensures var b, e := Read(l.log[..k]), l.log[k];
      && (e.Commanded? && e.command.cut ==> b.ignition != Some(true))
      && (e.Disposed? && e.fate == IgnitionOn ==> e.command.cut && b.ignition == Some(true))
      && (e.Disposed? && e.fate == TimerArmed ==> b.sent == Some(e.command))
  {
    EntryFair(t, l, k);
    FairCuts(Read(l.log[..k]), l.log[k]);
    hide Read, Fair, Reachable;
  }

  lemma FairCuts(b: Books, e: Entry)
    requires Fair(b, e)
    ensures e.Commanded? && e.command.cut ==> b.ignition != Some(true)
    ensures e.Disposed? && e.fate == IgnitionOn ==> e.command.cut && b.ignition == Some(true)
    ensures e.Disposed? && e.fate == TimerArmed ==> b.sent == Some(e.command)
  {
    hide Calls;
  }

  lemma LastIsBefore(log: seq<Entry>, k: nat, j: nat)
    requires k <= |log| && LastSpoke(log, k, j)
    ensures j < k && log[j].Arrives? && log[..k][j] == log[j]
    ensures Reported(log[j].read) == Some(true) || Reported(log[j].read) == Some(false)
  {
    SaysEither(Reported(log[j].read));
    hide Reported;
  }

  lemma SaysEither(word: Option<bool>)
    ensures word == None || word == Some(true) || word == Some(false)
  {
    if word.Some? {
      assert word == Some(word.value);
      if word.value { assert word == Some(true); } else { assert word == Some(false); }
    }
  }

  predicate HasStranded(log: seq<Entry>) {
    exists k :: 0 <= k < |log| && IsStranded(log[k])
  }

  lemma {:induction false} DisposedAt(log: seq<Entry>, c: Command) returns (k: nat)
    requires c in Read(log).disposed
    ensures k < |log| && log[k].Disposed? && log[k].command == c
  {
    var n := |log| - 1;
    if log[n].Disposed? && log[n].command == c {
      k := n;
    } else {
      hide Says;
      k := DisposedAt(log[..n], c);
    }
  }

  lemma {:induction false} NoneStranded(log: seq<Entry>)
    requires AllFair(log) && forall c | c in Read(log).disposed :: Printable(c)
    ensures !HasStranded(log) && !Read(log).stranding
  {
    if log != [] {
      var init, e := log[..|log| - 1], log[|log| - 1];
      FairStranded(Read(init), e);
      assert Read(log) == Entered(Read(init), e);
      hide Printable, Fair, Read, Entered;
      NoneStranded(init);
      assert forall k | 0 <= k < |init| :: log[k] == init[k];
    }
  }

  lemma FairStranded(b: Books, e: Entry)
    requires Fair(b, e)
    ensures forall c | c in b.disposed :: c in Entered(b, e).disposed
    ensures e.Disposed? ==> e.command in Entered(b, e).disposed
    ensures IsStranded(e) ==> b.stranding || !Printable(e.command)
    ensures Entered(b, e).stranding == IsStranded(e)
  {
    hide Printable, Calls, Reported;
  }

  /** When every claimed command can be printed, none is ever left behind. */
  lemma PrintableNeverStranded(t: Tongue, l: Link)
    requires Reachable(t, l) && forall c | c in Read(l.log).claimed :: Printable(c)
    ensures !HasStranded(l.log)
  {
    ReachableIsGood(t, l);
    hide Printable, Squares, InStep, Steady;
    NoneStranded(l.log);
  }

  /** Whatever the tracker said of its ignition since it logged in, it was not that it is on. */
  ghost predicate NeverOn(log: seq<Entry>) {
    forall j: nat | Spoke(log, j) :: Reported(log[j].read) != Some(true)
  }

  lemma NeverOnRead(log: seq<Entry>, k: nat)
    requires NeverOn(log) && k <= |log|
    ensures Read(log[..k]).ignition != Some(true)
  {
    IgnitionRead(log[..k]);
    SpokeEarlier(log, k);
    hide Read, Spoke, Reported;
    if Read(log[..k]).ignition.Some? {
      var j: nat :| LastSpoke(log[..k], k, j);
      assert Spoke(log, j) && log[..k][j] == log[j];
    }
  }

  /** Conversely, once delivery rests, a claimed command that cannot be printed has been left
  behind, or others before it, unless it is a cut the ignition can have refused. */
  lemma UnprintableStrands(t: Tongue, l: Link, c: Command)
    requires Reachable(t, l) && l.phase == Resting && c in Read(l.log).claimed && !Printable(c)
    requires !c.cut || NeverOn(l.log)
    ensures HasStranded(l.log)
  {
    EveryCommandDisposedOnce(t, l);
    var k := DisposedAt(l.log, c);
    EntryFair(t, l, k);
    hide Read, Printable, Reachable;
    if c.cut {
      NeverOnRead(l.log, k);
    }
    assert IsStranded(l.log[k]);
  }

  /** So, as long as no cuts were claimed, or the ignition was never reported on: something is left
  behind if and only if something claimed cannot be printed. */
  lemma StrandedIff(t: Tongue, l: Link)
    requires Reachable(t, l) && l.phase == Resting
    requires NeverOn(l.log) || forall c | c in Read(l.log).claimed :: !c.cut
    ensures HasStranded(l.log) <==> exists c :: c in Read(l.log).claimed && !Printable(c)
  {
    hide Read, Printable, Reachable, HasStranded, NeverOn;
    if exists c :: c in Read(l.log).claimed && !Printable(c) {
      var c :| c in Read(l.log).claimed && !Printable(c);
      UnprintableStrands(t, l, c);
    } else {
      PrintableNeverStranded(t, l);
    }
  }

  /** The API's own commands are never left behind: every text it queues can be printed. */
  lemma ApiCommandsNeverStranded(t: Tongue, l: Link)
    requires Reachable(t, l)
    requires forall c | c in Read(l.log).claimed ::
      c.id < FLAG_LIMIT && exists action :: CommandStore.FromApi(action, c.text)
    ensures !HasStranded(l.log)
  {
    forall c | c in Read(l.log).claimed ensures Printable(c) {
      var action :| CommandStore.FromApi(action, c.text);
      CommandStore.ApiTextsPrint(action, c.text, 0, c.id);
      PrintableIff(0, c);
    }
    hide Read, Printable, Reachable;
    PrintableNeverStranded(t, l);
  }

  // ---- Which row an outcome reaches ----------------------------------------------------------------

  /** The row of a claimed command, as the claim left it. */
  function RowOf(c: Command): Row { Row(c.id, c.deviceId, Status.Sent, None, None) }

  /** An outcome of a refusal, a loss or a timeout reaches the claimed command's row exactly when
  the session, at the moment of the call, still stands for the tracker the claim was made for. */
  lemma ReachesRowIff(t: Tongue, l: Link, k: nat)
    requires Reachable(t, l) && k < |l.log| && l.log[k].Called? && l.log[k].about.Some?
    ensures var c, call := l.log[k].about.value, l.log[k].completion;
      && c in Read(l.log[..k]).claimed
      && (Concerns(call, RowOf(c)) <==> Read(l.log[..k]).device == Some(c.deviceId))
      && (!Concerns(call, RowOf(c)) ==> Completed(RowOf(c), call) == RowOf(c))
  {
    EntryFair(t, l, k);
    hide Read;
  }

  /** The claim is made for the device id the session has when the delivery starts. */
  lemma ClaimsAreForTheSession(t: Tongue, l: Link, k: nat)
    requires Reachable(t, l) && k < |l.log|
    ensures l.log[k].Asks? ==> Read(l.log[..k]).device == Some(l.log[k].deviceId)
    ensures l.log[k].Claimed? ==> forall c | c in l.log[k].commands :: Read(l.log[..k]).asked == Some(c.deviceId)
  {
    EntryFair(t, l, k);
    hide Read;
  }

  /** Only ever one tracker on this connection. */
  predicate OneTracker(log: seq<Entry>, d: string) {
    forall k | 0 <= k < |log| && log[k].Registers? :: log[k].deviceId == d
  }

  lemma {:induction false} OneTrackerRead(log: seq<Entry>, d: string)
    requires OneTracker(log, d)
    ensures Read(log).device == None || Read(log).device == Some(d)
  {
    if log != [] {
      hide Says;
      assert OneTracker(log[..|log| - 1], d);
      OneTrackerRead(log[..|log| - 1], d);
    }
  }

  lemma FairAsks(b: Books, e: Entry)
    requires Fair(b, e)
    ensures e.Asks? ==> b.device == Some(e.deviceId)
    ensures e.Claimed? ==> forall c | c in e.commands :: b.asked == Some(c.deviceId)
  {
    hide Calls, Printable;
  }

  lemma {:induction false} OneTrackerClaims(log: seq<Entry>, d: string)
    requires OneTracker(log, d) && AllFair(log)
    ensures Read(log).asked == None || Read(log).asked == Some(d)
    ensures forall c | c in Read(log).claimed :: c.deviceId == d
  {
    if log != [] {
      var init := log[..|log| - 1];
      hide Says, Printable, Calls, Reported;
      FairAsks(Read(init), log[|log| - 1]);
      hide Fair;
      assert OneTracker(init, d);
      OneTrackerRead(init, d);
      OneTrackerClaims(init, d);
    }
  }

  /** As long as every login on the connection names one tracker, every such outcome reaches its
  row. */
  lemma OneTrackerAlwaysReaches(t: Tongue, l: Link, d: string, k: nat)
    requires Reachable(t, l) && OneTracker(l.log, d)
    requires k < |l.log| && l.log[k].Called? && l.log[k].about.Some?
    ensures Concerns(l.log[k].completion, RowOf(l.log[k].about.value))
  {
    ReachableIsGood(t, l);
    EntryFair(t, l, k);
    FairAt(l.log, k);
    assert OneTracker(l.log[..k], d);
    OneTrackerRead(l.log[..k], d);
    OneTrackerClaims(l.log[..k], d);
    hide Read;
  }

  /** Command rows: every outcome the connection reports is one the row's update understands,
  so whichever of them land, in whatever order, the row ends with the first answer. */
  lemma RowEndsWithFirstAnswer(t: Tongue, l: Link, row: Row, landed: seq<Completion>)
    requires Reachable(t, l) && Open(row)
    requires forall c | c in landed :: exists about :: Called(about, c) in l.log
    ensures FirstAnswer(row, landed).Some? ==> Final(row, landed) == Answered(row, FirstAnswer(row, landed).value)
    ensures FirstAnswer(row, landed).None? && AnyConcerns(row, landed) ==>
              Final(row, landed) == row.(status := Failed, error := Some(NO_REPLY))
  {
    forall c | c in landed ensures FromGateway(c) {
      var about :| Called(about, c) in l.log;
      var k :| 0 <= k < |l.log| && l.log[k] == Called(about, c);
      EntryFair(t, l, k);
    }
    hide Read, Reachable;
    FirstAnswerWins(row, landed);
  }

  /** A tracker's answer, from its bytes to the row: the command whose id it carries is confirmed
  with its text, or failed when the words say so, and its timer goes. */
  lemma AnswerSettlesRow(t: Tongue, l: Link, row: Row, text: string, suffix: seq<byte>, serial: word, crc: word)
    requires l.deviceId == Some(row.deviceId) && Open(row) && row.id < FLAG_LIMIT
    requires IsAscii(text) && |text| <= 251
    ensures var frame := Frame(0x15, ClassicReply(row.id, text, suffix), serial, crc, true);
      var l' := Done(t, l, Answer(frame));
      && |l'.log| == |l.log| + 2 && l'.log[|l.log|].Called? && row.id !in l'.awaiting
      && Completed(row, l'.log[|l.log|].completion)
      == (if t.isFailure(Strip(text))
          then row.(status := Failed, reply := Some(Strip(text)), error := Some("tracker_reported_failure"))
          else row.(status := Confirmed, reply := Some(Strip(text)), error := None))
  {
    ClassicReplyRoundTrip(0x15, row.id, text, suffix, t.utf16);
    hide DecodeCommandReply, Strip, ClassicReply;
  }

  // ---- Two runs ------------------------------------------------------------------------------------

  /** A login on a connection without deliveries. */
  lemma LoginStep(t: Tongue, l: Link, login: Frame, name: string) returns (l': Link)
    requires Reachable(t, l) && l.reading.done == [] && l.open && !l.refused
    requires login.protocol == PROTO_LOGIN && DecodeLogin(login.content) == Some(name)
    ensures Reachable(t, l') && l'.reading.done == [] && l'.open && !l'.refused && l'.deviceId == Some(name)
    ensures l'.phase == l.phase && l'.todo == l.todo && l'.claimant == l.claimant && l'.ignition == l.ignition
    ensures l'.log == l.log + [Arrives(Arrival(login, true))]
                    + (if l.deviceId.Some? && l.deviceId.value != name then [Unregisters(l.deviceId.value)] else [])
                    + [Registers(name)]
  {
    hide Reachable, DecodeLogin;
    var a := Handles(Arrival(login, true));
    ReachableStep(t, l, a);
    l' := After(t, l, a);
    assert l.log + [Arrives(Arrival(login, true))] + [] == l.log + [Arrives(Arrival(login, true))];
  }

  lemma AskStep(t: Tongue, l: Link) returns (l': Link)
    requires Reachable(t, l) && l.phase == Resting && l.deviceId.Some?
    ensures Reachable(t, l') && l' == Asking(l)
  {
    hide Reachable, Asking;
    ReachableStep(t, l, Delivers);
    l' := After(t, l, Delivers);
  }

  lemma ClaimStep(t: Tongue, l: Link, commands: seq<Command>) returns (l': Link)
    requires Reachable(t, l) && l.phase == Claiming && forall c | c in commands :: c.deviceId == l.claimant
    ensures Reachable(t, l') && l' == Begun(Logged(l, Claimed(commands)), commands, true)
  {
    hide Reachable, Begun, Logged;
    ReachableStep(t, l, Claims(commands, true));
    l' := After(t, l, Claims(commands, true));
  }

  lemma BreakStep(t: Tongue, l: Link, c: Command) returns (l': Link)
    requires Reachable(t, l) && l.phase == Sending(c)
    ensures Reachable(t, l')
    ensures l'.log == l.log + [Disposed(c, ConnectionLost),
                               Called(Some(c), Failure(l.deviceId, c.id, "connection_lost"))]
  {
    hide Reachable;
    ReachableStep(t, l, Breaks);
    l' := After(t, l, Breaks);
  }

  lemma StrandTwo(l: Link, bad: Command, good: Command)
    requires !Printable(bad) && !Refused(l, bad)
    ensures var end := Begun(l, [bad, good], true);
      end.phase == Resting && end.log == l.log + [Disposed(bad, Stranded), Disposed(good, Stranded)]
  {
    PrintableIff(Following(l.outSerial), bad);
    hide Printable, GivenUp, Posted, BuildCommand;
    assert [bad, good][1..] == [good] && [good][1..] == [];
    assert Strand([good]) == [Disposed(good, Stranded)];
  }

  /** A row inserted from elsewhere with a text that is not ASCII: a restore claimed with it is
  left behind as well, still marked sent. */
  lemma StrandedExample(t: Tongue, login: Frame, name: string) returns (l: Link)
    requires login.protocol == PROTO_LOGIN && DecodeLogin(login.content) == Some(name)
    ensures var bad, good := Command(1, name, false, "\U{E9}"), Command(2, name, false, "RELAY,0#");
      && Reachable(t, l) && l.phase == Resting
      && l.log == [Arrives(Arrival(login, true)), Registers(name), Asks(name), Claimed([bad, good]),
                   Disposed(bad, Stranded), Disposed(good, Stranded)]
  {
    hide Reachable, Printable, DecodeLogin, Begun;
    var bad, good := Command(1, name, false, "\U{E9}"), Command(2, name, false, "RELAY,0#");
    FreshReachable(t);
    var l1 := LoginStep(t, FRESH, login, name);
    var l2 := AskStep(t, l1);
    NotAscii(bad);
    l := ClaimStep(t, l2, [bad, good]);
    StrandTwo(Logged(l2, Claimed([bad, good])), bad, good);
  }

  lemma NotAscii(c: Command)
    requires c.text == "\U{E9}"
    ensures !Printable(c)
  {
    assert c.text[0] in c.text;
  }

  lemma SendOne(l: Link, c: Command)
    requires Printable(c) && !Refused(l, c)
    ensures var end, serial := Begun(l, [c], true), Following(l.outSerial);
      && end.phase == Sending(c) && end.deviceId == l.deviceId && end.reading == l.reading
      && end.open == l.open && end.refused == l.refused
      && end.log == l.log + [Commanded(c, CommandPacket(serial, c))]
  {
    PrintableIff(Following(l.outSerial), c);
    hide Printable, GivenUp, BuildCommand, CommandPacket;
  }

  /** A second login, as another tracker, while a command is being written: when the write then
  fails, the outcome goes out under the new name and misses the row, which stays sent. */
  lemma MissedRowExample(t: Tongue, login: Frame, name: string, other: Frame, newName: string, c: Command)
      returns (l: Link, call: Completion)
    requires login.protocol == PROTO_LOGIN && DecodeLogin(login.content) == Some(name)
    requires other.protocol == PROTO_LOGIN && DecodeLogin(other.content) == Some(newName) && newName != name
    requires Printable(c) && !c.cut && c.deviceId == name
    ensures Reachable(t, l)
    ensures exists p :: l.log == [Arrives(Arrival(login, true)), Registers(name), Asks(name), Claimed([c]),
                                  Commanded(c, p), Arrives(Arrival(other, true)), Unregisters(name),
                                  Registers(newName), Disposed(c, ConnectionLost), Called(Some(c), call)]
    ensures Completed(RowOf(c), call) == RowOf(c)
  {
    hide Reachable, Printable, DecodeLogin, Begun, CommandPacket;
    FreshReachable(t);
    var l1 := LoginStep(t, FRESH, login, name);
    var l2 := AskStep(t, l1);
    assert l2.reading.done == [];
    var l3 := ClaimStep(t, l2, [c]);
    SendOne(Logged(l2, Claimed([c])), c);
    var l4 := LoginStep(t, l3, other, newName);
    call := Failure(l4.deviceId, c.id, "connection_lost");
    l := BreakStep(t, l4, c);
    var p := CommandPacket(Following(l2.outSerial), c);
    assert l.log == [Arrives(Arrival(login, true)), Registers(name), Asks(name), Claimed([c]), Commanded(c, p),
                     Arrives(Arrival(other, true)), Unregisters(name), Registers(newName),
                     Disposed(c, ConnectionLost), Called(Some(c), call)];
  }
}
