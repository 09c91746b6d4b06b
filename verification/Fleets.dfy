/** All connections together, over the one registry they share. */
module Fleets {
  import opened Basics
  import opened Server
  import opened Codec
  import opened Decoding
  import opened Connections
  import RoundTrip
  import Registry

  datatype Fleet = Fleet(links: seq<Link>, registry: map<string, Registry.SessionId>)

  /** A tracker connects, or one of the connections takes a step. */
  datatype Move = Connects | Steps(i: nat, action: Action)

  predicate CanMove(f: Fleet, m: Move) {
    m.Steps? ==> m.i < |f.links| && Enabled(f.links[m.i], m.action)
  }

  /** What a step added to a connection's log. */
  function Added(l: Link, l': Link): seq<Entry> {
    if |l.log| <= |l'.log| then l'.log[|l.log|..] else []
  }

  /** A step's calls go to the shared registry. */
  function Moved(t: Tongue, f: Fleet, m: Move): Fleet
    requires CanMove(f, m)
  {
    match m
    case Connects => f.(links := f.links + [FRESH])
    case Steps(i, a) =>
      var l' := After(t, f.links[i], a);
      Fleet(f.links[i := l'], Replayed(f.registry, i, Added(f.links[i], l')))
  }

  const EMPTY := Fleet([], map[])

  ghost predicate CanRun(t: Tongue, moves: seq<Move>)
    decreases |moves|, 0
  {
    moves != [] ==>
      var init := moves[..|moves| - 1];
      CanRun(t, init) && CanMove(RunOf(t, init), moves[|moves| - 1])
  }

  ghost function RunOf(t: Tongue, moves: seq<Move>): Fleet
    requires CanRun(t, moves)
    decreases |moves|, 1
  {
    if moves == [] then EMPTY else Moved(t, RunOf(t, moves[..|moves| - 1]), moves[|moves| - 1])
  }

  // ---- What the registry sees of it ------------------------------------------------------------

  function EventOf(m: Move): Option<Registry.Event> {
    match m
    case Connects => Some(Registry.Connects)
    case Steps(i, Handles(r)) => if LogsIn(r) then Some(Registry.LogsIn(i, Named(r).value)) else None
    case Steps(i, Closes) => Some(Registry.Closes(i))
    case Steps(_, _) => None
  }

  function EventsOf(moves: seq<Move>): seq<Registry.Event> {
    if moves == [] then []
    else
      var e := EventOf(moves[|moves| - 1]);
      EventsOf(moves[..|moves| - 1]) + (if e.Some? then [e.value] else [])
  }

  function Seen(l: Link): Registry.Link { Registry.Link(l.deviceId, l.open) }

  function WorldOf(f: Fleet): Registry.World {
    Registry.World(seq(|f.links|, i requires 0 <= i < |f.links| => Seen(f.links[i])), f.registry)
  }

  /** Nothing was said to the registry. */
  predicate Silent(before: seq<Entry>, after: seq<Entry>) {
    && before <= after
    && forall k | |before| <= k < |after| :: !after[k].Registers? && !after[k].Unregisters?
  }

  lemma {:induction false} SilentReplays(sessions: map<string, Registry.SessionId>, s: nat, log: seq<Entry>)
    requires Silent([], log)
    ensures Replayed(sessions, s, log) == sessions
  {
    if log != [] {
      SilentReplays(sessions, s, log[..|log| - 1]);
    }
  }

  lemma {:induction false} StrandIsSilent(todo: seq<Command>)
    ensures Silent([], Strand(todo))
  {
    if todo != [] {
      StrandIsSilent(todo[1..]);
    }
  }

  lemma {:induction false} WrotesIsSilent(packets: seq<RoundTrip.Packet>)
    ensures Silent([], Wrotes(packets))
  {
    if packets != [] {
      WrotesIsSilent(packets[1..]);
    }
  }

  lemma BegunIsSilent(l: Link, todo: seq<Command>, writes: bool)
    ensures Silent(l.log, Begun(l, todo, writes).log)
    ensures Seen(Begun(l, todo, writes)) == Seen(l)
  {
    hide Tried;
    BegunLeavesReader(l, todo, writes);
    if todo != [] {
      TriedIsSilent(l, todo, writes);
    }
  }

  lemma TriedIsSilent(l: Link, todo: seq<Command>, writes: bool)
    requires todo != []
    ensures Silent(l.log, Tried(l, todo, writes).log)
  {
    hide Printable, CommandPacket, BuildCommand, Strand;
    StrandIsSilent(todo);
  }

  lemma EnqueuedIsSilent(l: Link, job: Job)
    ensures Silent(l.log, Enqueued(l, job).log) && Seen(Enqueued(l, job)) == Seen(l)
  {
    hide Says;
  }

  lemma HandledIsSilent(l: Link, r: Arrival)
    requires !LogsIn(r)
    ensures Silent(l.log, Handled(l, r).log) && Seen(Handled(l, r)) == Seen(l)
  {
    hide DecodeLogin, DecodeHeartbeat, Position, Enqueued, LoggedIn;
    forall job, m: Link | m == l || m == Acked(l, r.frame)
      ensures Silent(l.log, Enqueued(m, job).log) && Seen(Enqueued(m, job)) == Seen(l)
    {
      EnqueuedIsSilent(m, job);
    }
  }

  /** A step that is neither a login nor the end of a connection leaves the registry alone. */
  lemma StepIsSilent(t: Tongue, l: Link, a: Action)
    requires Enabled(l, a) && a != Closes && !(a.Handles? && LogsIn(a.read))
    ensures Silent(l.log, After(t, l, a).log) && Seen(After(t, l, a)) == Seen(l)
  {
    hide Begun, Handled, Wrotes, DecodeCommandReply, AckBytes, TimeBytes, AckPackets, TimePackets, LogsIn;
    match a {
      case Handles(r) => HandledIsSilent(Arrived(l, r), r);
      case Replies(clocks) =>
        WrotesIsSilent(AckPackets(l.reading.acks) + TimePackets(l.reading.asked, clocks));
      case Claims(commands, writes) => BegunIsSilent(Logged(l, Claimed(commands)), commands, writes);
      case Drains(writes) => BegunIsSilent(Armed(l), l.todo, writes);
      case Completes(writes) => BegunIsSilent(l, l.todo, writes);
      case _ =>
    }
  }

  /** Each move is at most one event of the registry's own machine, with the same outcome. */
  lemma MoveIsEvent(t: Tongue, f: Fleet, m: Move)
    requires CanMove(f, m)
    ensures match EventOf(m)
      case None => WorldOf(Moved(t, f, m)) == WorldOf(f)
      case Some(e) => Registry.Enabled(WorldOf(f), e) && WorldOf(Moved(t, f, m)) == Registry.Next(WorldOf(f), e)
  {
    hide Replayed, DecodeLogin, LogsIn;
    var w, w' := WorldOf(f), WorldOf(Moved(t, f, m));
    match m {
      case Connects =>
        assert w'.links == w.links + [Registry.Link(None, true)];
      case Steps(i, a) =>
        var l, l' := f.links[i], After(t, f.links[i], a);
        assert w.links[i] == Seen(l) && w'.links == w.links[i := Seen(l')];
        if a.Handles? && LogsIn(a.read) {
          LoginIsEvent(t, l, a.read, w, i);
        } else if a == Closes {
          CloseTellsRegistry(l, w, i);
        } else {
          StepIsSilent(t, l, a);
          hide After;
          SilentReplays(f.registry, i, Added(l, l'));
          assert w.links[i := Seen(l)] == w.links;
        }
    }
  }

  lemma ArrivalReplays(sessions: map<string, Registry.SessionId>, s: nat, r: Arrival)
    ensures Replayed(sessions, s, [Arrives(r)]) == sessions
  {
    assert [Arrives(r)][..0] == [];
  }

  lemma LoginIsEvent(t: Tongue, l: Link, r: Arrival, w: Registry.World, s: nat)
    requires Enabled(l, Handles(r)) && LogsIn(r) && s < |w.links| && w.links[s] == Seen(l)
    ensures var l', e := After(t, l, Handles(r)), Registry.LogsIn(s, Named(r).value);
      && Registry.Enabled(w, e) && Seen(l') == Registry.Link(Some(Named(r).value), true)
      && Replayed(w.registry, s, Added(l, l')) == Registry.Next(w, e).registry
  {
    LoginTellsRegistry(Arrived(l, r), r, w, s);
    ArrivalReplays(w.registry, s, r);
    hide Replayed, DecodeLogin;
    var l0, l' := Arrived(l, r), After(t, l, Handles(r));
    assert Added(l, l') == [Arrives(r)] + Added(l0, l');
    ReplayedAppend(w.registry, s, [Arrives(r)], Added(l0, l'));
  }

  lemma {:induction false} PossibleAppend(w: Registry.World, events: seq<Registry.Event>, e: Registry.Event)
    requires Registry.Possible(w, events) && Registry.Enabled(Registry.Run(w, events), e)
    ensures Registry.Possible(w, events + [e])
    decreases events
  {
    if events == [] {
      assert events + [e] == [e] && [e][1..] == [];
    } else {
      assert (events + [e])[0] == events[0] && (events + [e])[1..] == events[1..] + [e];
      PossibleAppend(Registry.Next(w, events[0]), events[1..], e);
    }
  }

  /** Refinement: every run of all the connections is a run of the registry's machine. */
  lemma {:induction false} FleetRefines(t: Tongue, moves: seq<Move>)
    requires CanRun(t, moves)
    ensures Registry.Possible(Registry.NOBODY, EventsOf(moves))
    ensures Registry.Run(Registry.NOBODY, EventsOf(moves)) == WorldOf(RunOf(t, moves))
  {
    if moves != [] {
      var init, m := moves[..|moves| - 1], moves[|moves| - 1];
      FleetRefines(t, init);
      var f := RunOf(t, init);
      MoveIsEvent(t, f, m);
      hide CanMove, Moved, EventOf, WorldOf;
      if EventOf(m).Some? {
        PossibleAppend(Registry.NOBODY, EventsOf(init), EventOf(m).value);
        Registry.RunAppend(Registry.NOBODY, EventsOf(init), EventOf(m).value);
      } else {
        assert EventsOf(init) + [] == EventsOf(init);
      }
    }
  }

  lemma {:induction false} LinksReachable(t: Tongue, moves: seq<Move>)
    requires CanRun(t, moves)
    ensures forall l | l in RunOf(t, moves).links :: Reachable(t, l)
  {
    if moves != [] {
      var init, m := moves[..|moves| - 1], moves[|moves| - 1];
      LinksReachable(t, init);
      var f := RunOf(t, init);
      FreshReachable(t);
      hide Reachable, Enabled, After;
      if m.Steps? {
        assert f.links[m.i] in f.links;
        ReachableStep(t, f.links[m.i], m.action);
      }
    }
  }

  /** In every run of all the connections: a queued command tells one of them at most, the last to
  log in as its tracker, and that one is open, stands for the tracker, and is a connection all that
  is proved of one connection holds for. */
  lemma NotifyFindsTracker(t: Tongue, moves: seq<Move>, d: string)
    requires CanRun(t, moves)
    ensures var f, holder := RunOf(t, moves), Registry.Holder(EventsOf(moves), d);
      && Registry.Told(f.registry, d) == (if holder.Some? then [holder.value] else [])
      && (holder.Some? ==>
            && holder.value < |f.links| && f.links[holder.value].open && f.links[holder.value].deviceId == Some(d)
            && Reachable(t, f.links[holder.value]))
  {
    FleetRefines(t, moves);
    LinksReachable(t, moves);
    Registry.NotifyReaches(EventsOf(moves), d);
    hide Reachable, CanRun, RunOf, EventsOf;
    var f, holder := RunOf(t, moves), Registry.Holder(EventsOf(moves), d);
    assert holder.Some? ==> WorldOf(f).links[holder.value] == Seen(f.links[holder.value]);
  }
}
