/** Which connection holds which tracker. */
module Registry {
  import opened Basics

  type SessionId = nat

  class SessionRegistry {
    var sessions: map<string, SessionId>
    /** The sessions told to look for commands, in order. */
    var woken: seq<SessionId>

    constructor ()
      ensures sessions == map[] && woken == []
    {
      sessions, woken := map[], [];
    }

    method Add(deviceId: string, session: SessionId)
      modifies this`sessions
      ensures sessions == old(sessions)[deviceId := session]
    {
      sessions := sessions[deviceId := session];
    }

    /** Only its own entry: the one who came after stays. */
    method Remove(deviceId: string, session: SessionId)
      modifies this`sessions
      ensures sessions == Removed(old(sessions), deviceId, session)
    {
      if deviceId in sessions && sessions[deviceId] == session {
        sessions := sessions - {deviceId};
      }
    }

    method Get(deviceId: string) returns (session: Option<SessionId>)
      ensures session == if deviceId in sessions then Some(sessions[deviceId]) else None
    {
      if deviceId in sessions { return Some(sessions[deviceId]); }
      return None;
    }

    /** A command was queued for a tracker: its session, if any, is told. */
    method Notify(deviceId: string)
      modifies this`woken
      ensures woken == old(woken) + Told(sessions, deviceId)
    {
      var session := Get(deviceId);
      if session.Some? {
        woken := woken + [session.value];
      }
    }
  }

  function Told(sessions: map<string, SessionId>, deviceId: string): seq<SessionId> {
    if deviceId in sessions then [sessions[deviceId]] else []
  }

  function Removed(sessions: map<string, SessionId>, deviceId: string, session: SessionId): map<string, SessionId> {
    if deviceId in sessions && sessions[deviceId] == session then sessions - {deviceId} else sessions
  }

  /** Every connection ever opened: the tracker it stands for, if any, and whether it is open. */
  datatype Link = Link(deviceId: Option<string>, open: bool)

  datatype World = World(links: seq<Link>, registry: map<string, SessionId>)

  datatype Event = Connects | LogsIn(session: SessionId, deviceId: string) | Closes(session: SessionId)

  predicate Enabled(w: World, e: Event) {
    match e
    case Connects => true
    case LogsIn(s, _) => s < |w.links| && w.links[s].open
    case Closes(s) => s < |w.links| && w.links[s].open
  }

  /** A login gives up the session's former name, then takes the new one; the end of handle()
  gives up the name held last. */
  function Next(w: World, e: Event): World
    requires Enabled(w, e)
  {
    match e
    case Connects => w.(links := w.links + [Link(None, true)])
    case LogsIn(s, d) =>
      var was := w.links[s].deviceId;
      var registry := if was.Some? && was.value != d then Removed(w.registry, was.value, s) else w.registry;
      World(w.links[s := Link(Some(d), true)], registry[d := s])
    case Closes(s) =>
      var was := w.links[s].deviceId;
      World(w.links[s := Link(was, false)], if was.Some? then Removed(w.registry, was.value, s) else w.registry)
  }

  ghost predicate Possible(w: World, events: seq<Event>)
    decreases events
  {
    events != [] ==> Enabled(w, events[0]) && Possible(Next(w, events[0]), events[1..])
  }

  ghost function Run(w: World, events: seq<Event>): World
    requires Possible(w, events)
    decreases events
  {
    if events == [] then w else Run(Next(w, events[0]), events[1..])
  }

  /** A registered session is open and stands for that tracker. */
  ghost predicate Truthful(w: World) {
    forall d | d in w.registry ::
      && w.registry[d] < |w.links|
      && w.links[w.registry[d]] == Link(Some(d), true)
  }

  /** The session that logged in as d most recently, if it has neither moved on nor closed. */
  function Holder(events: seq<Event>, d: string): Option<SessionId> {
    if events == [] then None
    else
      var before := Holder(events[..|events| - 1], d);
      match events[|events| - 1]
      case Connects => before
      case LogsIn(s, e) => if e == d then Some(s) else if before == Some(s) then None else before
      case Closes(s) => if before == Some(s) then None else before
  }

  lemma StepTruthful(w: World, e: Event)
    requires Truthful(w) && Enabled(w, e)
    ensures Truthful(Next(w, e))
  {
    var w' := Next(w, e);
    forall d | d in w'.registry
      ensures w'.registry[d] < |w'.links| && w'.links[w'.registry[d]] == Link(Some(d), true)
    {
      assert d in w.registry ==> w.links[w.registry[d]] == Link(Some(d), true);
    }
  }

  function Registered(w: World, d: string): Option<SessionId> {
    if d in w.registry then Some(w.registry[d]) else None
  }

  lemma {:induction false} RunAppend(w: World, events: seq<Event>, e: Event)
    requires Possible(w, events + [e])
    ensures Possible(w, events) && Enabled(Run(w, events), e) && Run(w, events + [e]) == Next(Run(w, events), e)
    decreases events
  {
    if events == [] {
      assert events + [e] == [e] && [e][1..] == [];
    } else {
      assert (events + [e])[0] == events[0] && (events + [e])[1..] == events[1..] + [e];
      RunAppend(Next(w, events[0]), events[1..], e);
    }
  }

  const NOBODY := World([], map[])

  /** In every run, the registry names for each tracker exactly the session that logged in as
  it last and has neither become another tracker nor closed; such a session is open. */
  lemma {:induction false} RegistryRight(events: seq<Event>)
    requires Possible(NOBODY, events)
    ensures Truthful(Run(NOBODY, events))
    ensures forall d :: Registered(Run(NOBODY, events), d) == Holder(events, d)
  {
    if events != [] {
      var init, e := events[..|events| - 1], events[|events| - 1];
      assert events == init + [e];
      RunAppend(NOBODY, init, e);
      RegistryRight(init);
      var w := Run(NOBODY, init);
      StepTruthful(w, e);
      forall d ensures Registered(Next(w, e), d) == Holder(events, d) {
        HolderStep(w, e, d);
        assert Registered(w, d) == Holder(init, d);
      }
    }
  }

  lemma HolderStep(w: World, e: Event, d: string)
    requires Truthful(w) && Enabled(w, e)
    ensures Registered(Next(w, e), d) ==
      match e
      case Connects => Registered(w, d)
      case LogsIn(s, n) => (if n == d then Some(s) else if Registered(w, d) == Some(s) then None else Registered(w, d))
      case Closes(s) => (if Registered(w, d) == Some(s) then None else Registered(w, d))
  {
    assert d in w.registry ==> w.links[w.registry[d]] == Link(Some(d), true);
  }

  /** So a command reaches, in every run, one connection at most: an open one that stands for the
  tracker, the last to log in as it. */
  lemma NotifyReaches(events: seq<Event>, d: string)
    requires Possible(NOBODY, events)
    ensures var w := Run(NOBODY, events);
      && (Holder(events, d).None? ==> Told(w.registry, d) == [])
      && (Holder(events, d).Some? ==>
            var s := Holder(events, d).value;
            Told(w.registry, d) == [s] && s < |w.links| && w.links[s] == Link(Some(d), true))
  {
    RegistryRight(events);
    var w := Run(NOBODY, events);
    assert Registered(w, d) == Holder(events, d);
  }

  /** It need not reach every open connection of a tracker: when the newer one closes, the older
  one, though open, is not registered again. */
  lemma OlderIsForgotten(d: string)
    ensures var events := [Connects, LogsIn(0, d), Connects, LogsIn(1, d), Closes(1)];
      && Possible(NOBODY, events)
      && Run(NOBODY, events).links == [Link(Some(d), true), Link(Some(d), false)]
      && Told(Run(NOBODY, events).registry, d) == []
  {
    var w1 := Next(NOBODY, Connects);
    var w2 := Next(w1, LogsIn(0, d));
    var w3 := Next(w2, Connects);
    var w4 := Next(w3, LogsIn(1, d));
    var w5 := Next(w4, Closes(1));
    assert w5.links == [Link(Some(d), true), Link(Some(d), false)] && d !in w5.registry;
    RunOne(w4, Closes(1), []);
    RunOne(w3, LogsIn(1, d), [Closes(1)]);
    RunOne(w2, Connects, [LogsIn(1, d), Closes(1)]);
    RunOne(w1, LogsIn(0, d), [Connects, LogsIn(1, d), Closes(1)]);
    RunOne(NOBODY, Connects, [LogsIn(0, d), Connects, LogsIn(1, d), Closes(1)]);
  }

  lemma RunOne(w: World, e: Event, rest: seq<Event>)
    requires Enabled(w, e) && Possible(Next(w, e), rest)
    ensures Possible(w, [e] + rest) && Run(w, [e] + rest) == Run(Next(w, e), rest)
  {
    assert ([e] + rest)[1..] == rest;
  }
}
