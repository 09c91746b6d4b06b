/** The in-memory store of tracker commands, and the admin's door to it. */
module CommandStore {
  import opened Basics
  import opened Codec
  import opened Completion
  import opened Crc
  import opened Intervals

  datatype Action = Cut | Restore | Timer | Param

  datatype Command = Command(
    id: nat, deviceId: string, action: Action, text: string, status: Status, requester: Option<string>,
    requestedAt: Instant, expiresAt: Instant, completedAt: Option<Instant>, error: Option<string>)

  const COMMAND_TTL := 5 * MINUTE
  const SETTINGS_TTL := 24 * HOUR
  const RELAY_ACTIONS := {Cut, Restore}
  const RELAY_DISABLED := "relay_disabled"

  /** What a new command supersedes while it is still queued. */
  function Group(action: Action): set<Action> {
    if action in RELAY_ACTIONS then RELAY_ACTIONS else {action}
  }

  /** Queued, and not past its expiry. */
  predicate Live(c: Command, now: Instant) { c.status == Queued && c.expiresAt > now }

  function Effective(c: Command, now: Instant): (read: Command)
    ensures read.id == c.id
  {
    if c.status == Queued && c.expiresAt <= now then c.(status := Expired) else c
  }

  predicate Rivals(a: Command, b: Command) {
    a.deviceId == b.deviceId && b.action in Group(a.action)
  }

  /** Which commands a new one of this action supersedes, and which ones switching off fails. */
  predicate Superseded(c: Command, deviceId: string, action: Action, now: Instant) {
    c.deviceId == deviceId && c.action in Group(action) && Live(c, now)
  }

  predicate CutOff(c: Command, deviceId: string, now: Instant) {
    c.deviceId == deviceId && c.action == Cut && Live(c, now)
  }

  datatype Store = Store(commands: seq<Command>, nextId: nat, relay: map<string, bool>)

  predicate Enabled(s: Store, deviceId: string) { deviceId in s.relay && s.relay[deviceId] }

  function Made(s: Store, deviceId: string, action: Action, text: string, ttl: Instant,
        requester: Option<string>, now: Instant): Command {
    Command(s.nextId, deviceId, action, text, Queued, requester, now, now + ttl, None, None)
  }

  function Replaced(c: Command, deviceId: string, action: Action, now: Instant): Command {
    if Superseded(c, deviceId, action, now) then c.(status := Status.Superseded, completedAt := Some(now)) else c
  }

  function Forbidden(c: Command, deviceId: string, now: Instant): Command {
    if CutOff(c, deviceId, now)
    then c.(status := Failed, error := Some(RELAY_DISABLED), completedAt := Some(now))
    else c
  }

  function Map(commands: seq<Command>, f: Command -> Command): (mapped: seq<Command>)
    ensures |mapped| == |commands| && forall i | 0 <= i < |commands| :: mapped[i] == f(commands[i])
  {
    seq(|commands|, i requires 0 <= i < |commands| => f(commands[i]))
  }

  function Created(s: Store, deviceId: string, action: Action, text: string, ttl: Instant,
        requester: Option<string>, now: Instant): Store {
    var kept := Map(s.commands, c => Replaced(c, deviceId, action, now));
    Store(kept + [Made(s, deviceId, action, text, ttl, requester, now)], s.nextId + 1, s.relay)
  }

  function Switched(s: Store, deviceId: string, on: bool, now: Instant): Store {
    var kept := if on then s.commands else Map(s.commands, c => Forbidden(c, deviceId, now));
    Store(kept, s.nextId, s.relay[deviceId := on])
  }

  function Text(action: Action): string
    requires action in RELAY_ACTIONS
  {
    if action == Cut then "RELAY,1#" else "RELAY,0#"
  }

  datatype Reason = SwitchedOff | IgnitionOn | IgnitionUnknown

  datatype Reply = Accepted(command: Command) | Conflict(reason: Reason)

  /** A cut needs cut-off switched on and the ignition known to be off; a restore needs nothing. */
  predicate Admitted(s: Store, deviceId: string, action: Action, ignition: Option<bool>) {
    action == Cut ==> Enabled(s, deviceId) && ignition == Some(false)
  }

  class InMemoryCommandRepository {
    var commands: seq<Command>
    var nextId: nat
    var relay: map<string, bool>

    ghost function View(): Store
      reads this
    {
      Store(commands, nextId, relay)
    }

    constructor ()
      ensures View() == EMPTY
    {
      commands, nextId, relay := [], 1, map[];
    }

    method Create(deviceId: string, action: Action, text: string, ttl: Instant, requester: Option<string>, now: Instant)
      returns (command: Command)
      modifies this`commands, this`nextId
      ensures View() == Created(old(View()), deviceId, action, text, ttl, requester, now)
      ensures command == Made(old(View()), deviceId, action, text, ttl, requester, now)
    {
      command := Command(nextId, deviceId, action, text, Queued, requester, now, now + ttl, None, None);
      nextId := nextId + 1;
      commands := Map(commands, c => Replaced(c, deviceId, action, now)) + [command];
    }

    method SetRelayEnabled(deviceId: string, on: bool, now: Instant)
      modifies this`commands, this`relay
      ensures View() == Switched(old(View()), deviceId, on, now)
    {
      relay := relay[deviceId := on];
      if !on {
        commands := Map(commands, c => Forbidden(c, deviceId, now));
      }
    }

    /** The endpoint behind the dashboard's cut and restore, as one step. */
    method SendRelayCommand(deviceId: string, action: Action, ignition: Option<bool>, requester: Option<string>,
          now: Instant)
      returns (reply: Reply)
      requires action in RELAY_ACTIONS
      modifies this`commands, this`nextId
      ensures reply.Accepted? <==> Admitted(old(View()), deviceId, action, ignition)
      ensures reply.Accepted? ==>
                reply.command == Made(old(View()), deviceId, action, Text(action), COMMAND_TTL, requester, now)
      ensures reply.Accepted? ==>
                && reply.command.text == (if action == Cut then "RELAY,1#" else "RELAY,0#")
                && reply.command.status == Queued && reply.command.expiresAt == now + 300_000_000
      ensures reply.Conflict? ==>
                reply.reason == if !Enabled(View(), deviceId) then SwitchedOff
                                else if ignition == Some(true) then IgnitionOn else IgnitionUnknown
      ensures View() == if reply.Accepted?
                        then Created(old(View()), deviceId, action, Text(action), COMMAND_TTL, requester, now)
                        else old(View())
    {
      hide Created;
      if action == Cut {
        if !(deviceId in relay && relay[deviceId]) { return Conflict(SwitchedOff); }
        if ignition != Some(false) { return Conflict(if ignition == Some(true) then IgnitionOn else IgnitionUnknown); }
      }
      var command := Create(deviceId, action, Text(action), COMMAND_TTL, requester, now);
      return Accepted(command);
    }
  }

  predicate Asked(c: Command, deviceId: string, actions: set<Action>) {
    c.deviceId == deviceId && c.action in actions
  }

  function Newest(commands: seq<Command>, deviceId: string, actions: set<Action>): seq<Command> {
    if commands == [] then []
    else
      var c := commands[|commands| - 1];
      (if Asked(c, deviceId, actions) then [c] else []) + Newest(commands[..|commands| - 1], deviceId, actions)
  }

  /** Newest first; a queued command past its expiry reads as expired. */
  function Listed(s: Store, deviceId: string, limit: nat, actions: set<Action>, now: Instant): seq<Command> {
    var mine := Newest(s.commands, deviceId, actions);
    Map(mine[..Min(limit, |mine|)], c => Effective(c, now))
  }

  lemma {:induction false} NewestRight(s: Store, n: nat, deviceId: string, actions: set<Action>)
    requires IdsRise(s) && n <= |s.commands|
    ensures var mine := Newest(s.commands[..n], deviceId, actions);
      && (forall i, j | 0 <= i < j < |mine| :: mine[i].id > mine[j].id)
      && (forall c :: c in mine <==> c in s.commands[..n] && Asked(c, deviceId, actions))
  {
    if n > 0 {
      NewestRight(s, n - 1, deviceId, actions);
      var last, older := s.commands[n - 1], s.commands[..n - 1];
      assert s.commands[..n][..n - 1] == older && s.commands[..n] == older + [last];
      assert forall c | c in older :: c.id < last.id;
    }
  }

  /** The list holds the newest of what was asked for, newest first, up to the limit: whatever
  it leaves out is older than everything it shows. */
  lemma ListedRight(s: Store, deviceId: string, limit: nat, actions: set<Action>, now: Instant)
    requires IdsRise(s)
    ensures var listed := Listed(s, deviceId, limit, actions, now);
      && |listed| <= limit
      && (forall i, j | 0 <= i < j < |listed| :: listed[i].id > listed[j].id)
      && (forall k | 0 <= k < |s.commands| && Asked(s.commands[k], deviceId, actions) ::
            || ReadAs(s.commands[k], now) in listed
            || (|listed| == limit && forall i | 0 <= i < limit :: listed[i].id > s.commands[k].id))
    ensures forall r | r in Listed(s, deviceId, limit, actions, now) ::
      exists c | c in s.commands :: c.deviceId == deviceId && c.action in actions && r == ReadAs(c, now)
  {
    var n := |s.commands|;
    assert s.commands[..n] == s.commands;
    EffectiveRead(s.commands, now);
    NewestRight(s, n, deviceId, actions);
    hide Newest, IdsRise, Effective, Asked, ReadAs;
    var mine, listed := Newest(s.commands, deviceId, actions), Listed(s, deviceId, limit, actions, now);
    forall k | 0 <= k < n && Asked(s.commands[k], deviceId, actions)
      ensures ReadAs(s.commands[k], now) in listed
              || (|listed| == limit && forall i | 0 <= i < limit :: listed[i].id > s.commands[k].id)
    {
      var at := Place(mine, s.commands[k]);
      assert at < |listed| ==> listed[at] == Effective(s.commands[k], now);
    }
    forall r | r in listed
      ensures exists c | c in s.commands :: c.deviceId == deviceId && c.action in actions && r == ReadAs(c, now)
    {
      var at := Place(listed, r);
      assert mine[at] in mine && r == Effective(mine[at], now);
      AskedFor(mine[at], deviceId, actions);
    }
  }

  /** A waiting command past its expiry reads as expired, any other as it is. */
  function ReadAs(c: Command, now: Instant): Command {
    if c.status == Queued && !Waits(c, now) then c.(status := Expired) else c
  }

  lemma EffectiveRead(commands: seq<Command>, now: Instant)
    ensures forall c | c in commands :: Effective(c, now) == ReadAs(c, now)
  {
  }

  lemma AskedFor(c: Command, deviceId: string, actions: set<Action>)
    ensures Asked(c, deviceId, actions) <==> c.deviceId == deviceId && c.action in actions
  {
  }

  lemma Place(commands: seq<Command>, c: Command) returns (at: nat)
    requires c in commands
    ensures at < |commands| && commands[at] == c
  {
    at :| 0 <= at < |commands| && commands[at] == c;
  }

  // ---- Runs -----------------------------------------------------------------------------------

  const EMPTY := Store([], 1, map[])

  datatype Event =
    | Relay(deviceId: string, action: Action, ignition: Option<bool>, requester: Option<string>)
    | Tracker(deviceId: string, action: Action, text: string, requester: Option<string>)
    | Switch(deviceId: string, on: bool)

  predicate Proper(e: Event) {
    match e
    case Relay(_, action, _, _) => action in RELAY_ACTIONS
    case Tracker(_, action, _, _) => action !in RELAY_ACTIONS
    case Switch(_, _) => true
  }

  function Next(s: Store, e: Event, now: Instant): Store {
    match e
    case Relay(d, action, ignition, requester) =>
      if action in RELAY_ACTIONS && Admitted(s, d, action, ignition)
      then Created(s, d, action, Text(action), COMMAND_TTL, requester, now) else s
    case Tracker(d, action, text, requester) => Created(s, d, action, text, SETTINGS_TTL, requester, now)
    case Switch(d, on) => Switched(s, d, on, now)
  }

  datatype Timed = Timed(event: Event, at: Instant)

  predicate InOrder(clock: Instant, events: seq<Timed>)
    decreases events
  {
    events != [] ==> clock <= events[0].at && Proper(events[0].event) && InOrder(events[0].at, events[1..])
  }

  function Run(s: Store, events: seq<Timed>): Store
    decreases events
  {
    if events == [] then s else Run(Next(s, events[0].event, events[0].at), events[1..])
  }

  function Clock(start: Instant, events: seq<Timed>): Instant {
    if events == [] then start else events[|events| - 1].at
  }

  predicate IdsRise(s: Store) {
    && (forall i | 0 <= i < |s.commands| :: s.commands[i].id < s.nextId)
    && (forall i, j | 0 <= i < j < |s.commands| :: s.commands[i].id < s.commands[j].id)
  }

  /** No two live commands for one tracker in one supersede group. */
  predicate AtMostOne(s: Store, now: Instant) {
    forall i, j | 0 <= i < j < |s.commands| ::
      Live(s.commands[i], now) && Live(s.commands[j], now) ==> !Rivals(s.commands[i], s.commands[j])
  }

  /** No live cut for a tracker whose cut-off is switched off. */
  predicate NoForbiddenCut(s: Store, now: Instant) {
    forall i | 0 <= i < |s.commands| ::
      Live(s.commands[i], now) && s.commands[i].action == Cut ==> Enabled(s, s.commands[i].deviceId)
  }

  predicate Sound(s: Store, now: Instant) {
    IdsRise(s) && AtMostOne(s, now) && NoForbiddenCut(s, now)
  }

  /** Waiting for its tracker, and not past its expiry. */
  predicate Waits(c: Command, now: Instant) { c.status == Queued && now < c.expiresAt }

  /** Cut and restore replace either, a settings command only its own kind. */
  predicate Replaces(action: Action, former: Action) {
    action == former || (action in {Cut, Restore} && former in {Cut, Restore})
  }

  /** What creating a command does, command by command. */
  lemma CreatedExactly(s: Store, deviceId: string, action: Action, text: string, ttl: Instant,
        requester: Option<string>, now: Instant)
    ensures var s', n := Created(s, deviceId, action, text, ttl, requester, now), |s.commands|;
      && |s'.commands| == n + 1 && s'.relay == s.relay && s'.nextId == s.nextId + 1
      && (forall i | 0 <= i < n ::
            var c := s.commands[i];
            if c.deviceId == deviceId && Replaces(action, c.action) && Waits(c, now)
            then s'.commands[i] == c.(status := Status.Superseded, completedAt := Some(now))
            else s'.commands[i] == c)
      && Waits(s'.commands[n], now) == (ttl > 0)
      && s'.commands[n].id == s.nextId && s'.commands[n].deviceId == deviceId && s'.commands[n].action == action
      && s'.commands[n].text == text && s'.commands[n].requester == requester && s'.commands[n].requestedAt == now
      && s'.commands[n].expiresAt == now + ttl && s'.commands[n].error == None && s'.commands[n].completedAt == None
  {
  }

  /** Switching cut-off: off fails the tracker's waiting cuts and touches nothing else. */
  lemma SwitchedExactly(s: Store, deviceId: string, on: bool, now: Instant)
    ensures var s' := Switched(s, deviceId, on, now);
      && |s'.commands| == |s.commands| && s'.nextId == s.nextId && s'.relay == s.relay[deviceId := on]
      && (forall i | 0 <= i < |s.commands| ::
            var c := s.commands[i];
            if !on && c.deviceId == deviceId && c.action == Cut && Waits(c, now)
            then s'.commands[i] == c.(status := Failed, error := Some("relay_disabled"), completedAt := Some(now))
            else s'.commands[i] == c)
  {
  }

  lemma LaterStillSound(s: Store, now: Instant, later: Instant)
    requires Sound(s, now) && now <= later
    ensures Sound(s, later)
  {
    assert forall i | 0 <= i < |s.commands| :: Live(s.commands[i], later) ==> Live(s.commands[i], now);
  }

  lemma CreateKeepsOne(s: Store, d: string, action: Action, text: string, ttl: Instant,
        requester: Option<string>, now: Instant)
    requires IdsRise(s) && AtMostOne(s, now)
    ensures var s' := Created(s, d, action, text, ttl, requester, now); IdsRise(s') && AtMostOne(s', now)
  {
    var s' := Created(s, d, action, text, ttl, requester, now);
    var n := |s.commands|;
    forall i, j | 0 <= i < j < |s'.commands|
      ensures Live(s'.commands[i], now) && Live(s'.commands[j], now) ==> !Rivals(s'.commands[i], s'.commands[j])
    {
      assert Live(s'.commands[i], now) ==>
        s'.commands[i] == s.commands[i] && !Superseded(s.commands[i], d, action, now);
      assert j < n && Live(s'.commands[j], now) ==> s'.commands[j] == s.commands[j];
    }
  }

  /** Creating a cut is safe exactly when cut-off is on at that very moment: the endpoint's
  check must not be separated from the creation. */
  lemma CutSafeIff(s: Store, d: string, text: string, requester: Option<string>, now: Instant)
    requires NoForbiddenCut(s, now)
    ensures NoForbiddenCut(Created(s, d, Cut, text, COMMAND_TTL, requester, now), now) <==> Enabled(s, d)
  {
    var s' := Created(s, d, Cut, text, COMMAND_TTL, requester, now);
    var n := |s.commands|;
    assert s'.commands[n] == Made(s, d, Cut, text, COMMAND_TTL, requester, now) && Live(s'.commands[n], now);
    assert forall i | 0 <= i < n && Live(s'.commands[i], now) :: s'.commands[i] == s.commands[i];
  }

  lemma CreateKeepsPermission(s: Store, d: string, action: Action, text: string, ttl: Instant,
        requester: Option<string>, now: Instant)
    requires NoForbiddenCut(s, now) && (action == Cut ==> Enabled(s, d))
    ensures NoForbiddenCut(Created(s, d, action, text, ttl, requester, now), now)
  {
    var s' := Created(s, d, action, text, ttl, requester, now);
    assert forall i | 0 <= i < |s.commands| && Live(s'.commands[i], now) :: s'.commands[i] == s.commands[i];
  }

  lemma SwitchKeeps(s: Store, d: string, on: bool, now: Instant)
    requires Sound(s, now)
    ensures Sound(Switched(s, d, on, now), now)
  {
    var s' := Switched(s, d, on, now);
    assert forall i | 0 <= i < |s'.commands| && Live(s'.commands[i], now) ::
      s'.commands[i] == s.commands[i] && (!on ==> !CutOff(s.commands[i], d, now));
  }

  lemma StepKeeps(s: Store, e: Event, now: Instant)
    requires Sound(s, now) && Proper(e)
    ensures Sound(Next(s, e, now), now)
  {
    hide IdsRise, AtMostOne, NoForbiddenCut, Created, Switched;
    match e
    case Relay(d, action, ignition, requester) =>
      if Admitted(s, d, action, ignition) {
        CreateKeepsOne(s, d, action, Text(action), COMMAND_TTL, requester, now);
        CreateKeepsPermission(s, d, action, Text(action), COMMAND_TTL, requester, now);
      }
    case Tracker(d, action, text, requester) =>
      CreateKeepsOne(s, d, action, text, SETTINGS_TTL, requester, now);
      CreateKeepsPermission(s, d, action, text, SETTINGS_TTL, requester, now);
    case Switch(d, on) => SwitchKeeps(s, d, on, now);
  }

  lemma {:induction false} RunKeeps(s: Store, clock: Instant, events: seq<Timed>)
    requires Sound(s, clock) && InOrder(clock, events)
    ensures Sound(Run(s, events), Clock(clock, events))
    decreases events
  {
    if events != [] {
      hide Sound;
      var now := events[0].at;
      LaterStillSound(s, clock, now);
      StepKeeps(s, events[0].event, now);
      RunKeeps(Next(s, events[0].event, now), now, events[1..]);
    }
  }

  /** In every run under a clock that never goes back, and at every later moment: one live
  command at most per tracker and group, and none that would cut an engine whose cut-off is
  switched off. */
  lemma OneCommandAtATime(clock: Instant, events: seq<Timed>, now: Instant)
    requires InOrder(clock, events) && Clock(clock, events) <= now
    ensures var s := Run(EMPTY, events);
      && IdsRise(s)
      && (forall i, j | 0 <= i < j < |s.commands| && Waits(s.commands[i], now) && Waits(s.commands[j], now) ::
            s.commands[i].deviceId == s.commands[j].deviceId ==>
              !Replaces(s.commands[j].action, s.commands[i].action))
      && (forall i | 0 <= i < |s.commands| && Waits(s.commands[i], now) && s.commands[i].action == Cut ::
            s.commands[i].deviceId in s.relay && s.relay[s.commands[i].deviceId])
  {
    RunKeeps(EMPTY, clock, events);
    LaterStillSound(Run(EMPTY, events), Clock(clock, events), now);
  }

  // ---- The endpoint in two steps ------------------------------------------------------------

  /** Over a store that is awaited, the endpoint's checks and its creation are apart: a request
  that passed the checks waits its turn while anything else happens. */
  datatype Request = Request(deviceId: string, action: Action, requester: Option<string>)

  datatype Door = Door(store: Store, waiting: seq<Request>)

  datatype Step =
    | Checks(request: Request, ignition: Option<bool>)
    | Creates(i: nat)
    | Meanwhile(event: Event)

  datatype TimedStep = TimedStep(step: Step, at: Instant)

  predicate Allowed(d: Door, s: Step) {
    match s
    case Checks(request, _) => request.action in RELAY_ACTIONS
    case Creates(i) => i < |d.waiting| && d.waiting[i].action in RELAY_ACTIONS
    case Meanwhile(e) => !e.Relay? && Proper(e)
  }

  function Taken(d: Door, s: Step, now: Instant): Door
    requires Allowed(d, s)
  {
    match s
    case Checks(r, ignition) =>
      if Admitted(d.store, r.deviceId, r.action, ignition) then d.(waiting := d.waiting + [r]) else d
    case Creates(i) =>
      var r := d.waiting[i];
      Door(Created(d.store, r.deviceId, r.action, Text(r.action), COMMAND_TTL, r.requester, now),
           d.waiting[..i] + d.waiting[i + 1..])
    case Meanwhile(e) => d.(store := Next(d.store, e, now))
  }

  ghost predicate Can(d: Door, clock: Instant, steps: seq<TimedStep>)
    decreases steps
  {
    steps != [] ==>
      && clock <= steps[0].at && Allowed(d, steps[0].step)
      && Can(Taken(d, steps[0].step, steps[0].at), steps[0].at, steps[1..])
  }

  /** No moment of the run has a live cut whose cut-off is switched off. */
  ghost predicate SafeThroughout(d: Door, clock: Instant, steps: seq<TimedStep>)
    requires Can(d, clock, steps)
    decreases steps
  {
    && NoForbiddenCut(d.store, clock)
    && (steps != [] ==> SafeThroughout(Taken(d, steps[0].step, steps[0].at), steps[0].at, steps[1..]))
  }

  /** Every cut is created while its cut-off is switched on. */
  ghost predicate CutsWhileOn(d: Door, clock: Instant, steps: seq<TimedStep>)
    requires Can(d, clock, steps)
    decreases steps
  {
    steps != [] ==>
      && (steps[0].step.Creates? && d.waiting[steps[0].step.i].action == Cut ==>
            Enabled(d.store, d.waiting[steps[0].step.i].deviceId))
      && CutsWhileOn(Taken(d, steps[0].step, steps[0].at), steps[0].at, steps[1..])
  }

  lemma SwitchKeepsPermission(s: Store, d: string, on: bool, now: Instant)
    requires NoForbiddenCut(s, now)
    ensures NoForbiddenCut(Switched(s, d, on, now), now)
  {
    var s' := Switched(s, d, on, now);
    assert forall i | 0 <= i < |s'.commands| && Live(s'.commands[i], now) ::
      s'.commands[i] == s.commands[i] && (!on ==> !CutOff(s.commands[i], d, now));
  }

  lemma LaterStillPermitted(s: Store, now: Instant, later: Instant)
    requires NoForbiddenCut(s, now) && now <= later
    ensures NoForbiddenCut(s, later)
  {
    assert forall i | 0 <= i < |s.commands| :: Live(s.commands[i], later) ==> Live(s.commands[i], now);
  }

  /** One step breaks the rule exactly when it creates a cut whose cut-off is off by then. */
  lemma TakenSafeIff(d: Door, s: Step, now: Instant)
    requires Allowed(d, s) && NoForbiddenCut(d.store, now)
    ensures NoForbiddenCut(Taken(d, s, now).store, now)
       <==> (s.Creates? && d.waiting[s.i].action == Cut ==> Enabled(d.store, d.waiting[s.i].deviceId))
  {
    hide NoForbiddenCut, Created, Switched;
    match s
    case Checks(_, _) =>
    case Creates(i) =>
      var r := d.waiting[i];
      if r.action == Cut {
        CutSafeIff(d.store, r.deviceId, Text(Cut), r.requester, now);
      } else {
        CreateKeepsPermission(d.store, r.deviceId, r.action, Text(r.action), COMMAND_TTL, r.requester, now);
      }
    case Meanwhile(e) =>
      if e.Switch? {
        SwitchKeepsPermission(d.store, e.deviceId, e.on, now);
      } else {
        CreateKeepsPermission(d.store, e.deviceId, e.action, e.text, SETTINGS_TTL, e.requester, now);
      }
  }

  /** Over every run: the rule holds throughout if and only if each cut is created while its
  cut-off is on. Checking beforehand is not enough. */
  lemma {:induction false} SafeThroughoutIff(d: Door, clock: Instant, steps: seq<TimedStep>)
    requires Can(d, clock, steps) && NoForbiddenCut(d.store, clock)
    ensures SafeThroughout(d, clock, steps) <==> CutsWhileOn(d, clock, steps)
    decreases steps
  {
    if steps != [] {
      hide NoForbiddenCut, Taken, Enabled;
      var s, now := steps[0].step, steps[0].at;
      LaterStillPermitted(d.store, clock, now);
      TakenSafeIff(d, s, now);
      if NoForbiddenCut(Taken(d, s, now).store, now) {
        SafeThroughoutIff(Taken(d, s, now), now, steps[1..]);
      } else {
        NotSafe(Taken(d, s, now), now, steps[1..]);
      }
    }
  }

  lemma NotSafe(d: Door, clock: Instant, steps: seq<TimedStep>)
    requires Can(d, clock, steps) && !NoForbiddenCut(d.store, clock)
    ensures !SafeThroughout(d, clock, steps)
  {
  }

  /** Such a run: admitted, switched off, created. */
  lemma CheckedTooEarly(d: string, now: Instant)
    ensures var cut := Request(d, Cut, None);
      var admitted := Taken(Door(Switched(EMPTY, d, true, now), []), Checks(cut, Some(false)), now);
      var off := Taken(admitted, Meanwhile(Switch(d, false)), now);
      admitted.waiting == [cut] && Allowed(off, Creates(0)) && !NoForbiddenCut(Taken(off, Creates(0), now).store, now)
  {
    var cut := Request(d, Cut, None);
    var admitted := Taken(Door(Switched(EMPTY, d, true, now), []), Checks(cut, Some(false)), now);
    var off := Taken(admitted, Meanwhile(Switch(d, false)), now);
    assert admitted.waiting == [cut] && off.waiting == [cut];
    TakenSafeIff(off, Creates(0), now);
  }

  // ---- The texts the API queues -----------------------------------------------------------------

  function DigitsOf(n: nat): string {
    (if n < 10 then "" else DigitsOf(n / 10)) + [(48 + n % 10) as char]
  }

  function ValueOf(digits: string): int {
    if digits == "" then 0 else 10 * ValueOf(digits[..|digits| - 1]) + (digits[|digits| - 1] as int - 48)
  }

  lemma {:induction false} DigitsRead(n: nat)
    ensures ValueOf(DigitsOf(n)) == n
    ensures forall c | c in DigitsOf(n) :: '0' <= c <= '9'
    decreases n
  {
    assert DigitsOf(n)[..|DigitsOf(n)| - 1] == if n < 10 then "" else DigitsOf(n / 10);
    if n >= 10 {
      DigitsRead(n / 10);
    }
  }

  /** timer_command. */
  function TimerText(moving: nat, parked: nat): string {
    "TIMER," + DigitsOf(moving) + "," + DigitsOf(parked) + "#"
  }

  const PARAM_TEXT := "PARAM#"

  /** The limits the request is validated against. */
  predicate TimerAccepted(moving: nat, parked: nat) { 5 <= moving <= 18000 && 300 <= parked <= 18000 }

  /** What the endpoints queue for each action. */
  ghost predicate FromApi(action: Action, text: string) {
    match action
    case Cut => text == Text(Cut)
    case Restore => text == Text(Restore)
    case Timer => exists moving: nat, parked: nat :: TimerAccepted(moving, parked) && text == TimerText(moving, parked)
    case Param => text == PARAM_TEXT
  }

  function Power10(n: nat): nat { if n == 0 then 1 else 10 * Power10(n - 1) }

  lemma {:induction false} DigitsFit(n: nat, width: nat)
    requires width >= 1 && n < Power10(width)
    ensures IsAscii(DigitsOf(n)) && |DigitsOf(n)| <= width
    decreases n
  {
    if n >= 10 {
      DigitsFit(n / 10, width - 1);
    }
  }

  lemma TimerFits(moving: nat, parked: nat)
    requires TimerAccepted(moving, parked)
    ensures IsAscii(TimerText(moving, parked)) && |TimerText(moving, parked)| <= 18
  {
    assert Power10(5) == 10 * Power10(4) == 100 * Power10(3) == 100_000;
    DigitsFit(moving, 5);
    DigitsFit(parked, 5);
  }

  /** Every text the API queues can be printed, for any id that fits its four bytes. */
  lemma ApiTextsPrint(action: Action, text: string, serial: word, id: nat)
    requires FromApi(action, text) && id < FLAG_LIMIT
    ensures BuildCommand(serial, id, text).Ok?
  {
    hide BuildCommand;
    if action == Timer {
      var moving: nat, parked: nat :| TimerAccepted(moving, parked) && text == TimerText(moving, parked);
      TimerFits(moving, parked);
    } else {
      assert IsAscii(text) && |text| <= 8;
    }
  }
}
