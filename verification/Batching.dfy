/** The batching sink: a bounded queue, one flusher, a stop marker. Everything between two
awaits is one step; the order of the queue is the order in which puts land. */
module Batching {
  import opened Basics
  import opened Models
  import opened Postgres

  type Event = LocationEvent

  datatype Item = Fix(event: Event) | Marker

  /** Where the flusher is suspended: waiting for the first fix of a batch, waiting for another
  before the deadline, inside the inner sink (whether it ends after this batch), or finished. */
  datatype Mode = Idle | Filling | Writing(last: bool) | Finished

  datatype Config = Config(batchSize: int, queueMax: int)

  /** What happened so far: the puts that were accepted, items in the order they entered the queue, batches in the order
  they were handed to the inner sink, what that sink wrote, and what left the queue unhandled. */
  datatype Past = Past(accepted: seq<Item>, entered: seq<Item>, handed: seq<seq<Event>>, written: seq<Event>,
        cleared: seq<Item>)

  datatype State = State(
    blocked: seq<Item>, queue: seq<Item>, batch: seq<Event>, mode: Mode, closing: bool,
    flushed: nat, failed: nat, past: Past)

  const START := State([], [], [], Idle, false, 0, 0, Past([], [], [], [], []))

  datatype Action =
    | Publishes(event: Event)   // publish is called
    | Stops                     // stop is called
    | Lands(i: nat)             // a waiting put finds room
    | Takes(late: bool)         // the flusher is handed an item; whether the deadline has passed
    | TimesOut
    | Returns(out: Outcome)     // the inner sink returns or raises
    | Clears                    // leftovers are dropped after the flusher ended

  datatype Taken = Taken(batch: seq<Event>, queue: seq<Item>, mode: Mode)

  /** The flusher's inner loop, from one await to the next. */
  function Collected(size: int, batch: seq<Event>, queue: seq<Item>, late: bool): Taken
    decreases |queue|
  {
    if |batch| >= size then Taken(batch, queue, Writing(false))
    else if queue == [] then Taken(batch, queue, if late then Writing(false) else Filling)
    else if queue[0].Marker? then Taken(batch, queue[1..], Writing(true))
    else Collected(size, batch + [queue[0].event], queue[1..], late)
  }

  predicate Enabled(c: Config, s: State, a: Action) {
    match a
    case Publishes(_) => true
    case Stops => true
    case Lands(i) => i < |s.blocked| && |s.queue| < c.queueMax
    case Takes(_) => s.mode in {Idle, Filling} && s.queue != []
    case TimesOut => s.mode == Filling
    case Returns(out) => s.mode.Writing? && (out.Returned? ==> |out.results| == |s.batch|)
    case Clears => s.mode == Finished
  }

  function Without<T>(s: seq<T>, i: nat): seq<T>
    requires i < |s|
  {
    s[..i] + s[i + 1..]
  }

  function Put(s: State, item: Item): State {
    s.(blocked := s.blocked + [item], past := s.past.(accepted := s.past.accepted + [item]))
  }

  /** A batch that is complete is handed over. */
  function Hand(s: State, t: Taken): State {
    var s' := s.(batch := t.batch, queue := t.queue, mode := t.mode);
    if t.mode.Writing? then s'.(past := s.past.(handed := s.past.handed + [t.batch])) else s'
  }

  function Fixes(items: seq<Item>): seq<Event> {
    if items == [] then [] else (if items[0].Fix? then [items[0].event] else []) + Fixes(items[1..])
  }

  function Written(batch: seq<Event>, out: Outcome): seq<Event>
    requires out.Returned? ==> |out.results| == |batch|
  {
    if out.Raised? then [] else Kept(batch, out.results)
  }

  function Lost(batch: seq<Event>, out: Outcome): nat {
    if out.Raised? then |batch| else Failures(out.results)
  }

  function Next(c: Config, s: State, a: Action): State
    requires Enabled(c, s, a)
  {
    match a
    case Publishes(event) => if s.closing then s else Put(s, Fix(event))
    case Stops => Put(s.(closing := true), Marker)
    case Lands(i) => s.(blocked := Without(s.blocked, i), queue := s.queue + [s.blocked[i]],
                        past := s.past.(entered := s.past.entered + [s.blocked[i]]))
    case Takes(late) =>
      if s.mode == Filling then Hand(s, Collected(c.batchSize, s.batch, s.queue, late))
      else if s.queue[0].Marker? then s.(queue := s.queue[1..], mode := Finished)
      else Hand(s, Collected(c.batchSize, [s.queue[0].event], s.queue[1..], late))
    case TimesOut => Hand(s, Taken(s.batch, s.queue, Writing(false)))
    case Returns(out) =>
      s.(batch := [], mode := if s.mode.last then Finished else Idle, flushed := s.flushed + 1,
         failed := s.failed + Lost(s.batch, out),
         past := s.past.(written := s.past.written + Written(s.batch, out)))
    case Clears => s.(queue := [], failed := s.failed + |Fixes(s.queue)|,
                      past := s.past.(cleared := s.past.cleared + s.queue))
  }

  // ---- The class ---------------------------------------------------------------------------

  datatype Made = Made(sink: BatchingSink) | ValueError

  class BatchingSink {
    const batchSize: int
    const queueMax: int
    /** Puts waiting for room, and where the flusher is suspended: the event loop's knowledge. */
    var blocked: seq<Item>
    var mode: Mode
    var queue: seq<Item>
    var batch: seq<Event>
    var closing: bool
    var batchesFlushed: nat
    var eventsFailed: nat
    ghost var past: Past

    ghost function View(): State
      reads this
    {
      State(blocked, queue, batch, mode, closing, batchesFlushed, eventsFailed, past)
    }

    ghost function Settings(): Config { Config(batchSize, queueMax) }

    /** Whether start has been called: before, there is no queue to publish to. */
    var started: bool

    constructor (batchSize: int, queueMax: int)
      requires batchSize >= 1 && queueMax >= 1
      ensures View() == START && !started && this.batchSize == batchSize && this.queueMax == queueMax
    {
      this.batchSize, this.queueMax, started := batchSize, queueMax, false;
      blocked, mode, queue, batch, closing := [], Idle, [], [], false;
      batchesFlushed, eventsFailed, past := 0, 0, Past([], [], [], [], []);
    }

    static method Make(batchSize: int, flushInterval: real, queueMax: int) returns (made: Made)
      ensures made.ValueError? <==> batchSize < 1 || flushInterval < 0.0 || queueMax < 1
      ensures made.Made? ==> made.sink.View() == START && !made.sink.started
      ensures made.Made? ==> made.sink.Settings() == Config(batchSize, queueMax)
    {
      if batchSize < 1 || flushInterval < 0.0 || queueMax < 1 { return ValueError; }
      var sink := new BatchingSink(batchSize, queueMax);
      return Made.Made(sink);
    }

    method Start()
      requires !started && View() == START
      modifies this`started
      ensures started && View() == START
    {
      started := true;
    }

    /** Refused before start and once closing has begun. */
    method Publish(event: Event) returns (accepted: bool)
      modifies this`blocked, this`past
      ensures accepted == (started && !closing)
      ensures View() == if started then Next(Settings(), old(View()), Publishes(event)) else old(View())
    {
      if !started || closing { return false; }
      blocked := blocked + [Fix(event)];
      past := past.(accepted := past.accepted + [Fix(event)]);
      return true;
    }

    method Stop()
      modifies this`blocked, this`closing, this`past
      ensures View() == if started then Next(Settings(), old(View()), Stops) else old(View())
    {
      if !started { return; }
      closing := true;
      blocked := blocked + [Marker];
      past := past.(accepted := past.accepted + [Marker]);
    }

    method Land(i: nat)
      requires Enabled(Settings(), View(), Lands(i))
      modifies this`blocked, this`queue, this`past
      ensures View() == Next(Settings(), old(View()), Lands(i))
    {
      var item := blocked[i];
      blocked := blocked[..i] + blocked[i + 1..];
      queue := queue + [item];
      past := past.(entered := past.entered + [item]);
    }

    /** One stretch of _run: from an item arriving to the next await. */
    method Take(late: bool)
      requires batchSize >= 1 && Enabled(Settings(), View(), Takes(late))
      modifies this`queue, this`batch, this`mode, this`past
      ensures View() == Next(Settings(), old(View()), Takes(late))
    {
      if mode == Idle {
        var item := queue[0];
        queue := queue[1..];
        if item.Marker? {
          mode := Finished;
          return;
        }
        batch := [item.event];
      }
      var stopping, waiting := false, false;
      ghost var goal := Collected(batchSize, batch, queue, late);
      while !stopping && !waiting && |batch| < batchSize
        invariant stopping ==> goal == Taken(batch, queue, Writing(true))
        invariant waiting ==> goal == Taken(batch, queue, Filling)
        invariant !stopping && !waiting ==> goal == Collected(batchSize, batch, queue, late)
        invariant !(stopping && waiting)
        invariant past == old(past)
        decreases |queue|, !waiting
      {
        if queue == [] {
          if late { break; }
          waiting := true;
        } else {
          var item := queue[0];
          queue := queue[1..];
          if item.Marker? {
            stopping := true;
          } else {
            batch := batch + [item.event];
          }
        }
      }
      if waiting {
        mode := Filling;
      } else {
        HandOver(stopping);
      }
    }

    method HandOver(stopping: bool)
      modifies this`mode, this`past
      ensures View() == Hand(old(View()), Taken(batch, queue, Writing(stopping)))
    {
      past := past.(handed := past.handed + [batch]);
      mode := Writing(stopping);
    }

    method TimeOut()
      requires mode == Filling
      modifies this`mode, this`past
      ensures View() == Next(Settings(), old(View()), TimesOut)
    {
      HandOver(false);
    }

    /** The rest of _flush, and of _run's loop, once the inner sink is done with the batch. */
    method FlushReturned(out: Outcome)
      requires Enabled(Settings(), View(), Returns(out))
      modifies this`batch, this`mode, this`batchesFlushed, this`eventsFailed, this`past
      ensures View() == Next(Settings(), old(View()), Returns(out))
    {
      match out {
        case Raised => eventsFailed := eventsFailed + |batch|;
        case Returned(results) => eventsFailed := eventsFailed + Failures(results);
      }
      batchesFlushed := batchesFlushed + 1;
      past := past.(written := past.written + Written(batch, out));
      mode := if mode.last then Finished else Idle;
      batch := [];
    }

    /** In front of Postgres: what is added to eventsFailed is exactly what did not land. */
    method Flush(inner: PostgresSink, copyAnswer: Result, answers: seq<Result>) returns (out: Outcome)
      requires mode.Writing? && |answers| == |batch|
      modifies this`batch, this`mode, this`batchesFlushed, this`eventsFailed, this`past, inner`table
      ensures Enabled(Settings(), old(View()), Returns(out)) && View() == Next(Settings(), old(View()), Returns(out))
      ensures inner.table == old(inner.table) + Written(old(batch), out)
      ensures eventsFailed - old(eventsFailed) == |old(batch)| - (|inner.table| - |old(inner.table)|)
    {
      out := inner.PublishMany(batch, copyAnswer, answers);
      WrittenOrLost(batch, out);
      FlushReturned(out);
    }

    /** A put that was blocked on a full queue can land behind the marker. */
    method DropLeftovers()
      requires mode == Finished
      modifies this`queue, this`eventsFailed, this`past
      ensures View() == Next(Settings(), old(View()), Clears)
    {
      var dropped := 0;
      past := past.(cleared := past.cleared + queue);
      while queue != []
        invariant dropped + |Fixes(queue)| == |Fixes(old(queue))|
        invariant eventsFailed == old(eventsFailed)
        invariant past == old(past).(cleared := old(past).cleared + old(queue))
        decreases |queue|
      {
        var item := queue[0];
        queue := queue[1..];
        if item.Fix? {
          dropped := dropped + 1;
        }
      }
      if dropped != 0 {
        eventsFailed := eventsFailed + dropped;
      }
    }
  }

  lemma WrittenOrLost(batch: seq<Event>, out: Outcome)
    requires out.Returned? ==> |out.results| == |batch|
    ensures |Written(batch, out)| + Lost(batch, out) == |batch|
  {
    if out.Returned? { KeptIsLanded(batch, out.results); }
  }

  // ---- Runs --------------------------------------------------------------------------------

  ghost predicate Possible(c: Config, s: State, actions: seq<Action>)
    decreases actions
  {
    actions != [] ==> Enabled(c, s, actions[0]) && Possible(c, Next(c, s, actions[0]), actions[1..])
  }

  ghost function Run(c: Config, s: State, actions: seq<Action>): State
    requires Possible(c, s, actions)
    decreases actions
  {
    if actions == [] then s else Run(c, Next(c, s, actions[0]), actions[1..])
  }

  function AsItems(events: seq<Event>): seq<Item> {
    if events == [] then [] else [Fix(events[0])] + AsItems(events[1..])
  }

  /** The fixes ahead of the first stop marker. */
  function Ahead(items: seq<Item>): seq<Event> {
    if items == [] || items[0].Marker? then [] else [items[0].event] + Ahead(items[1..])
  }

  predicate MarkerTaken(s: State) { s.mode == Finished || s.mode == Writing(true) }

  /** The batch being built; a batch that is being written was handed over already. */
  function Building(s: State): seq<Event> { if s.mode.Writing? then [] else s.batch }

  /** Every item that entered, in the order it entered: handed over, being built, still queued,
  or, behind the marker, cleared. */
  predicate Conserved(s: State) {
    && s.past.entered
         == AsItems(Concat(s.past.handed) + Building(s))
            + (if MarkerTaken(s) then [Marker] + s.past.cleared else [])
            + s.queue
    && (!MarkerTaken(s) ==> s.past.cleared == [])
  }

  /** Nothing is lost or doubled on its way into the queue. */
  ghost predicate Delivered(s: State) {
    multiset(s.past.accepted) == multiset(s.past.entered) + multiset(s.blocked)
  }

  predicate Bounded(c: Config, s: State) {
    && |s.queue| <= c.queueMax
    && (forall i | 0 <= i < |s.past.handed| :: 1 <= |s.past.handed[i]| <= c.batchSize)
    && (match s.mode
        case Filling => 1 <= |s.batch| < c.batchSize
        case Writing(_) => s.past.handed != [] && s.past.handed[|s.past.handed| - 1] == s.batch
        case _ => s.batch == [])
  }

  predicate Honest(s: State) {
    var inFlight := if s.mode.Writing? then 1 else 0;
    && s.flushed + inFlight == |s.past.handed|
    && s.failed + |s.past.written| + (if s.mode.Writing? then |s.batch| else 0)
         == |Concat(s.past.handed)| + |Fixes(s.past.cleared)|
  }

  predicate Good(c: Config, s: State) {
    Conserved(s) && Bounded(c, s) && Honest(s)
  }

  // ---- What every step keeps ----------------------------------------------------------------

  lemma {:induction false} AsItemsAppend(a: seq<Event>, b: seq<Event>)
    ensures AsItems(a + b) == AsItems(a) + AsItems(b)
  {
    if a == [] {
      assert a + b == b;
    } else {
      var rest := a[1..];
      AsItemsAppend(rest, b);
      assert (a + b)[1..] == rest + b;
      Associate([Fix(a[0])], AsItems(rest), AsItems(b));
    }
  }

  lemma {:induction false} FixesAppend(a: seq<Item>, b: seq<Item>)
    ensures Fixes(a + b) == Fixes(a) + Fixes(b)
  {
    if a == [] {
      assert a + b == b;
    } else {
      var rest, head := a[1..], if a[0].Fix? then [a[0].event] else [];
      FixesAppend(rest, b);
      assert (a + b)[1..] == rest + b;
      Associate(head, Fixes(rest), Fixes(b));
    }
  }

  /** What the inner loop does: it moves fixes from the queue to the batch, in order, and at
  most one marker disappears. */
  lemma {:induction false} CollectedMoves(size: int, batch: seq<Event>, queue: seq<Item>, late: bool)
    requires size >= 1 && 1 <= |batch| <= size
    ensures var t := Collected(size, batch, queue, late);
      && 1 <= |t.batch| <= size && |t.queue| <= |queue|
      && (t.mode == Filling || t.mode.Writing?) && (t.mode == Filling ==> |t.batch| < size)
      && AsItems(batch) + queue == AsItems(t.batch) + (if t.mode == Writing(true) then [Marker] else []) + t.queue
    decreases |queue|
  {
    if |batch| < size && queue != [] && queue[0].Fix? {
      var batch' := batch + [queue[0].event];
      CollectedMoves(size, batch', queue[1..], late);
      AsItemsAppend(batch, [queue[0].event]);
      assert AsItems([queue[0].event]) == [queue[0]];
      assert AsItems(batch) + queue == AsItems(batch') + queue[1..];
    } else {
      assert queue != [] ==> queue == [queue[0]] + queue[1..];
    }
  }

  lemma ConcatOne(parts: seq<seq<Event>>, part: seq<Event>)
    ensures Concat(parts + [part]) == Concat(parts) + part
  {
    ConcatAppend(parts, [part]);
    assert [part][1..] == [];
    assert Concat([part]) == part;
  }

  /** Handing over, or not yet. */
  lemma HandKeeps(c: Config, s: State, t: Taken)
    requires c.batchSize >= 1 && Good(c, s)
    requires s.mode == Idle || s.mode == Filling
    requires t.mode == Filling || t.mode.Writing?
    requires 1 <= |t.batch| <= c.batchSize && |t.queue| <= |s.queue| && (t.mode == Filling ==> |t.batch| < c.batchSize)
    requires AsItems(s.batch) + s.queue
          == AsItems(t.batch) + (if t.mode == Writing(true) then [Marker] else []) + t.queue
    ensures Good(c, Hand(s, t))
  {
    hide AsItems;
    ConcatOne(s.past.handed, t.batch);
    assert Conserved(Hand(s, t)) by { HandConserves(s, t); }
    hide Conserved, Concat;
  }

  lemma HandConserves(s: State, t: Taken)
    requires Conserved(s)
    requires s.mode == Idle || s.mode == Filling
    requires t.mode == Filling || t.mode.Writing?
    requires AsItems(s.batch) + s.queue
          == AsItems(t.batch) + (if t.mode == Writing(true) then [Marker] else []) + t.queue
    ensures Conserved(Hand(s, t))
  {
    hide AsItems, Concat;
    var done, marker := Concat(s.past.handed), if t.mode == Writing(true) then [Marker] else [];
    AsItemsAppend(done, s.batch);
    AsItemsAppend(done, t.batch);
    ConcatOne(s.past.handed, t.batch);
    assert s.past.entered == AsItems(done) + (AsItems(s.batch) + s.queue);
    assert s.past.entered == AsItems(done + t.batch) + marker + t.queue;
    assert (done + t.batch) + [] == done + t.batch && marker + [] == marker;
  }

  lemma TakeKeeps(c: Config, s: State, late: bool)
    requires c.batchSize >= 1 && Good(c, s) && Enabled(c, s, Takes(late))
    ensures Good(c, Next(c, s, Takes(late)))
  {
    if s.mode == Filling {
      hide Conserved, Honest, Collected, AsItems;
      CollectedMoves(c.batchSize, s.batch, s.queue, late);
      HandKeeps(c, s, Collected(c.batchSize, s.batch, s.queue, late));
    } else if s.queue[0].Marker? {
      EndKeeps(c, s, late);
    } else {
      hide Conserved, Honest, Collected;
      var first := [s.queue[0].event];
      CollectedMoves(c.batchSize, first, s.queue[1..], late);
      FirstItem(s.queue);
      HandKeeps(c, s, Collected(c.batchSize, first, s.queue[1..], late));
    }
  }

  lemma FirstItem(queue: seq<Item>)
    requires queue != [] && queue[0].Fix?
    ensures AsItems([]) + queue == AsItems([queue[0].event]) + queue[1..]
  {
    assert [queue[0].event][1..] == [];
  }

  lemma EndKeeps(c: Config, s: State, late: bool)
    requires Good(c, s) && s.mode == Idle && s.queue != [] && s.queue[0].Marker?
    ensures Good(c, Next(c, s, Takes(late)))
  {
    hide AsItems, Concat;
    assert [s.queue[0]] + s.queue[1..] == s.queue && [Marker] + [] == [Marker];
  }

  lemma StepKeeps(c: Config, s: State, a: Action)
    requires c.batchSize >= 1 && Good(c, s) && Enabled(c, s, a)
    ensures Good(c, Next(c, s, a))
  {
    match a {
      case Publishes(_) =>
      case Stops =>
      case Lands(i) => LandKeeps(c, s, i);
      case Takes(late) => TakeKeeps(c, s, late);
      case TimesOut =>
        assert AsItems(s.batch) + s.queue == AsItems(s.batch) + [] + s.queue;
        HandKeeps(c, s, Taken(s.batch, s.queue, Writing(false)));
      case Returns(out) => ReturnKeeps(c, s, out);
      case Clears => ClearKeeps(c, s);
    }
  }

  lemma LandKeeps(c: Config, s: State, i: nat)
    requires Good(c, s) && Enabled(c, s, Lands(i))
    ensures Good(c, Next(c, s, Lands(i)))
  {
    hide AsItems, Concat, Fixes;
    var marker := if MarkerTaken(s) then [Marker] + s.past.cleared else [];
    var ahead := AsItems(Concat(s.past.handed) + Building(s));
    Associate(ahead + marker, s.queue, [s.blocked[i]]);
  }

  lemma DeliveredStep(c: Config, s: State, a: Action)
    requires Delivered(s) && Enabled(c, s, a)
    ensures Delivered(Next(c, s, a))
  {
    hide Collected, Fixes, Lost, Written, Without;
    if a.Lands? {
      WithoutOne(s.blocked, a.i);
    }
  }

  /** What the inner sink wrote of the batches it is done with, in order. */
  ghost predicate InOrder(s: State) {
    s.flushed <= |s.past.handed| && Subsequence(s.past.written, Concat(s.past.handed[..s.flushed]))
  }

  lemma InOrderStep(c: Config, s: State, a: Action)
    requires Good(c, s) && InOrder(s) && Enabled(c, s, a)
    ensures InOrder(Next(c, s, a))
  {
    hide Collected, Fixes, Lost, Without, Conserved, Concat, Subsequence;
    if a.Returns? {
      WrittenInOrderStep(s.past.written, s.past.handed, s.flushed, s.batch, a.out);
    } else {
      var handed := Next(c, s, a).past.handed;
      assert handed[..s.flushed] == s.past.handed[..s.flushed];
    }
  }

  lemma WrittenInOrderStep(written: seq<Event>, handed: seq<seq<Event>>, n: nat, batch: seq<Event>, out: Outcome)
    requires |handed| == n + 1 && handed[n] == batch && (out.Returned? ==> |out.results| == |batch|)
    requires Subsequence(written, Concat(handed[..n]))
    ensures Subsequence(written + Written(batch, out), Concat(handed[..n + 1]))
  {
    if out.Returned? { KeptInOrder(batch, out.results); }
    hide Concat;
    SubsequenceJoins(written, Concat(handed[..n]), Written(batch, out), batch);
    ConcatOne(handed[..n], batch);
    assert handed[..n + 1] == handed[..n] + [batch];
  }

  lemma WithoutOne(items: seq<Item>, i: nat)
    requires i < |items|
    ensures multiset(items) == multiset(Without(items, i)) + multiset{items[i]}
  {
    assert items == items[..i] + [items[i]] + items[i + 1..];
  }

  lemma ReturnKeeps(c: Config, s: State, out: Outcome)
    requires Good(c, s) && Enabled(c, s, Returns(out))
    ensures Good(c, Next(c, s, Returns(out)))
  {
    WrittenOrLost(s.batch, out);
  }

  lemma ClearKeeps(c: Config, s: State)
    requires c.queueMax >= 0 && Good(c, s) && Enabled(c, s, Clears)
    ensures Good(c, Next(c, s, Clears))
  {
    hide AsItems, Concat, Fixes;
    FixesAppend(s.past.cleared, s.queue);
    var ahead := AsItems(Concat(s.past.handed) + Building(s));
    Associate([Marker], s.past.cleared, s.queue);
    Associate(ahead, [Marker] + s.past.cleared, s.queue);
    assert ahead + ([Marker] + (s.past.cleared + s.queue)) + [] == ahead + ([Marker] + (s.past.cleared + s.queue));
  }

  lemma {:induction false} RunKeeps(c: Config, s: State, actions: seq<Action>)
    requires c.batchSize >= 1 && c.queueMax >= 1 && Possible(c, s, actions)
    requires Good(c, s) && Delivered(s) && InOrder(s)
    ensures var end := Run(c, s, actions); Good(c, end) && Delivered(end) && InOrder(end)
    decreases actions
  {
    if actions != [] {
      hide Good, Delivered, InOrder, Enabled, Next;
      StepKeeps(c, s, actions[0]);
      DeliveredStep(c, s, actions[0]);
      InOrderStep(c, s, actions[0]);
      RunKeeps(c, Next(c, s, actions[0]), actions[1..]);
    }
  }

  // ---- Main results ---------------------------------------------------------------------------

  lemma {:induction false} FixesOfItems(events: seq<Event>)
    ensures Fixes(AsItems(events)) == events
  {
    if events != [] {
      FixesOfItems(events[1..]);
    }
  }

  lemma {:induction false} AheadOfItems(events: seq<Event>, rest: seq<Item>)
    ensures Ahead(AsItems(events) + rest) == events + Ahead(rest)
  {
    if events == [] {
      assert AsItems(events) + rest == rest;
    } else {
      var tail := events[1..];
      AheadOfItems(tail, rest);
      assert (AsItems(events) + rest)[1..] == AsItems(tail) + rest;
      Associate([events[0]], tail, Ahead(rest));
      assert events == [events[0]] + tail;
    }
  }

  /** Conservation and order, in every reachable state: the fixes that entered the queue ahead
  of the stop marker are, in order, those handed over, then the batch being built, then those
  still queued ahead of it; and no fix that entered at all is missing or doubled. */
  lemma Conservation(c: Config, actions: seq<Action>)
    requires c.batchSize >= 1 && c.queueMax >= 1 && Possible(c, START, actions)
    ensures var s := Run(c, START, actions);
      && Ahead(s.past.entered) == Concat(s.past.handed) + Building(s) + (if MarkerTaken(s) then [] else Ahead(s.queue))
      && Fixes(s.past.entered) == Concat(s.past.handed) + Building(s) + Fixes(s.past.cleared) + Fixes(s.queue)
      && multiset(s.past.accepted) == multiset(s.past.entered) + multiset(s.blocked)
      && (forall b | b in s.past.handed :: 1 <= |b| <= c.batchSize)
      && |s.queue| <= c.queueMax
  {
    RunKeeps(c, START, actions);
    hide Run, Possible, Ahead, AsItems, Fixes, Concat;
    ConservedMeans(Run(c, START, actions));
  }

  lemma ConservedMeans(s: State)
    requires Conserved(s)
    ensures Ahead(s.past.entered)
          == Concat(s.past.handed) + Building(s) + (if MarkerTaken(s) then [] else Ahead(s.queue))
    ensures Fixes(s.past.entered) == Concat(s.past.handed) + Building(s) + Fixes(s.past.cleared) + Fixes(s.queue)
  {
    hide Ahead, AsItems, Fixes, Concat, Building, MarkerTaken;
    var mine := Concat(s.past.handed) + Building(s);
    FixesOfItems(mine);
    NoFixes();
    if MarkerTaken(s) {
      var rest := s.past.cleared + s.queue;
      assert s.past.entered == AsItems(mine) + ([Marker] + rest);
      AheadOfItems(mine, [Marker] + rest);
      MarkerFirst(rest);
      FixesAppend(AsItems(mine), [Marker] + rest);
      FixesAppend(s.past.cleared, s.queue);
      Associate(mine, Fixes(s.past.cleared), Fixes(s.queue));
    } else {
      assert s.past.entered == AsItems(mine) + s.queue;
      AheadOfItems(mine, s.queue);
      FixesAppend(AsItems(mine), s.queue);
      assert mine + [] == mine;
    }
  }

  lemma NoFixes()
    ensures Fixes([]) == []
  {
  }

  lemma MarkerFirst(items: seq<Item>)
    ensures Ahead([Marker] + items) == [] && Fixes([Marker] + items) == Fixes(items)
  {
    assert ([Marker] + items)[1..] == items;
  }

  /** When the flusher has ended, everything ahead of the marker was handed over exactly once,
  and eventsFailed is what was handed over and not written, plus the leftovers dropped. */
  lemma StopHandsOverAll(c: Config, actions: seq<Action>)
    requires c.batchSize >= 1 && c.queueMax >= 1 && Possible(c, START, actions)
    requires Run(c, START, actions).mode == Finished
    ensures var s := Run(c, START, actions);
      && Ahead(s.past.entered) == Concat(s.past.handed)
      && s.flushed == |s.past.handed|
      && s.failed == (|Concat(s.past.handed)| - |s.past.written|) + |Fixes(s.past.cleared)|
  {
    RunKeeps(c, START, actions);
    Conservation(c, actions);
    var s := Run(c, START, actions);
    assert Building(s) == [];
  }

  /** One flusher, so one order: in every run, what was written is, in order, some of the fixes
  that entered ahead of the marker. */
  lemma WrittenInOrder(c: Config, actions: seq<Action>)
    requires c.batchSize >= 1 && c.queueMax >= 1 && Possible(c, START, actions)
    ensures var s := Run(c, START, actions); Subsequence(s.past.written, Ahead(s.past.entered))
  {
    RunKeeps(c, START, actions);
    Conservation(c, actions);
    var s := Run(c, START, actions);
    hide Run, Possible, Ahead, Concat, Subsequence, Conserved, Honest, Bounded, Building, Fixes, AsItems;
    var handed, n := s.past.handed, s.flushed;
    ConcatAppend(handed[..n], handed[n..]);
    assert handed[..n] + handed[n..] == handed;
    var rest := Building(s) + (if MarkerTaken(s) then [] else Ahead(s.queue));
    Associate(Concat(handed), Building(s), if MarkerTaken(s) then [] else Ahead(s.queue));
    SubsequenceExtends(s.past.written, Concat(handed[..n]), Concat(handed[n..]));
    SubsequenceExtends(s.past.written, Concat(handed), rest);
  }

  predicate FlusherStep(a: Action) { a.Takes? || a.TimesOut? || a.Returns? }

  /** How many fixes are queued ahead of the first marker. */
  function FixesAhead(queue: seq<Item>): nat {
    if queue == [] || queue[0].Marker? then 0 else 1 + FixesAhead(queue[1..])
  }

  /** How much the flusher still has to do; what lands behind the marker does not count. */
  function Work(s: State): nat {
    match s.mode
    case Finished => 0
    case Writing(last) => if last then 1 else 4 * (FixesAhead(s.queue) + 1) + 1
    case Filling => 4 * (FixesAhead(s.queue) + 1) + 2
    case Idle => 4 * (FixesAhead(s.queue) + 1)
  }

  predicate MarkerIn(s: State) { MarkerTaken(s) || Marker in s.queue }

  lemma {:induction false} AheadOfRest(events: seq<Event>, rest: seq<Item>)
    ensures FixesAhead(AsItems(events) + rest) == |events| + FixesAhead(rest)
  {
    if events == [] {
      assert AsItems(events) + rest == rest;
    } else {
      var tail := events[1..];
      AheadOfRest(tail, rest);
      var items := AsItems(events) + rest;
      assert items[0] == Fix(events[0]) && items[1..] == AsItems(tail) + rest;
    }
  }

  lemma {:induction false} BehindTheMarker(queue: seq<Item>, item: Item)
    requires Marker in queue
    ensures FixesAhead(queue + [item]) == FixesAhead(queue)
  {
    if queue[0].Fix? {
      assert (queue + [item])[1..] == queue[1..] + [item];
      BehindTheMarker(queue[1..], item);
    }
  }

  lemma NoMarkerAmongFixes(events: seq<Event>)
    ensures Marker !in AsItems(events)
  {
  }

  /** With the marker queued, the flusher can always step once the inner sink answers; its steps
  leave it less to do, and nobody else's leave it more. */
  lemma StopStep(c: Config, s: State, a: Action)
    requires c.batchSize >= 1 && Good(c, s) && MarkerIn(s) && Enabled(c, s, a)
    ensures MarkerIn(Next(c, s, a))
    ensures Work(Next(c, s, a)) + (if FlusherStep(a) then 1 else 0) <= Work(s)
  {
    hide Conserved, Honest, Collected, Lost, Written, Fixes, FixesAhead, Without;
    match a {
      case Takes(late) => TakeWorks(c, s, late);
      case Lands(i) => if Marker in s.queue { BehindTheMarker(s.queue, s.blocked[i]); }
      case _ =>
    }
  }

  lemma TakeWorks(c: Config, s: State, late: bool)
    requires c.batchSize >= 1 && Good(c, s) && Marker in s.queue && Enabled(c, s, Takes(late))
    ensures Work(Next(c, s, Takes(late))) < Work(s) && MarkerIn(Next(c, s, Takes(late)))
  {
    hide Conserved, Honest, AsItems, Collected, FixesAhead;
    var item, rest := s.queue[0], s.queue[1..];
    assert s.queue == [item] + rest;
    if s.mode == Filling {
      CollectedWorks(c.batchSize, s.batch, s.queue, late);
      CollectedShrinks(c.batchSize, s.batch, s.queue, late);
    } else if item.Fix? {
      OneAhead(s.queue);
      CollectedWorks(c.batchSize, [item.event], rest, late);
    }
  }

  lemma OneAhead(queue: seq<Item>)
    requires queue != [] && queue[0].Fix?
    ensures FixesAhead(queue) == 1 + FixesAhead(queue[1..])
  {
  }

  lemma CollectedWorks(size: int, batch: seq<Event>, queue: seq<Item>, late: bool)
    requires size >= 1 && 1 <= |batch| <= size && Marker in queue
    ensures var t := Collected(size, batch, queue, late);
      && (t.mode == Filling || t.mode.Writing?)
      && (t.mode != Writing(true) ==>
            && Marker in t.queue && |t.queue| <= |queue|
            && FixesAhead(queue) - FixesAhead(t.queue) == |queue| - |t.queue|)
  {
    var t := Collected(size, batch, queue, late);
    CollectedMoves(size, batch, queue, late);
    hide Collected, FixesAhead;
    ItemsLength(batch);
    ItemsLength(t.batch);
    if t.mode != Writing(true) {
      assert AsItems(t.batch) + [] == AsItems(t.batch);
      AheadOfRest(batch, queue);
      AheadOfRest(t.batch, t.queue);
      NoMarkerAmongFixes(t.batch);
      assert Marker in AsItems(batch) + queue;
    }
  }

  lemma ItemsLength(events: seq<Event>)
    ensures |AsItems(events)| == |events|
  {
  }

  lemma CollectedShrinks(size: int, batch: seq<Event>, queue: seq<Item>, late: bool)
    requires 1 <= |batch| < size && queue != []
    ensures |Collected(size, batch, queue, late).queue| < |queue|
  {
    if queue[0].Fix? {
      CollectedMoves(size, batch + [queue[0].event], queue[1..], late);
    }
  }

  function FlusherSteps(actions: seq<Action>): nat {
    if actions == [] then 0 else (if FlusherStep(actions[0]) then 1 else 0) + FlusherSteps(actions[1..])
  }

  /** stop() cannot hang on the flusher. From any moment of a run with the marker queued, whatever
  else lands or is called, the flusher takes at most Work(s) more steps; and until it has
  finished it can take one, once the inner sink answers. */
  lemma {:induction false} StopEnds(c: Config, s: State, actions: seq<Action>)
    requires c.batchSize >= 1 && Good(c, s) && MarkerIn(s) && Possible(c, s, actions)
    ensures var end := Run(c, s, actions);
      && FlusherSteps(actions) + Work(end) <= Work(s)
      && (end.mode == Finished || Enabled(c, end, Takes(false)) || Enabled(c, end, TimesOut)
          || Enabled(c, end, Returns(Raised)))
    decreases actions
  {
    if actions != [] {
      StopStep(c, s, actions[0]);
      StepKeeps(c, s, actions[0]);
      hide Good, Enabled, Next, Work, MarkerIn;
      StopEnds(c, Next(c, s, actions[0]), actions[1..]);
    }
  }
}
