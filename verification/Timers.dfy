/** The reply timers over whole runs of a connection: no command that was written is forgotten. */
module Timers {
  import opened Basics
  import opened Models
  import opened Crc
  import opened Framing
  import opened Codec
  import opened Decoding
  import opened RoundTrip
  import opened Completion
  import opened Server
  import opened Ledger
  import opened Connections

  /** A command written at entry k: its timer runs, or the task of its timer has yet to run, or an
  outcome under its id was reported since. */
  ghost predicate Followed(l: Link, id: nat, k: nat) {
    || id in l.awaiting
    || (exists c | c in l.lapsed :: c.id == id)
    || (exists m | k < m < |l.log| :: l.log[m].Called? && l.log[m].completion.id == id)
  }

  predicate Arms(e: Entry) { e.Disposed? && e.fate == TimerArmed }

  ghost predicate AllFollowed(l: Link) {
    forall k: nat | k < |l.log| && Arms(l.log[k]) :: Followed(l, l.log[k].command.id, k)
  }

  /** The log grew, and no timer was armed. */
  predicate NoneArmed(before: seq<Entry>, after: seq<Entry>) {
    before <= after && forall k | |before| <= k < |after| :: !Arms(after[k])
  }

  lemma StillFollowed(l: Link, l': Link)
    requires AllFollowed(l) && NoneArmed(l.log, l'.log)
    requires l'.lapsed == l.lapsed && forall id | id in l.awaiting :: id in l'.awaiting
    ensures AllFollowed(l')
  {
    forall k: nat | k < |l'.log| && Arms(l'.log[k]) ensures Followed(l', l'.log[k].command.id, k) {
      assert k < |l.log| && l.log[k] == l'.log[k];
      assert Followed(l, l.log[k].command.id, k);
      if m :| k < m < |l.log| && l.log[m].Called? && l.log[m].completion.id == l.log[k].command.id {
        assert l'.log[m] == l.log[m];
      }
    }
  }

  lemma {:induction false} NoneArmedIn(log: seq<Entry>, more: seq<Entry>)
    requires forall e | e in more :: !Arms(e)
    ensures NoneArmed(log, log + more)
  {
    hide Arms;
    forall k | |log| <= k < |log + more| ensures !Arms((log + more)[k]) {
      assert (log + more)[k] in more;
    }
  }

  lemma {:induction false} StrandArmsNone(todo: seq<Command>)
    ensures forall e | e in Strand(todo) :: !Arms(e)
  {
    if todo != [] {
      StrandArmsNone(todo[1..]);
    }
  }

  lemma {:induction false} WrotesArmNone(packets: seq<Packet>)
    ensures forall e | e in Wrotes(packets) :: !Arms(e)
  {
    if packets != [] {
      WrotesArmNone(packets[1..]);
    }
  }

  lemma TriedFollows(l: Link, todo: seq<Command>, writes: bool)
    requires AllFollowed(l) && todo != []
    ensures AllFollowed(Tried(l, todo, writes))
  {
    StrandArmsNone(todo);
    NoneArmedIn(l.log, Strand(todo));
    PrintableIff(Following(l.outSerial), todo[0]);
    hide AllFollowed, Printable, CommandPacket, BuildCommand, Strand;
    StillFollowed(l, Tried(l, todo, writes));
  }

  lemma BegunFollows(l: Link, todo: seq<Command>, writes: bool)
    requires AllFollowed(l)
    ensures AllFollowed(Begun(l, todo, writes))
  {
    hide AllFollowed, Tried;
    if todo == [] || Refused(l, todo[0]) {
      StillFollowed(l, Begun(l, todo, writes));
    } else {
      TriedFollows(l, todo, writes);
    }
  }

  lemma ArmedFollows(l: Link)
    requires AllFollowed(l) && l.phase.Sending?
    ensures AllFollowed(Armed(l))
  {
    var l' := Armed(l);
    forall k: nat | k < |l'.log| && Arms(l'.log[k]) ensures Followed(l', l'.log[k].command.id, k) {
      if k < |l.log| {
        assert l'.log[k] == l.log[k] && Followed(l, l.log[k].command.id, k);
        if m :| k < m < |l.log| && l.log[m].Called? && l.log[m].completion.id == l.log[k].command.id {
          assert l'.log[m] == l.log[m];
        }
      }
    }
  }

  lemma FiresFollows(l: Link, id: nat)
    requires AllFollowed(l) && Timed(l, Read(l.log)) && id in l.awaiting
    ensures AllFollowed(TimerFired(l, id))
  {
    hide Read;
    var l' := TimerFired(l, id);
    forall k: nat | k < |l'.log| && Arms(l'.log[k]) ensures Followed(l', l'.log[k].command.id, k) {
      assert Followed(l, l.log[k].command.id, k);
      if c :| c in l.lapsed && c.id == l.log[k].command.id {
        assert c in l'.lapsed;
      }
      assert l'.lapsed[|l.lapsed|] == l.awaiting[id] && l.awaiting[id] in l'.lapsed;
    }
  }

  lemma LapsesFollows(l: Link, i: nat)
    requires AllFollowed(l) && i < |l.lapsed|
    ensures AllFollowed(Lapsed(l, i))
  {
    var l' := Lapsed(l, i);
    var n := |l.log|;
    forall k: nat | k < |l'.log| && Arms(l'.log[k]) ensures Followed(l', l'.log[k].command.id, k) {
      assert k < n && l'.log[k] == l.log[k] && Followed(l, l.log[k].command.id, k);
      if m :| k < m < n && l.log[m].Called? && l.log[m].completion.id == l.log[k].command.id {
        assert l'.log[m] == l.log[m];
      }
      assert l'.log[n].Called? && l'.log[n].completion.id == l.lapsed[i].id;
      if c :| c in l.lapsed && c.id == l.log[k].command.id {
        StaysUnless(l.lapsed, i, c);
      }
    }
  }

  lemma StaysUnless(commands: seq<Command>, i: nat, c: Command)
    requires i < |commands| && c in commands
    ensures c == commands[i] || c in commands[..i] + commands[i + 1..]
  {
    assert commands == commands[..i] + [commands[i]] + commands[i + 1..];
  }

  lemma DoneFollows(t: Tongue, l: Link, job: Job)
    requires AllFollowed(l)
    ensures AllFollowed(Done(t, l, job))
  {
    hide DecodeCommandReply;
    var l' := Done(t, l, job);
    var n := |l.log|;
    forall k: nat | k < |l'.log| && Arms(l'.log[k]) ensures Followed(l', l'.log[k].command.id, k) {
      assert k < n && l'.log[k] == l.log[k] && Followed(l, l.log[k].command.id, k);
      if m :| k < m < n && l.log[m].Called? && l.log[m].completion.id == l.log[k].command.id {
        assert l'.log[m] == l.log[m];
      }
      assert l.log[k].command.id in l.awaiting ==>
        l.log[k].command.id in l'.awaiting || (l'.log[n].Called? && l'.log[n].completion.id == l.log[k].command.id);
    }
  }

  lemma ReadingFollows(l: Link, r: Reading)
    requires AllFollowed(l)
    ensures AllFollowed(l.(reading := r))
  {
    hide Arms;
    StillFollowed(l, l.(reading := r));
  }

  lemma HandledArmsNone(l: Link, r: Arrival)
    ensures NoneArmed(l.log, Handled(Arrived(l, r), r).log)
    ensures Handled(Arrived(l, r), r).awaiting == l.awaiting && Handled(Arrived(l, r), r).lapsed == l.lapsed
  {
    hide DecodeLogin, DecodeHeartbeat, Position, Enqueued, LoggedIn;
    LoginArmsNone(l, r);
    forall job, m: Link | m == Arrived(l, r) || m == Acked(Arrived(l, r), r.frame)
      ensures NoneArmed(l.log, Enqueued(m, job).log)
      ensures Enqueued(m, job).awaiting == l.awaiting && Enqueued(m, job).lapsed == l.lapsed
    {
      EnqueuedArmsNone(l, r, m, job);
    }
  }

  lemma EnqueuedArmsNone(l: Link, r: Arrival, m: Link, job: Job)
    requires m == Arrived(l, r) || m == Acked(Arrived(l, r), r.frame)
    ensures NoneArmed(l.log, Enqueued(m, job).log)
    ensures Enqueued(m, job).awaiting == l.awaiting && Enqueued(m, job).lapsed == l.lapsed
  {
    hide Says;
  }

  lemma LoginArmsNone(l: Link, r: Arrival)
    ensures forall name ::
      var l' := LoggedIn(Arrived(l, r), name);
      NoneArmed(l.log, l'.log) && l'.awaiting == l.awaiting && l'.lapsed == l.lapsed
  {
  }

  lemma StepFollows(t: Tongue, l: Link, a: Action)
    requires AllFollowed(l) && Timed(l, Read(l.log)) && Enabled(l, a)
    ensures AllFollowed(After(t, l, a))
  {
    hide AllFollowed, Read, Timed, Begun, Done, Handled, Wrotes, AckPackets, TimePackets, AckBytes, TimeBytes, Arms;
    match a {
      case Handles(r) =>
        HandledArmsNone(l, r);
        StillFollowed(l, Handled(Arrived(l, r), r));
      case Does(i) =>
        DoneFollows(t, l, l.reading.jobs[i]);
        ReadingFollows(Done(t, l, l.reading.jobs[i]), JobDone(t, l, i).reading);
      case Replies(clocks) =>
        var packets := AckPackets(l.reading.acks) + TimePackets(l.reading.asked, clocks);
        WrotesArmNone(packets);
        NoneArmedIn(l.log, Wrotes(packets));
        StillFollowed(l, Replied(l, clocks));
      case Claims(commands, writes) =>
        OtherArmsNone(l, Claimed(commands));
        StillFollowed(l, Logged(l, Claimed(commands)));
        BegunFollows(Logged(l, Claimed(commands)), commands, writes);
      case Drains(writes) =>
        ArmedFollows(l);
        BegunFollows(Armed(l), l.todo, writes);
      case Completes(writes) => BegunFollows(l, l.todo, writes);
      case Fires(id) => FiresFollows(l, id);
      case Lapses(i) => LapsesFollows(l, i);
      case _ =>
        FewArmNone(t, l, a);
        StillFollowed(l, After(t, l, a));
    }
  }

  lemma OtherArmsNone(l: Link, e: Entry)
    requires !e.Disposed?
    ensures NoneArmed(l.log, l.log + [e])
  {
  }

  lemma FewArmNone(t: Tongue, l: Link, a: Action)
    requires Enabled(l, a) && (a == Closes || a == Delivers || a == ClaimFails || a == Breaks)
    ensures NoneArmed(l.log, After(t, l, a).log)
    ensures After(t, l, a).awaiting == l.awaiting && After(t, l, a).lapsed == l.lapsed
  {
  }

  lemma {:induction false} RunFollows(t: Tongue, l: Link, actions: seq<Action>)
    requires AllFollowed(l) && Good(l) && Possible(t, l, actions)
    ensures AllFollowed(Run(t, l, actions))
    decreases actions
  {
    if actions != [] {
      StepKeeps(t, l, actions[0]);
      GoodIsTimed(l);
      StepFollows(t, l, actions[0]);
      hide Good, Enabled, After, AllFollowed, Timed;
      RunFollows(t, After(t, l, actions[0]), actions[1..]);
    }
  }

  lemma GoodIsTimed(l: Link)
    requires Good(l)
    ensures Timed(l, Read(l.log))
  {
    hide Read, AllFair, InStep, Carried;
  }

  /** In every run: a command that was written, and so has a timer, is never forgotten. */
  lemma WrittenIsFollowed(t: Tongue, l: Link, k: nat)
    requires Reachable(t, l) && k < |l.log| && l.log[k].Disposed? && l.log[k].fate == TimerArmed
    ensures Followed(l, l.log[k].command.id, k)
  {
    FreshIsGood();
    var actions :| Possible(t, FRESH, actions) && Run(t, FRESH, actions) == l;
    hide Good, Followed;
    RunFollows(t, FRESH, actions);
    hide Run, Possible;
  }
}
