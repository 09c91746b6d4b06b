/** Writing a batch of fixes to Postgres: one COPY, or row by row when a row is to blame. */
module Postgres {
  import opened Basics
  import opened Models

  /** What a write can raise: an encoding error, an error carrying an SQLSTATE, or anything else. */
  datatype Error = Encoding | Sql(state: string) | Other

  /** The row is at fault, not the database. */
  predicate IsRowError(e: Error) {
    match e
    case Encoding => true
    case Sql(state) => |state| >= 2 && (state[..2] == "22" || state[..2] == "23")
    case Other => false
  }

  /** Of the database's errors, exactly classes 22 and 23: bad data and broken constraints. */
  lemma RowErrorIff(state: string)
    ensures IsRowError(Sql(state)) <==> |state| >= 2 && state[0] == '2' && (state[1] == '2' || state[1] == '3')
  {
    if |state| >= 2 {
      assert state[..2] == [state[0], state[1]];
    }
  }

  /** One event's outcome: None if it was written. */
  type Result = Option<Error>

  datatype Outcome = Returned(results: seq<Result>) | Raised

  /** The events whose outcome says they were written. */
  function Kept(events: seq<LocationEvent>, results: seq<Result>): seq<LocationEvent>
    requires |results| == |events|
  {
    if events == [] then []
    else Kept(events[..|events| - 1], results[..|events| - 1])
         + (if results[|events| - 1].None? then [events[|events| - 1]] else [])
  }

  function Failures(results: seq<Result>): nat {
    if results == [] then 0
    else Failures(results[..|results| - 1]) + (if results[|results| - 1].Some? then 1 else 0)
  }

  /** The positions reported as written. */
  function Landed(results: seq<Result>): seq<nat> {
    if results == [] then []
    else Landed(results[..|results| - 1]) + (if results[|results| - 1].None? then [|results| - 1] else [])
  }

  lemma {:induction false} LandedExactly(results: seq<Result>)
    ensures forall i :: i in Landed(results) <==> 0 <= i < |results| && results[i].None?
    ensures forall a, b | 0 <= a < b < |Landed(results)| :: Landed(results)[a] < Landed(results)[b]
  {
    if results != [] {
      var n := |results| - 1;
      LandedExactly(results[..n]);
      forall i ensures i in Landed(results) <==> 0 <= i < |results| && results[i].None? {
        assert i in Landed(results) <==> i in Landed(results[..n]) || (i == n && results[n].None?);
        assert 0 <= i < n ==> results[..n][i] == results[i];
      }
      forall a, b | 0 <= a < b < |Landed(results)| ensures Landed(results)[a] < Landed(results)[b] {
        assert Landed(results)[a] in Landed(results[..n]);
      }
    }
  }

  /** What was kept is the events at the positions reported written: in input order, each
  position once, and no other event. */
  lemma {:induction false} KeptIsLanded(events: seq<LocationEvent>, results: seq<Result>)
    requires |results| == |events|
    ensures |Kept(events, results)| == |Landed(results)|
    ensures forall k | 0 <= k < |Landed(results)| ::
              Landed(results)[k] < |events| && Kept(events, results)[k] == events[Landed(results)[k]]
    ensures |Kept(events, results)| + Failures(results) == |events|
  {
    LandedExactly(results);
    if events != [] {
      var n := |events| - 1;
      KeptIsLanded(events[..n], results[..n]);
      forall k | 0 <= k < |Landed(results)|
        ensures Landed(results)[k] < |events| && Kept(events, results)[k] == events[Landed(results)[k]]
      {
        assert Landed(results)[k] in Landed(results);
        assert k < |Landed(results[..n])| ==> events[..n][Landed(results[..n])[k]] == events[Landed(results)[k]];
      }
    }
  }

  /** So the order of the input is the order of the rows. */
  lemma {:induction false} KeptInOrder(events: seq<LocationEvent>, results: seq<Result>)
    requires |results| == |events|
    ensures Subsequence(Kept(events, results), events)
  {
    if events != [] {
      var n := |events| - 1;
      var kept := Kept(events[..n], results[..n]);
      KeptInOrder(events[..n], results[..n]);
      if results[n].None? {
        assert (kept + [events[n]])[..|kept|] == kept;
      } else {
        assert kept + [] == kept;
      }
    }
  }

  lemma {:induction false} KeptAll(events: seq<LocationEvent>, results: seq<Result>)
    requires |results| == |events| && forall i | 0 <= i < |results| :: results[i].None?
    ensures Kept(events, results) == events
  {
    if events != [] {
      var n := |events| - 1;
      KeptAll(events[..n], results[..n]);
      assert events == events[..n] + [events[n]];
    }
  }

  lemma {:induction false} KeptNone(events: seq<LocationEvent>, results: seq<Result>)
    requires |results| == |events| && forall i | 0 <= i < |results| :: results[i].Some?
    ensures Kept(events, results) == []
  {
    if events != [] {
      KeptNone(events[..|events| - 1], results[..|events| - 1]);
    }
  }

  /** The device_locations table behind a pool of connections. How the database answers each
  write is given with the call; a write that raises has not landed. */
  class PostgresSink {
    var open: bool
    var table: seq<LocationEvent>

    constructor ()
      ensures !open && table == []
    {
      open, table := false, [];
    }

    /** Creating the pool can raise, and so can the query that looks for the schema: then the pool
    stays. Without the schema it is closed again. */
    method Start(created: bool, schema: Option<bool>) returns (started: bool)
      modifies this`open
      ensures started <==> created && schema == Some(true)
      ensures open == if created then schema != Some(false) else old(open)
    {
      if !created { return false; }
      open := true;
      if schema.None? { return false; }
      if !schema.value { open := false; }
      return open;
    }

    method Stop()
      modifies this`open
      ensures !open
    {
      if open {
        open := false;
      }
    }

    method Publish(event: LocationEvent, answer: Result) returns (result: Result)
      modifies this`table
      ensures result == if open then answer else Some(Other)
      ensures table == old(table) + Kept([event], [result])
    {
      KeptOne(event, if open then answer else Some(Other));
      if !open { return Some(Other); }
      if answer.None? {
        table := table + [event];
      }
      return answer;
    }

    /** The default of every sink: one at a time, a failure never stopping the rest. */
    method PublishEach(events: seq<LocationEvent>, answers: seq<Result>) returns (results: seq<Result>)
      requires |answers| == |events|
      modifies this`table
      ensures |results| == |events|
      ensures forall i | 0 <= i < |results| :: results[i] == if open then answers[i] else Some(Other)
      ensures table == old(table) + Kept(events, results)
    {
      results := [];
      for i := 0 to |events|
        invariant |results| == i
        invariant forall j | 0 <= j < i :: results[j] == if open then answers[j] else Some(Other)
        invariant table == old(table) + Kept(events[..i], results)
      {
        var result := Publish(events[i], answers[i]);
        KeptStep(events, i, results, result);
        results := results + [result];
      }
      assert events[..|events|] == events;
    }

    /** results[i] is None exactly when row i landed; the rows that landed are in input order. */
    method PublishMany(events: seq<LocationEvent>, copyAnswer: Result, answers: seq<Result>) returns (out: Outcome)
      requires |answers| == |events|
      modifies this`table
      ensures out.Raised? <==> events != [] && !open
      ensures out.Raised? ==> table == old(table)
      ensures out.Returned? ==> |out.results| == |events| && table == old(table) + Kept(events, out.results)
      ensures out.Returned? && |events| > 1 && copyAnswer.None? ==> table == old(table) + events
      ensures out.Returned? && |events| > 1 && copyAnswer.Some? && !IsRowError(copyAnswer.value) ==>
                table == old(table) && forall i | 0 <= i < |events| :: out.results[i] == copyAnswer
      ensures out.Returned? && (|events| == 1 || (copyAnswer.Some? && IsRowError(copyAnswer.value))) ==>
                out.results == answers
    {
      if events == [] { return Returned([]); }
      if !open { return Raised; }
      if |events| == 1 {
        var results := PublishEach(events, answers);
        assert results == answers;
        return Returned(results);
      }
      match copyAnswer
      case Some(e) =>
        if !IsRowError(e) {
          var results := seq(|events|, i => copyAnswer);
          KeptNone(events, results);
          return Returned(results);
        }
        var results := PublishEach(events, answers);
        assert results == answers;
        return Returned(results);
      case None =>
        table := table + events;
        var results := seq(|events|, i => None);
        KeptAll(events, results);
        return Returned(results);
    }
  }

  lemma KeptOne(event: LocationEvent, result: Result)
    ensures Kept([event], [result]) == if result.None? then [event] else []
  {
    assert [event][..0] == [] && [result][..0] == [];
    assert Kept([], []) == [];
  }

  lemma KeptStep(events: seq<LocationEvent>, i: nat, results: seq<Result>, result: Result)
    requires i < |events| && |results| == i
    ensures Kept(events[..i + 1], results + [result]) == Kept(events[..i], results) + Kept([events[i]], [result])
  {
    KeptOne(events[i], result);
    var es, rs := events[..i + 1], results + [result];
    assert es[..i] == events[..i] && rs[..i] == results;
  }
}
