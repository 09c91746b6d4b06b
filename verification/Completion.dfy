/** The one update that ends a command: device_commands rows and their outcomes. */
module Completion {
  import opened Basics

  datatype Status = Queued | Sent | Confirmed | Failed | Expired | Superseded

  datatype Row = Row(id: nat, deviceId: string, status: Status, reply: Option<string>, error: Option<string>)

  datatype Completion = Completion(id: nat, deviceId: string, ok: bool, reply: Option<string>, error: Option<string>)

  const NO_REPLY := "no_reply"

  /** Still waiting for the tracker's word. */
  predicate Open(row: Row) {
    row.status == Sent || (row.status == Failed && row.error == Some(NO_REPLY))
  }

  predicate Concerns(c: Completion, row: Row) {
    c.id == row.id && c.deviceId == row.deviceId
  }

  function Completed(row: Row, c: Completion): Row {
    if Concerns(c, row) && Open(row)
    then row.(status := if c.ok then Confirmed else Failed,
              reply := if c.reply.Some? then c.reply else row.reply, error := c.error)
    else row
  }

  class CommandTable {
    var rows: seq<Row>

    constructor (rows: seq<Row>)
      ensures this.rows == rows
    {
      this.rows := rows;
    }

    /** The guarded UPDATE. */
    method Complete(c: Completion)
      modifies this
      ensures |rows| == |old(rows)| && forall i | 0 <= i < |rows| :: rows[i] == Completed(old(rows)[i], c)
    {
      var updated := [];
      for i := 0 to |rows|
        invariant rows == old(rows) && |updated| == i
        invariant forall j | 0 <= j < i :: updated[j] == Completed(rows[j], c)
      {
        var row := rows[i];
        if row.id == c.id && row.deviceId == c.deviceId
           && (row.status == Sent || (row.status == Failed && row.error == Some(NO_REPLY)))
        {
          row := row.(status := if c.ok then Confirmed else Failed,
                      reply := if c.reply.Some? then c.reply else row.reply, error := c.error);
        }
        updated := updated + [row];
      }
      rows := updated;
    }
  }

  /** A row after completions landed in this order. */
  function Final(row: Row, landed: seq<Completion>): Row
    decreases landed
  {
    if landed == [] then row else Final(Completed(row, landed[0]), landed[1..])
  }

  /** A timer's report: no answer came. */
  predicate TimedOut(c: Completion) { !c.ok && c.error == Some(NO_REPLY) }

  /** What the gateway sends: only timers say no_reply, and they carry no text. */
  predicate FromGateway(c: Completion) { c.error == Some(NO_REPLY) ==> !c.ok && c.reply == None }

  /** The first completion of this row that is an answer, if any. */
  function FirstAnswer(row: Row, landed: seq<Completion>): Option<Completion> {
    if landed == [] then None
    else if Concerns(landed[0], row) && !TimedOut(landed[0]) then Some(landed[0])
    else FirstAnswer(row, landed[1..])
  }

  predicate AnyConcerns(row: Row, landed: seq<Completion>) {
    exists c | c in landed :: Concerns(c, row)
  }

  function Answered(row: Row, c: Completion): Row {
    row.(status := if c.ok then Confirmed else Failed,
         reply := if c.reply.Some? then c.reply else row.reply, error := c.error)
  }

  /** Confirmed, or failed for a reason, is for good. */
  lemma {:induction false} SettledForGood(row: Row, landed: seq<Completion>)
    requires !Open(row)
    ensures Final(row, landed) == row
  {
    if landed != [] {
      SettledForGood(row, landed[1..]);
    }
  }

  /** Confluence: whatever the order of timeouts, answers and strangers' completions, a sent
  command ends with the first answer; if there is none, as failed with no_reply once a timer
  has fired, and as sent before. */
  lemma {:induction false} FirstAnswerWins(row: Row, landed: seq<Completion>)
    requires Open(row) && forall c | c in landed :: FromGateway(c)
    ensures FirstAnswer(row, landed).Some? ==> Final(row, landed) == Answered(row, FirstAnswer(row, landed).value)
    ensures FirstAnswer(row, landed).None? ==>
              Final(row, landed) == if AnyConcerns(row, landed)
                                    then row.(status := Failed, error := Some(NO_REPLY))
                                    else row
    decreases landed
  {
    if landed != [] {
      var c, rest := landed[0], landed[1..];
      assert c in landed && forall x | x in rest :: x in landed;
      assert forall x | x in landed :: x == c || x in rest;
      var next := Completed(row, c);
      if Concerns(c, row) && !TimedOut(c) {
        SettledForGood(next, rest);
      } else {
        FirstAnswerWins(next, rest);
        SameAnswer(row, next, rest);
        assert AnyConcerns(row, landed) <==> Concerns(c, row) || AnyConcerns(next, rest);
      }
    }
  }

  lemma {:induction false} SameAnswer(a: Row, b: Row, landed: seq<Completion>)
    requires a.id == b.id && a.deviceId == b.deviceId
    ensures FirstAnswer(a, landed) == FirstAnswer(b, landed)
  {
    if landed != [] {
      SameAnswer(a, b, landed[1..]);
    }
  }

  lemma {:induction false} FirstAnswerAppend(row: Row, a: seq<Completion>, b: seq<Completion>)
    ensures FirstAnswer(row, a + b) == if FirstAnswer(row, a).Some? then FirstAnswer(row, a) else FirstAnswer(row, b)
  {
    if a == [] {
      assert a + b == b;
    } else {
      assert (a + b)[1..] == a[1..] + b;
      FirstAnswerAppend(row, a[1..], b);
    }
  }

  /** A timer that fires at any moment makes no difference to a command that is answered:
  before the answer or after it, the row ends with the answer's outcome. */
  lemma TimeoutCommutes(row: Row, before: seq<Completion>, timeout: Completion, after: seq<Completion>)
    requires Open(row) && TimedOut(timeout)
    requires forall c | c in before + [timeout] + after :: FromGateway(c)
    requires FirstAnswer(row, before + after).Some?
    ensures Final(row, before + [timeout] + after) == Final(row, before + after)
  {
    assert forall c | c in before + after :: c in before + [timeout] + after;
    FirstAnswerWins(row, before + after);
    FirstAnswerWins(row, before + [timeout] + after);
    FirstAnswerAppend(row, before, after);
    FirstAnswerAppend(row, before + [timeout], after);
    FirstAnswerAppend(row, before, [timeout]);
    assert FirstAnswer(row, [timeout]) == None by { assert [timeout][1..] == []; }
  }
}
