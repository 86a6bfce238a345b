/** What the transport sees of a client's operations: executions under operation ids of their own. */
module WireLogs {
  datatype Command = ErrorQuery | Other(text: string)

  /** One trip through the client's choke point: it always uses up an operation id, and may fail before or
      after sending. */
  datatype Execution = Unsent | Sent(command: Command, replies: nat)

  /** A write, or a read, at the transport. */
  datatype Event = Wrote(id: nat, command: Command) | Got(id: nat)

  function EventsOf(e: Execution, id: nat): seq<Event> {
    match e
    case Unsent => []
    case Sent(command, replies) => [Wrote(id, command)] + seq(replies, _ => Got(id))
  }

  /** The events of consecutive executions when `used` ids have been given out before them. */
  function Events(executions: seq<Execution>, used: nat): seq<Event> {
    if executions == [] then [] else EventsOf(executions[0], used + 1) + Events(executions[1..], used + 1)
  }

  lemma {:induction false} EventsAppend(a: seq<Execution>, b: seq<Execution>, used: nat)
    ensures Events(a + b, used) == Events(a, used) + Events(b, used + |a|)
    decreases |a|
  {
    hide EventsOf;
    if a == [] {
      assert a + b == b;
    } else {
      assert (a + b)[1..] == a[1..] + b;
      EventsAppend(a[1..], b, used + 1);
    }
  }

  lemma EventsOfOne(e: Execution, used: nat)
    ensures Events([e], used) == EventsOf(e, used + 1)
  {
    hide EventsOf;
    assert [e][1..] == [];
  }

  /** Ids grow along the log: every event has an id of its own run, never below an earlier one, and each write
      starts a new id. */
  lemma {:induction false} IdsIncrease(executions: seq<Execution>, used: nat)
    ensures forall i | 0 <= i < |Events(executions, used)| ::
              used < Events(executions, used)[i].id <= used + |executions|
    ensures forall i, j | 0 <= i < j < |Events(executions, used)| ::
              && Events(executions, used)[i].id <= Events(executions, used)[j].id
              && (Events(executions, used)[j].Wrote? ==>
                  Events(executions, used)[i].id < Events(executions, used)[j].id)
    decreases |executions|
  {
    if executions != [] {
      IdsIncrease(executions[1..], used + 1);
      var head := EventsOf(executions[0], used + 1);
      assert forall i | 0 <= i < |head| :: head[i].id == used + 1;
    }
  }

  /** What one operation comes to: its own execution and those of its error check. */
  type Transcript = seq<Execution>

  predicate ErrorQueries(t: Transcript) {
    forall i | 0 <= i < |t| ::
      t[i] == Sent(ErrorQuery, 1) || (i == |t| - 1 && (t[i].Unsent? || t[i] == Sent(ErrorQuery, 0)))
  }

  predicate AllAnswered(t: Transcript) {
    forall i | 0 <= i < |t| :: t[i] == Sent(ErrorQuery, 1)
  }

  /** A whole operation: one execution of the command, and, only if that was complete, the queries of its own check. */
  predicate Whole(t: Transcript, command: Command, least: nat, most: nat) {
    && t != []
    && (t[0].Sent? ==> t[0].command == command && t[0].replies <= most)
    && (|t| > 1 ==> t[0].Sent? && t[0].replies >= least)
    && ErrorQueries(t[1..])
  }

  function Flatten(transcripts: seq<Transcript>): seq<Execution> {
    if transcripts == [] then [] else transcripts[0] + Flatten(transcripts[1..])
  }

  lemma {:induction false} FlattenAppend(a: seq<Transcript>, b: seq<Transcript>)
    ensures Flatten(a + b) == Flatten(a) + Flatten(b)
    decreases |a|
  {
    if a == [] {
      assert a + b == b;
    } else {
      assert (a + b)[1..] == a[1..] + b;
      FlattenAppend(a[1..], b);
    }
  }

  /** Of operations one after another, the events of each, with those of its own error check, stand together. */
  lemma OperationsStandTogether(transcripts: seq<Transcript>, j: nat, used: nat)
    requires j < |transcripts|
    ensures var before, after := Flatten(transcripts[..j]), Flatten(transcripts[j + 1..]);
            Events(Flatten(transcripts), used)
            == Events(before, used) + Events(transcripts[j], used + |before|)
               + Events(after, used + |before| + |transcripts[j]|)
  {
    hide Events, Flatten;
    FlattenAround(transcripts, j);
    var before, after := Flatten(transcripts[..j]), Flatten(transcripts[j + 1..]);
    EventsAppend(before, transcripts[j] + after, used);
    EventsAppend(transcripts[j], after, used + |before|);
    Associate(Events(before, used), Events(transcripts[j], used + |before|),
        Events(after, used + |before| + |transcripts[j]|));
  }

  lemma FlattenAround(transcripts: seq<Transcript>, j: nat)
    requires j < |transcripts|
    ensures Flatten(transcripts) == Flatten(transcripts[..j]) + (transcripts[j] + Flatten(transcripts[j + 1..]))
  {
    var rest := transcripts[j..];
    assert transcripts == transcripts[..j] + rest && rest[0] == transcripts[j] && rest[1..] == transcripts[j + 1..];
    FlattenAppend(transcripts[..j], rest);
  }

  lemma Associate<T>(a: seq<T>, b: seq<T>, c: seq<T>)
    ensures a + (b + c) == a + b + c
  {}
}
