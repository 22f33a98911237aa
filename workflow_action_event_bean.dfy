/**
 * `WorkflowActionEventBean`: the binary `Writable` form of an event, and the store contract its
 * named queries define over the table of stored events.
 *
 * A `DataOutput`/`DataInput` stream is modelled as a sequence of tokens: a string written by
 * `WritableUtils.writeStr` (which can be null) or a `long`. Reading a token of the other kind,
 * or past the end, fails like the `IOException` the stream would raise.
 */
module BeanStore {
  import opened Wrappers
  import opened JavaStrings
  import opened Events
  import opened JsonBeans

  datatype Token = Str(text: Option<string>) | Long(n: Int64)

  /** `writeLong` of a null timestamp writes this value. */
  const NullTimestamp: Int64 := -1

  /** The `long` written for a timestamp. */
  function TimestampLong(timestamp: Option<Date>): Int64 {
    if timestamp.Some? then timestamp.value.millis else NullTimestamp
  }

  /** What `write` emits: the action id, the timestamp's millis, the type, the message. */
  function WriteTokens(v: EventValue): (ts: seq<Token>)
    ensures |ts| == 4
  {
    [Str(v.actionId), Long(TimestampLong(v.timestamp)), Str(v.eventType), Str(v.message)]
  }

  class DataOutput {
    var tokens: seq<Token>

    constructor ()
      ensures tokens == []
    {
      tokens := [];
    }

    /** `WritableUtils.writeStr` */
    method WriteStr(s: Option<string>)
      modifies this
      ensures tokens == old(tokens) + [Str(s)]
    {
      tokens := tokens + [Str(s)];
    }

    method WriteLong(n: Int64)
      modifies this
      ensures tokens == old(tokens) + [Long(n)]
    {
      tokens := tokens + [Long(n)];
    }
  }

  class DataInput {
    /** What is still to be read. */
    var rest: seq<Token>

    constructor (tokens: seq<Token>)
      ensures rest == tokens
    {
      rest := tokens;
    }

    /** `WritableUtils.readStr`: fails unless a string comes next. */
    method ReadStr() returns (r: Option<Option<string>>)
      modifies this
      ensures r.Some? <==> old(rest) != [] && old(rest)[0].Str?
      ensures r.Some? ==> r.value == old(rest)[0].text && rest == old(rest)[1..]
      ensures r.None? ==> rest == old(rest)
    {
      if rest != [] && rest[0].Str? {
        r := Some(rest[0].text);
        rest := rest[1..];
      } else {
        r := None;
      }
    }

    /** `readLong`: fails unless a `long` comes next. */
    method ReadLong() returns (r: Option<Int64>)
      modifies this
      ensures r.Some? <==> old(rest) != [] && old(rest)[0].Long?
      ensures r.Some? ==> r.value == old(rest)[0].n && rest == old(rest)[1..]
      ensures r.None? ==> rest == old(rest)
    {
      if rest != [] && rest[0].Long? {
        r := Some(rest[0].n);
        rest := rest[1..];
      } else {
        r := None;
      }
    }
  }

  /**
   * What `readFields` leaves behind: the bean's fields, the unread input, and whether every
   * read succeeded. The fields are set one at a time, so a failed read keeps the ones set before it.
   */
  datatype ReadOutcome = ReadOutcome(value: EventValue, rest: seq<Token>, ok: bool)

  /** `readFields` read as a function of the bean's fields and the input. */
  function ReadFields(prior: EventValue, input: seq<Token>): ReadOutcome {
    if input == [] || !input[0].Str? then ReadOutcome(prior, input, false)
    else
      var v1 := prior.(actionId := input[0].text);
      var in1 := input[1..];
      if in1 == [] || !in1[0].Long? then ReadOutcome(v1, in1, false)
      else
        var d := in1[0].n;
        var v2 := if d != NullTimestamp then v1.(timestamp := Some(Date(d))) else v1;
        var in2 := in1[1..];
        if in2 == [] || !in2[0].Str? then ReadOutcome(v2, in2, false)
        else
          var v3 := v2.(eventType := in2[0].text);
          var in3 := in2[1..];
          if in3 == [] || !in3[0].Str? then ReadOutcome(v3, in3, false)
          else ReadOutcome(v3.(message := in3[0].text), in3[1..], true)
  }

  /** `write` */
  method Write(bean: JsonWorkflowActionEvent, dataOutput: DataOutput)
    modifies dataOutput
    ensures dataOutput.tokens == old(dataOutput.tokens) + WriteTokens(bean.Value())
  {
    dataOutput.WriteStr(bean.actionId);
    dataOutput.WriteLong(if bean.timestamp.Some? then bean.timestamp.value.millis else NullTimestamp);
    dataOutput.WriteStr(bean.eventType);
    dataOutput.WriteStr(bean.message);
  }

  /** `readFields`: a failed read stops there, with the fields read so far already set. */
  method ReadFieldsInto(bean: JsonWorkflowActionEvent, dataInput: DataInput) returns (ok: bool)
    modifies bean, dataInput
    ensures ReadFields(old(bean.Value()), old(dataInput.rest)) == ReadOutcome(bean.Value(), dataInput.rest, ok)
  {
    var actionId := dataInput.ReadStr();
    if actionId.None? {
      return false;
    }
    bean.SetActionId(actionId.value);
    var d := dataInput.ReadLong();
    if d.None? {
      return false;
    }
    if d.value != NullTimestamp {
      bean.SetTimestamp(Some(Date(d.value)));
    }
    var eventType := dataInput.ReadStr();
    if eventType.None? {
      return false;
    }
    bean.SetType(eventType.value);
    var message := dataInput.ReadStr();
    if message.None? {
      return false;
    }
    bean.SetMessage(message.value);
    ok := true;
  }

  /** The fields of a newly constructed bean. */
  const Blank: EventValue := EventValue(None, None, None, None)

  /**
   * Reading what `write` emitted into a new bean gives back all four fields and stops right
   * after them, whenever the timestamp is null or its millis are not -1.
   */
  lemma WriteReadRoundTrip(v: EventValue, rest: seq<Token>)
    requires v.timestamp.None? || v.timestamp.value.millis != NullTimestamp
    ensures ReadFields(Blank, WriteTokens(v) + rest) == ReadOutcome(v, rest, true)
  {
    var input := WriteTokens(v) + rest;
    assert input[1..][1..][1..][1..] == rest;
  }

  /** A timestamp of exactly -1 ms is written just like a null timestamp. */
  lemma MinusOneWrittenAsNull(v: EventValue)
    ensures WriteTokens(v.(timestamp := Some(Date(-1)))) == WriteTokens(v.(timestamp := None))
  {
  }

  /** Reading -1 keeps whatever timestamp the bean had, rather than setting it to null. */
  lemma MinusOneKeepsTimestamp(prior: EventValue, actionId: Option<string>, eventType: Option<string>,
                               message: Option<string>)
    ensures ReadFields(prior, [Str(actionId), Long(NullTimestamp), Str(eventType), Str(message)])
         == ReadOutcome(EventValue(actionId, eventType, message, prior.timestamp), [], true)
  {
  }

  /** So an event stamped -1 ms comes back from the round trip with a null timestamp. */
  lemma MinusOneLostInRoundTrip(v: EventValue)
    requires v.timestamp == Some(Date(-1))
    ensures ReadFields(Blank, WriteTokens(v)).value == v.(timestamp := None)
  {
  }

  // ---------------------------------------------------------------------------
  // The store contract of the named queries
  // ---------------------------------------------------------------------------

  /** `w.actionId = :actionId`; a null action id equals nothing. */
  predicate OfAction(row: EventValue, actionId: string) {
    row.actionId == Some(actionId)
  }

  /** The rows of one action, in table order. */
  function RowsFor(rows: seq<EventValue>, actionId: string): (r: seq<EventValue>)
    ensures |r| <= |rows|
    ensures forall k :: 0 <= k < |r| ==> OfAction(r[k], actionId)
  {
    if rows == [] then []
    else RowsFor(rows[..|rows| - 1], actionId) + (if OfAction(rows[|rows| - 1], actionId) then [rows[|rows| - 1]] else [])
  }

  /** The rows that are not of the action, in table order. */
  function RowsNotFor(rows: seq<EventValue>, actionId: string): (r: seq<EventValue>)
    ensures |r| <= |rows|
    ensures forall k :: 0 <= k < |r| ==> !OfAction(r[k], actionId)
  {
    if rows == [] then []
    else RowsNotFor(rows[..|rows| - 1], actionId) + (if OfAction(rows[|rows| - 1], actionId) then [] else [rows[|rows| - 1]])
  }

  /** `order by w.timestamp desc`: `a` may come before `b`. A null timestamp sorts above every date. */
  predicate NotBefore(a: Option<Date>, b: Option<Date>) {
    match (a, b)
    case (None, _) => true
    case (Some(_), None) => false
    case (Some(x), Some(y)) => x.millis >= y.millis
  }

  predicate SortedDesc(rows: seq<EventValue>) {
    forall i, j :: 0 <= i < j < |rows| ==> NotBefore(rows[i].timestamp, rows[j].timestamp)
  }

  /** Inserts a row into a descending list after every row that is not below it. */
  function InsertDesc(x: EventValue, sorted: seq<EventValue>): (r: seq<EventValue>)
    requires SortedDesc(sorted)
    ensures SortedDesc(r)
    ensures multiset(r) == multiset(sorted) + multiset{x}
  {
    if sorted == [] then [x]
    else if NotBefore(sorted[0].timestamp, x.timestamp) then
      var tail := InsertDesc(x, sorted[1..]);
      UpperBoundOfInsert(sorted[0], x, sorted[1..], tail);
      assert sorted == [sorted[0]] + sorted[1..];
      [sorted[0]] + tail
    else
      [x] + sorted
  }

  /** A row not below the rows of a list and not below `x` is not below any row of the list with `x` added. */
  lemma UpperBoundOfInsert(h: EventValue, x: EventValue, rest: seq<EventValue>, tail: seq<EventValue>)
    requires multiset(tail) == multiset(rest) + multiset{x}
    requires forall k :: 0 <= k < |rest| ==> NotBefore(h.timestamp, rest[k].timestamp)
    requires NotBefore(h.timestamp, x.timestamp)
    ensures forall k :: 0 <= k < |tail| ==> NotBefore(h.timestamp, tail[k].timestamp)
  {
    forall k | 0 <= k < |tail|
      ensures NotBefore(h.timestamp, tail[k].timestamp)
    {
      var y := tail[k];
      assert y in multiset(tail);
      if y != x {
        assert y in multiset(rest);
        var j :| 0 <= j < |rest| && rest[j] == y;
      }
    }
  }

  /** The table of stored events. */
  class EventStore {
    var rows: seq<EventValue>

    constructor ()
      ensures rows == []
    {
      rows := [];
    }

    /** Stores a batch (the engine's `insertActionEventList`), after the rows already there. */
    method InsertAll(events: seq<EventValue>)
      modifies this
      ensures rows == old(rows) + events
    {
      rows := rows + events;
    }

    /** `DELETE_EVENTS_FOR_ACTION` */
    method DeleteForAction(actionId: string)
      modifies this
      ensures rows == RowsNotFor(old(rows), actionId)
    {
      var kept := [];
      for i := 0 to |rows|
        invariant kept == RowsNotFor(rows[..i], actionId)
      {
        assert rows[..i + 1][..i] == rows[..i];
        if !OfAction(rows[i], actionId) {
          kept := kept + [rows[i]];
        }
      }
      assert rows[..|rows|] == rows;
      rows := kept;
    }

    /** `GET_EVENTS_FOR_ACTION`: the rows of the action and no others, latest first. */
    method ListForAction(actionId: string) returns (r: seq<EventValue>)
      ensures multiset(r) == multiset(RowsFor(rows, actionId))
      ensures SortedDesc(r)
      ensures |r| == |RowsFor(rows, actionId)|
    {
      r := [];
      for i := 0 to |rows|
        invariant SortedDesc(r)
        invariant multiset(r) == multiset(RowsFor(rows[..i], actionId))
      {
        assert rows[..i + 1][..i] == rows[..i];
        if OfAction(rows[i], actionId) {
          r := InsertDesc(rows[i], r);
        }
      }
      assert rows[..|rows|] == rows;
      assert |multiset(r)| == |multiset(RowsFor(rows, actionId))|;
    }

    /** `GET_EVENT_COUNT_FOR_ACTION` */
    method CountForAction(actionId: string) returns (n: nat)
      ensures n == |RowsFor(rows, actionId)|
    {
      n := 0;
      for i := 0 to |rows|
        invariant n == |RowsFor(rows[..i], actionId)|
      {
        assert rows[..i + 1][..i] == rows[..i];
        if OfAction(rows[i], actionId) {
          n := n + 1;
        }
      }
      assert rows[..|rows|] == rows;
    }

    /** `GET_EVENT_COLUMNS`: every row, latest first. */
    method ListEventColumns() returns (r: seq<EventValue>)
      ensures multiset(r) == multiset(rows)
      ensures SortedDesc(r)
    {
      r := [];
      for i := 0 to |rows|
        invariant SortedDesc(r)
        invariant multiset(r) == multiset(rows[..i])
      {
        assert rows[..i + 1] == rows[..i] + [rows[i]];
        r := InsertDesc(rows[i], r);
      }
      assert rows[..|rows|] == rows;
    }
  }

  /** After deleting an action's events none of its rows are left. */
  lemma {:induction false} DeleteRemovesAction(rows: seq<EventValue>, actionId: string)
    ensures RowsFor(RowsNotFor(rows, actionId), actionId) == []
  {
    var kept := RowsNotFor(rows, actionId);
    RowsForNone(kept, actionId);
  }

  lemma {:induction false} RowsForNone(rows: seq<EventValue>, actionId: string)
    requires forall k :: 0 <= k < |rows| ==> !OfAction(rows[k], actionId)
    ensures RowsFor(rows, actionId) == []
    decreases |rows|
  {
    if rows != [] {
      RowsForNone(rows[..|rows| - 1], actionId);
    }
  }

  /** Deleting an action's events leaves the rows of every other action as they were, in order. */
  lemma {:induction false} DeleteKeepsOthers(rows: seq<EventValue>, actionId: string, other: string)
    requires other != actionId
    ensures RowsFor(RowsNotFor(rows, actionId), other) == RowsFor(rows, other)
    decreases |rows|
  {
    if rows != [] {
      var init := rows[..|rows| - 1];
      var last := rows[|rows| - 1];
      DeleteKeepsOthers(init, actionId, other);
      if !OfAction(last, actionId) {
        var kept := RowsNotFor(init, actionId) + [last];
        assert kept[..|kept| - 1] == RowsNotFor(init, actionId);
      } else {
        assert !OfAction(last, other);
        assert RowsFor(rows, other) == RowsFor(init, other) + [] == RowsFor(init, other);
        assert RowsNotFor(rows, actionId) == RowsNotFor(init, actionId) + [] == RowsNotFor(init, actionId);
      }
    }
  }

  /** The rows of an action after a batch is stored: the earlier ones, then the batch's. */
  lemma {:induction false} RowsForAppend(rows: seq<EventValue>, events: seq<EventValue>, actionId: string)
    ensures RowsFor(rows + events, actionId) == RowsFor(rows, actionId) + RowsFor(events, actionId)
    decreases |events|
  {
    if events == [] {
      assert rows + events == rows;
    } else {
      var init := events[..|events| - 1];
      RowsForAppend(rows, init, actionId);
      assert (rows + events)[..|rows + events| - 1] == rows + init;
    }
  }
  lemma {:induction false} RowsForAll(rows: seq<EventValue>, actionId: string)
    requires forall k :: 0 <= k < |rows| ==> OfAction(rows[k], actionId)
    ensures RowsFor(rows, actionId) == rows
    decreases |rows|
  {
    if rows != [] {
      RowsForAll(rows[..|rows| - 1], actionId);
      assert rows[..|rows| - 1] + [rows[|rows| - 1]] == rows;
    }
  }

  /**
   * Storing N events of one action and then M events of another: the first action's rows are
   * exactly its N events, and the other action's rows are not among them.
   */
  lemma TwoBatchesOfTwoActions(first: seq<EventValue>, second: seq<EventValue>, a: string, b: string)
    requires a != b
    requires forall k :: 0 <= k < |first| ==> OfAction(first[k], a)
    requires forall k :: 0 <= k < |second| ==> OfAction(second[k], b)
    ensures RowsFor([] + first + second, a) == first
    ensures RowsFor([] + first + second, b) == second
  {
    assert [] + first == first;
    RowsForAppend(first, second, a);
    RowsForAll(first, a);
    RowsForNone(second, a);
    RowsForAppend(first, second, b);
    RowsForAll(second, b);
    RowsForNone(first, b);
  }
}
