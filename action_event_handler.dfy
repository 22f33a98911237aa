/**
 * The producer side of the pipeline: the event object an action fills in, the
 * queue it is put on, the sender that drains the queue into one HTTP POST per
 * cycle (putting the batch back when the POST fails), and the handler that
 * wires them together from the process's system properties.
 *
 * The sender thread's scheduling is not modelled: one cycle of its loop and the
 * final flush are methods, and what the callback server answers is an input.
 */
module ActionEvents {
  import opened Wrappers
  import opened JavaStrings
  import opened Events
  import opened WireCodec

  const ActionIdProperty: string := "oozie.action.id"
  const CallbackUrlProperty: string := "oozie.action.event.callback.url"
  const SendIntervalProperty: string := "oozie.action.event.send.interval"
  /** Seconds between two sender cycles unless the interval property says otherwise. */
  const DefaultSendInterval: Int32 := 10
  const HttpOk: int := 200
  /** The prefix of the diagnostic the final flush writes to standard error (spelling as in the program). */
  const UnsentEventsNotice: string := "the follwing event could not be sent to the Oozie server:\n"

  /** The JVM's system properties. */
  type SystemProperties = map<string, string>

  /** `System.getProperty(key)` */
  function GetProperty(props: SystemProperties, key: string): Option<string> {
    if key in props then Some(props[key]) else None
  }

  /** `isEventHandlingEnabled()`: the pipeline runs only when a callback URL is configured. */
  predicate IsEventHandlingEnabled(props: SystemProperties)
    ensures IsEventHandlingEnabled(props) <==> CallbackUrlProperty in props
  {
    GetProperty(props, CallbackUrlProperty).Some?
  }

  /**
   * The constructor reads the interval property only when a callback URL is set, and then
   * `Integer.parseInt` throws unless it is an int; its callers supply well-formed properties.
   */
  predicate IntervalParses(props: SystemProperties) {
    !IsEventHandlingEnabled(props)
    || GetProperty(props, SendIntervalProperty).None?
    || ParseInt(GetProperty(props, SendIntervalProperty).value).Some?
  }

  /** The configured send interval in seconds. */
  function SendIntervalSeconds(props: SystemProperties): Int32
    requires IntervalParses(props)
    requires IsEventHandlingEnabled(props)
  {
    match GetProperty(props, SendIntervalProperty)
    case None => DefaultSendInterval
    case Some(text) => ParseInt(text).value
  }

  /** `interval * 1000` evaluated in Java `int` arithmetic. */
  function IntervalMillis(seconds: Int32): (ms: Int32)
    ensures -2147483 <= seconds <= 2147483 ==> ms == seconds * 1000
  {
    WrapInt32(seconds * 1000)
  }

  /** Without the interval property the sender sleeps 10000 ms per cycle. */
  lemma DefaultIntervalMillis(props: SystemProperties)
    requires IsEventHandlingEnabled(props) && SendIntervalProperty !in props
    ensures IntervalMillis(SendIntervalSeconds(props)) == 10000
  {
  }

  /** An interval above 2147483 seconds overflows the `int` product and yields a negative sleep time. */
  lemma IntervalMillisOverflows()
    ensures IntervalMillis(2147484) == -2147483296
  {
  }

  /** `LiteWorkflowActionEvent`: the event an action fills in before handing it to the handler. */
  class LiteWorkflowActionEvent {
    var actionId: Option<string>
    var eventType: Option<string>
    var message: Option<string>
    var timestamp: Option<Date>

    function Value(): EventValue
      reads this
    {
      EventValue(actionId, eventType, message, timestamp)
    }

    /** A new event of type `other` with no message, stamped with the clock reading `now`. */
    constructor (actionId: Option<string>, now: Date)
      ensures Value() == EventValue(actionId, Some(TypeOther), None, Some(now))
    {
      this.actionId := actionId;
      this.eventType := Some(TypeOther);
      this.message := None;
      this.timestamp := Some(now);
    }

    method SetActionId(actionId: Option<string>)
      modifies this
      ensures Value() == old(Value()).(actionId := actionId)
    {
      this.actionId := actionId;
    }

    method SetMessage(message: Option<string>)
      modifies this
      ensures Value() == old(Value()).(message := message)
    {
      this.message := message;
    }

    method SetTimestamp(timestamp: Option<Date>)
      modifies this
      ensures Value() == old(Value()).(timestamp := timestamp)
    {
      this.timestamp := timestamp;
    }

    method SetType(eventType: Option<string>)
      modifies this
      ensures Value() == old(Value()).(eventType := eventType)
    {
      this.eventType := eventType;
    }
  }

  /** The field values of a list of events, in order. */
  function Values(es: seq<LiteWorkflowActionEvent>): (vs: seq<EventValue>)
    reads es
    ensures |vs| == |es|
    ensures forall i :: 0 <= i < |es| ==> vs[i] == es[i].Value()
  {
    if es == [] then [] else Values(es[..|es| - 1]) + [es[|es| - 1].Value()]
  }
  /** Events whose fields were not written keep their values. */
  twostate lemma {:induction false} ValuesUnchanged(es: seq<LiteWorkflowActionEvent>)
    requires forall i :: 0 <= i < |es| ==> unchanged(es[i])
    ensures Values(es) == old(Values(es))
    decreases |es|
  {
    if es != [] {
      ValuesUnchanged(es[..|es| - 1]);
    }
  }


  /** The unbounded FIFO queue shared by the handler and its sender. */
  class EventQueue {
    var items: seq<LiteWorkflowActionEvent>

    constructor ()
      ensures items == []
    {
      items := [];
    }

    function Size(): nat
      reads this
    {
      |items|
    }

    /** `add`: appends at the tail. */
    method Add(e: LiteWorkflowActionEvent)
      modifies this
      ensures items == old(items) + [e]
    {
      items := items + [e];
    }

    /** Adds each event of the list at the tail, in list order. */
    method AddAll(es: seq<LiteWorkflowActionEvent>)
      modifies this
      ensures items == old(items) + es
    {
      for i := 0 to |es|
        invariant items == old(items) + es[..i]
      {
        Add(es[i]);
        assert es[..i + 1] == es[..i] + [es[i]];
      }
      assert es[..|es|] == es;
    }

    /** `poll`: removes and returns the head, or returns null when the queue is empty. */
    method Poll() returns (e: LiteWorkflowActionEvent?)
      modifies this
      ensures old(items) == [] ==> e == null && items == []
      ensures old(items) != [] ==> e == old(items)[0] && items == old(items)[1..]
    {
      if items == [] {
        e := null;
      } else {
        e := items[0];
        items := items[1..];
      }
    }
  }

  // ---------------------------------------------------------------------------
  // Serialization: the StringBuffer the program appends to is threaded through as a value
  // ---------------------------------------------------------------------------

  /** `writeJSONSafe`: appends the escaped value, or nothing for null. */
  method WriteJSONSafe(buf: string, value: Option<string>) returns (out: string)
    ensures out == buf + EscapeOpt(value)
  {
    out := buf;
    if value.Some? {
      var s := value.value;
      for i := 0 to |s|
        invariant out == buf + Escape(s[..i])
      {
        var c := s[i];
        EscapePrefixStep(s, i);
        AppendAssoc3(buf, Escape(s[..i]), EscapeChar(c));
        if c == '\\' {
          out := out + "\\\\";
        } else if c == '"' {
          out := out + "\\\"";
        } else if c == '/' {
          out := out + "\\/";
        } else if c == Backspace {
          out := out + "\\b";
        } else if c == FormFeed {
          out := out + "\\f";
        } else if c == LineFeed {
          out := out + "\\n";
        } else if c == CarriageReturn {
          out := out + "\\r";
        } else if c == Tab {
          out := out + "\\t";
        } else {
          out := out + [c];
        }
      }
      assert s[..|s|] == s;
    }
  }

  /** `formatDateRfc822`: null for a null date. */
  function FormatDateRfc822(date: Option<Date>, formatDate: DateFormatter): Option<string> {
    match date
    case Some(d) => Some(formatDate(d))
    case None => None
  }

  /** `StringBuffer.append(String)`: a null string appends the text `null`. */
  function AppendString(buf: string, s: Option<string>): string {
    buf + s.GetOr("null")
  }

  /** `serializeEventAsString`: appends one event as a JSON object, keys in the order type, actionId, timestamp, message. */
  method SerializeEventAsString(buf: string, event: LiteWorkflowActionEvent, formatDate: DateFormatter)
    returns (out: string)
    ensures out == buf + EventText(event.Value(), formatDate)
  {
    ghost var e := event.Value();
    out := buf + "{\"type\":\"";
    out := WriteJSONSafe(out, event.eventType);
    out := out + "\",\"actionId\":\"";
    out := WriteJSONSafe(out, event.actionId);
    out := out + "\",\"timestamp\":\"";
    out := AppendString(out, FormatDateRfc822(event.timestamp, formatDate));
    out := out + "\",\"message\":\"";
    out := WriteJSONSafe(out, event.message);
    out := out + "\"}";
    AppendEventParts(buf, "{\"type\":\"", EscapeOpt(e.eventType), "\",\"actionId\":\"", EscapeOpt(e.actionId),
                     "\",\"timestamp\":\"", TimestampText(e.timestamp, formatDate), "\",\"message\":\"",
                     EscapeOpt(e.message), "\"}");
  }

  /** Appending the nine pieces of an event one by one appends the whole event text. */
  lemma AppendEventParts(buf: string, k1: string, a: string, k2: string, b: string, k3: string, c: string,
                         k4: string, d: string, k5: string)
    ensures buf + k1 + a + k2 + b + k3 + c + k4 + d + k5 == buf + (k1 + a + k2 + b + k3 + c + k4 + d + k5)
  {
  }

  /** `serializeEventListAsString`: the events as a JSON array, in list order. */
  method SerializeEventListAsString(eventList: seq<LiteWorkflowActionEvent>, formatDate: DateFormatter)
    returns (text: string)
    ensures text == EventListText(Values(eventList), formatDate)
  {
    ghost var texts := EventTexts(Values(eventList), formatDate);
    var strBuf := "";
    var first := true;
    strBuf := strBuf + "[";
    for i := 0 to |eventList|
      invariant first <==> i == 0
      invariant strBuf == "[" + JoinWith(',', texts[..i])
    {
      ElementText(eventList, formatDate, i);
      strBuf, first := AppendListElement(strBuf, first, eventList[i], formatDate);
      BracketedJoinStep(texts, i);
    }
    strBuf := strBuf + "]";
    assert texts[..|texts|] == texts;
    text := strBuf;
  }

  /** The text of the `i`-th element of a batch is that event's object. */
  lemma ElementText(eventList: seq<LiteWorkflowActionEvent>, formatDate: DateFormatter, i: nat)
    requires i < |eventList|
    ensures EventTexts(Values(eventList), formatDate)[i] == EventText(eventList[i].Value(), formatDate)
  {
    EventTextsAt(Values(eventList), formatDate, i);
  }

  /** One iteration of the list loop: a comma unless this is the first element, then the element's object. */
  method AppendListElement(strBuf: string, first: bool, event: LiteWorkflowActionEvent, formatDate: DateFormatter)
    returns (out: string, first': bool)
    ensures !first'
    ensures out == strBuf + (if first then "" else ",") + EventText(event.Value(), formatDate)
  {
    out, first' := strBuf, first;
    if !first' {
      out := out + ",";
    } else {
      first' := false;
      AppendNil(strBuf);
    }
    out := SerializeEventAsString(out, event, formatDate);
  }

  /** One more part of a bracketed join: it follows the previous ones, after a comma unless it is the first. */
  lemma BracketedJoinStep(texts: seq<string>, i: nat)
    requires i < |texts|
    ensures "[" + JoinWith(',', texts[..i + 1])
         == "[" + JoinWith(',', texts[..i]) + (if i == 0 then "" else ",") + texts[i]
  {
    assert texts[..i + 1] == texts[..i] + [texts[i]];
    JoinWithSnoc(',', texts[..i], texts[i]);
    AppendAssoc4("[", JoinWith(',', texts[..i]), if i == 0 then "" else ",", texts[i]);
  }

  // ---------------------------------------------------------------------------
  // Sending
  // ---------------------------------------------------------------------------

  /**
   * What the callback server does with one POST: the connection or the write fails, or a
   * status code comes back together with the response body (None when reading it fails).
   */
  datatype Response = ConnectionFailed | Responded(code: int, body: Option<string>)

  /** The IOException a failed send throws. */
  datatype SendError = IoError | UnexpectedResponseCode(code: int, detail: string)

  datatype SendOutcome = Sent | NotSent(error: SendError)

  /** The server accepted the batch. */
  predicate Accepted(response: Response) {
    response.Responded? && response.code == HttpOk
  }

  /** `EventSender`: the background task that drains the queue and posts each batch. */
  class EventSender {
    const eventQueue: EventQueue
    const callbackUrl: string
    /** Milliseconds slept between two cycles. */
    const interval: Int32
    const formatDate: DateFormatter
    var stopSending: bool

    constructor (eventQueue: EventQueue, callbackUrl: string, interval: Int32, formatDate: DateFormatter)
      ensures this.eventQueue == eventQueue && this.callbackUrl == callbackUrl
      ensures this.interval == interval && this.formatDate == formatDate
      ensures !stopSending
    {
      this.eventQueue := eventQueue;
      this.callbackUrl := callbackUrl;
      this.interval := interval;
      this.formatDate := formatDate;
      this.stopSending := false;
    }

    /** `stopSending()`: the loop ends at its next test and the final flush follows. */
    method StopSending()
      modifies this
      ensures stopSending
    {
      stopSending := true;
    }

    /** Polls the queue until it is empty: the batch is the former contents, oldest first. */
    method DrainQueue() returns (eventList: seq<LiteWorkflowActionEvent>)
      modifies eventQueue
      ensures eventList == old(eventQueue.items)
      ensures Values(eventList) == old(Values(eventQueue.items))
      ensures eventQueue.items == []
    {
      eventList := [];
      while true
        invariant eventList + eventQueue.items == old(eventQueue.items)
        decreases |eventQueue.items|
      {
        var event := eventQueue.Poll();
        if event == null {
          break;
        }
        eventList := eventList + [event];
      }
      ValuesUnchanged(old(eventQueue.items));
    }

    /**
     * `sendEvents`: posts the serialized batch; only status 200 counts as sent, and any
     * other status throws an error that carries the status and the response text.
     */
    method SendEvents(eventList: seq<LiteWorkflowActionEvent>, response: Response)
      returns (requestBody: string, outcome: SendOutcome)
      ensures requestBody == EventListText(Values(eventList), formatDate)
      ensures outcome.Sent? <==> Accepted(response)
      ensures response.ConnectionFailed? ==> outcome == NotSent(IoError)
      ensures response.Responded? && response.code != HttpOk && response.body.None? ==> outcome == NotSent(IoError)
      ensures response.Responded? && response.code != HttpOk && response.body.Some?
              ==> outcome == NotSent(UnexpectedResponseCode(response.code, response.body.value))
    {
      requestBody := SerializeEventListAsString(eventList, formatDate);
      match response
      case ConnectionFailed =>
        outcome := NotSent(IoError);
      case Responded(responseCode, body) =>
        var errorText: Option<string> := None;
        if responseCode != HttpOk {
          if body.None? {
            return requestBody, NotSent(IoError);
          }
          errorText := body;
        }
        if responseCode != HttpOk {
          outcome := NotSent(UnexpectedResponseCode(responseCode, errorText.GetOr("")));
        } else {
          outcome := Sent;
        }
    }

    /**
     * The body of one iteration of the sender loop: a non-empty queue is drained and posted;
     * after a failed POST every drained event is added back, so the queue is as before.
     */
    method RunCycle(response: Response) returns (requestBody: Option<string>, outcome: Option<SendOutcome>)
      modifies eventQueue
      ensures old(eventQueue.items) == [] ==> requestBody.None? && outcome.None? && eventQueue.items == []
      ensures old(eventQueue.items) != [] ==>
                requestBody == Some(EventListText(old(Values(eventQueue.items)), formatDate))
                && outcome.Some? && (outcome.value.Sent? <==> Accepted(response))
      ensures Accepted(response) ==> eventQueue.items == []
      ensures !Accepted(response) ==> eventQueue.items == old(eventQueue.items)
    {
      requestBody, outcome := None, None;
      if eventQueue.Size() > 0 {
        var eventList := DrainQueue();
        var body, result := SendEvents(eventList, response);
        requestBody, outcome := Some(body), Some(result);
        if result.NotSent? {
          eventQueue.AddAll(eventList);
        }
      }
    }

    /**
     * The last attempt after the loop has stopped: a non-empty queue is drained and posted
     * once; the queue always ends empty, and a failed batch is written to standard error
     * instead of being put back.
     */
    method FinalFlush(response: Response) returns (requestBody: Option<string>, stderrText: Option<string>)
      modifies eventQueue
      ensures eventQueue.items == []
      ensures old(eventQueue.items) == [] ==> requestBody.None? && stderrText.None?
      ensures old(eventQueue.items) != [] ==>
                requestBody == Some(EventListText(old(Values(eventQueue.items)), formatDate))
      ensures stderrText.Some? <==> old(eventQueue.items) != [] && !Accepted(response)
      ensures stderrText.Some? ==>
                stderrText.value == UnsentEventsNotice + EventListText(old(Values(eventQueue.items)), formatDate)
    {
      ghost var batch := EventListText(Values(eventQueue.items), formatDate);
      requestBody, stderrText := None, None;
      if eventQueue.Size() > 0 {
        var eventList := DrainQueue();
        var body, result := SendEvents(eventList, response);
        requestBody := Some(body);
        if result.NotSent? {
          var events := SerializeEventListAsString(eventList, formatDate);
          assert events == batch;
          stderrText := Some(UnsentEventsNotice + events);
        }
      }
    }
  }

  /** `ActionEventHandler`: what an action uses to report events. */
  class ActionEventHandler {
    const actionId: Option<string>
    /** Null when event handling is disabled. */
    const eventQueue: EventQueue?
    /** Null when event handling is disabled. */
    const sender: EventSender?

    /** The queue and the sender exist together, and the sender drains this handler's queue. */
    ghost predicate Valid() {
      (eventQueue == null <==> sender == null)
      && (sender != null ==> sender.eventQueue == eventQueue)
    }

    /**
     * Reads the action id, the callback URL and the interval from the system properties; the
     * queue and the sender exist exactly when a callback URL is configured.
     */
    constructor (props: SystemProperties, formatDate: DateFormatter)
      requires IntervalParses(props)
      ensures Valid()
      ensures actionId == GetProperty(props, ActionIdProperty)
      ensures eventQueue != null <==> IsEventHandlingEnabled(props)
      ensures eventQueue != null ==> fresh(eventQueue) && fresh(sender) && eventQueue.items == []
      ensures sender != null ==>
                && sender.callbackUrl == GetProperty(props, CallbackUrlProperty).value
                && sender.interval == IntervalMillis(SendIntervalSeconds(props))
                && sender.formatDate == formatDate
                && !sender.stopSending
    {
      actionId := GetProperty(props, ActionIdProperty);
      var callbackUrl := GetProperty(props, CallbackUrlProperty);
      var sendInterval: Int32 := DefaultSendInterval;
      if callbackUrl.Some? {
        var intervalText := GetProperty(props, SendIntervalProperty);
        if intervalText.Some? {
          sendInterval := ParseInt(intervalText.value).value;
        }
        var queue := new EventQueue();
        eventQueue := queue;
        sender := new EventSender(queue, callbackUrl.value, IntervalMillis(sendInterval), formatDate);
      } else {
        eventQueue := null;
        sender := null;
      }
    }

    /** `createWorkflowActionEvent()`: a new event for this handler's action, stamped `now`. */
    method CreateWorkflowActionEvent(now: Date) returns (e: LiteWorkflowActionEvent)
      ensures fresh(e)
      ensures e.Value() == EventValue(actionId, Some(TypeOther), None, Some(now))
    {
      e := new LiteWorkflowActionEvent(actionId, now);
    }

    /** `sendEvent`: enqueues the event at the tail; with event handling disabled nothing changes. */
    method SendEvent(event: LiteWorkflowActionEvent)
      modifies eventQueue
      ensures eventQueue != null ==> eventQueue.items == old(eventQueue.items) + [event]
    {
      if eventQueue != null {
        eventQueue.Add(event);
      }
    }

    /**
     * `finish`: stops the sender and waits for it, which runs the final flush; afterwards
     * the queue is empty.
     */
    method Finish(response: Response) returns (stderrText: Option<string>)
      requires Valid()
      modifies sender, eventQueue
      ensures sender != null ==> sender.stopSending && eventQueue.items == []
      ensures sender == null ==> stderrText.None?
      ensures sender != null ==>
                (stderrText.Some? <==> old(eventQueue.items) != [] && !Accepted(response))
    {
      stderrText := None;
      if sender != null {
        sender.StopSending();
        var requestBody;
        requestBody, stderrText := sender.FinalFlush(response);
      }
    }
  }
}
