/**
 * `ActionEventListenerServlet.doPost`: the server end of the pipeline. It accepts a POST whose
 * content type is JSON, turns the parsed array into one bean per element and hands a non-empty
 * batch to the workflow engine.
 */
module EventServlet {
  import opened Wrappers
  import opened JavaStrings
  import opened Events
  import opened JsonBeans
  import opened WireCodec

  const JsonContentType: string := "application/json"
  /** The content type the event sender puts on its requests. */
  const SenderContentType: string := "application/json; charset=utf-8"

  const ScOk: int := 200
  const ScBadRequest: int := 400
  const ScUnsupportedMediaType: int := 415

  /** The content type test of `doPost`: a prefix test, so parameters such as a charset are accepted. */
  predicate AcceptsContentType(contentType: Option<string>) {
    contentType.Some? && StartsWith(contentType.value, JsonContentType)
  }

  /** `"" + contentType` in Java: a null string reads `null`. */
  function ContentTypeText(contentType: Option<string>): string {
    contentType.GetOr("null")
  }

  /** What `JSONValue.parse` yields for the whole request body. */
  datatype ParsedBody =
      /** null: the text is not JSON, or is the literal `null`. */
    | Unparsed
      /** A JSON value other than an array. */
    | NotAnArray
    | ArrayOf(elements: seq<JSONElement>)

  datatype PostOutcome =
    | Replied(status: int, errorMessage: Option<string>)
      /** The exception that leaves `doPost`; the container then answers with a server error. */
    | Threw(exception: JavaException)

  /**
   * `doPost`: returns the reply or the exception that leaves the method, and the batch
   * handed to the engine's `processActionEventList`, None where the engine is not called.
   * The beans are built in array order, so the first element that cannot become a bean
   * decides the exception.
   */
  method DoPost(contentType: Option<string>, body: ParsedBody, parseDate: DateParser)
    returns (outcome: PostOutcome, submitted: Option<seq<JsonWorkflowActionEvent>>)
    ensures !AcceptsContentType(contentType) ==>
              outcome == Replied(ScUnsupportedMediaType, Some("Unexpected content type: " + ContentTypeText(contentType)))
    ensures AcceptsContentType(contentType) && body.Unparsed? ==>
              outcome == Replied(ScBadRequest, Some("No events could be prased from request"))
    ensures AcceptsContentType(contentType) && body.NotAnArray? ==> outcome == Threw(ClassCastException)
    ensures AcceptsContentType(contentType) && body.ArrayOf? ==>
              (outcome.Threw? <==> exists i :: 0 <= i < |body.elements| && ElementFailure(body.elements[i], parseDate).Some?)
    ensures AcceptsContentType(contentType) && body.ArrayOf? && outcome.Threw? ==>
              exists i :: 0 <= i < |body.elements|
                && Some(outcome.exception) == ElementFailure(body.elements[i], parseDate)
                && forall j :: 0 <= j < i ==> ElementFailure(body.elements[j], parseDate).None?
    ensures outcome.Replied? && outcome.status != ScOk ==> AcceptsContentType(contentType) == (outcome.status == ScBadRequest)
    ensures AcceptsContentType(contentType) && body.ArrayOf? && outcome.Replied? ==> outcome == Replied(ScOk, None)
    ensures submitted.Some? <==> outcome == Replied(ScOk, None) && body.ArrayOf? && body.elements != []
    ensures submitted.Some? ==>
              && |submitted.value| == |body.elements|
              && forall k :: 0 <= k < |body.elements| ==>
                   body.elements[k].ObjectElement?
                   && submitted.value[k].Value() == FromJSONObject(body.elements[k].obj, parseDate)
    ensures submitted.Some? ==> forall k :: 0 <= k < |submitted.value| ==> fresh(submitted.value[k])
  {
    submitted := None;
    if contentType.None? || !StartsWith(contentType.value, JsonContentType) {
      outcome := Replied(ScUnsupportedMediaType, Some("Unexpected content type: " + ContentTypeText(contentType)));
      return;
    }
    if body.Unparsed? {
      outcome := Replied(ScBadRequest, Some("No events could be prased from request"));
      return;
    }
    if body.NotAnArray? {
      outcome := Threw(ClassCastException);
      return;
    }
    var elements := body.elements;
    var eventList: seq<JsonWorkflowActionEvent> := [];
    for i := 0 to |elements|
      invariant |eventList| == i
      invariant forall j :: 0 <= j < i ==> ElementFailure(elements[j], parseDate).None?
      invariant forall k :: 0 <= k < i ==> fresh(eventList[k])
      invariant forall k :: 0 <= k < i ==>
                  elements[k].ObjectElement? && eventList[k].Value() == FromJSONObject(elements[k].obj, parseDate)
    {
      var wab := NewFromElement(elements[i], parseDate);
      if wab.Failure? {
        outcome := Threw(wab.error);
        return;
      }
      eventList := eventList + [wab.value];
    }
    if |eventList| > 0 {
      submitted := Some(eventList);
    }
    outcome := Replied(ScOk, None);
  }

  /** The sender's own content type passes the test. */
  lemma SenderContentTypeAccepted()
    ensures AcceptsContentType(Some(SenderContentType))
  {
    assert SenderContentType[..|JsonContentType|] == JsonContentType;
  }

  /** A content type that only differs in case does not. */
  lemma ContentTypeIsCaseSensitive()
    ensures !AcceptsContentType(Some("Application/json"))
  {
    assert "Application/json"[0] != JsonContentType[0];
  }
  /** What the JSON parser yields for one object of the sender's array: every key maps to a text. */
  function WireObject(w: WireEvent): JSONObject {
    map[TypeTag := Some(w.eventType), ActionIdTag := Some(w.actionId), TimestampTag := Some(w.timestamp),
        MessageTag := Some(w.message)]
  }

  /**
   * From sender to servlet, one event: the bean built from its decoded object has the event's
   * type, action id and message, except that a null one arrives as the empty text; its
   * timestamp is the parse of the date text, and of the text `null` for a null timestamp.
   */
  lemma DeliveredEvent(e: EventValue, formatDate: DateFormatter, parseDate: DateParser)
    ensures FromJSONObject(WireObject(WireView(e, formatDate)), parseDate)
         == EventValue(Some(e.actionId.GetOr("")), Some(e.eventType.GetOr("")),
                       Some(e.message.GetOr("")), parseDate(TimestampText(e.timestamp, formatDate)))
  {
  }

  /**
   * From sender to servlet, a batch: what the sender serializes decodes to one object per
   * event, in order (the round trip of the wire format), and each becomes the bean above.
   */
  lemma DeliveredBatch(es: seq<EventValue>, formatDate: DateFormatter, parseDate: DateParser)
    requires FormatterRawSafe(formatDate)
    ensures ParseEventList(EventListText(es, formatDate)).Some?
    ensures var objects := ParseEventList(EventListText(es, formatDate)).value;
            && |objects| == |es|
            && forall i :: 0 <= i < |es| ==>
                 FromJSONObject(WireObject(objects[i]), parseDate)
                 == EventValue(Some(es[i].actionId.GetOr("")), Some(es[i].eventType.GetOr("")),
                               Some(es[i].message.GetOr("")), parseDate(TimestampText(es[i].timestamp, formatDate)))
  {
    EventListRoundTrip(es, formatDate);
    var ws := WireViews(es, formatDate);
    forall i | 0 <= i < |es|
      ensures FromJSONObject(WireObject(ws[i]), parseDate)
           == EventValue(Some(es[i].actionId.GetOr("")), Some(es[i].eventType.GetOr("")),
                         Some(es[i].message.GetOr("")), parseDate(TimestampText(es[i].timestamp, formatDate)))
    {
      DeliveredEvent(es[i], formatDate, parseDate);
    }
  }

  /**
   * From sender to servlet, whether a delivered event makes `doPost` throw: only when the date
   * parser rejects its timestamp text. A null timestamp travels as the text `null`, so the post
   * throws for it unless the parser accepts that text.
   */
  lemma DeliveredEventFailure(e: EventValue, formatDate: DateFormatter, parseDate: DateParser)
    ensures ElementFailure(ObjectElement(WireObject(WireView(e, formatDate))), parseDate)
         == if parseDate(TimestampText(e.timestamp, formatDate)).Some? then None else Some(DateParseException)
    ensures e.timestamp.None? && parseDate("null").None? ==>
              ElementFailure(ObjectElement(WireObject(WireView(e, formatDate))), parseDate) == Some(DateParseException)
  {
    var obj := WireObject(WireView(e, formatDate));
    assert Field(obj, TimestampTag) == Some(TimestampText(e.timestamp, formatDate));
  }
}
