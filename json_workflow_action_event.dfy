/**
 * The server-side bean of an action event and its JSON mapping: one JSON object per event
 * with the keys `type`, `message`, `actionId` and `timestamp`, and arrays of them.
 *
 * A parsed JSON object is a map from keys to texts, where a key that is present with a
 * JSON null maps to None; `get` of an absent key is null as well.
 */
module JsonBeans {
  import opened Wrappers
  import opened JavaStrings
  import opened Events

  type JSONObject = map<string, Option<string>>

  const TypeTag: string := "type"
  const MessageTag: string := "message"
  const ActionIdTag: string := "actionId"
  const TimestampTag: string := "timestamp"

  /** `JSONObject.get`: null for an absent key. */
  function Field(obj: JSONObject, key: string): Option<string> {
    if key in obj then obj[key] else None
  }

  /** `JsonUtils.formatDateRfc822`: null for a null date. */
  function FormatTimestamp(timestamp: Option<Date>, formatDate: DateFormatter): Option<string> {
    match timestamp
    case Some(d) => Some(formatDate(d))
    case None => None
  }

  /** `JsonUtils.parseDateRfc822`: null for a null text. */
  function ParseTimestamp(text: Option<string>, parseDate: DateParser): Option<Date> {
    match text
    case Some(t) => parseDate(t)
    case None => None
  }

  /** The field values the JSON-object constructor reads. */
  function FromJSONObject(obj: JSONObject, parseDate: DateParser): (v: EventValue)
    ensures TypeTag !in obj ==> v.eventType.None?
    ensures MessageTag !in obj ==> v.message.None?
    ensures ActionIdTag !in obj ==> v.actionId.None?
    ensures TimestampTag !in obj ==> v.timestamp.None?
  {
    EventValue(
      Field(obj, ActionIdTag),
      Field(obj, TypeTag),
      Field(obj, MessageTag),
      ParseTimestamp(Field(obj, TimestampTag), parseDate))
  }

  /** What `toJSONObject` builds: the four keys, each present even where its value is null. */
  function ToJSONObject(v: EventValue, formatDate: DateFormatter): (json: JSONObject)
    ensures json.Keys == {TypeTag, MessageTag, ActionIdTag, TimestampTag}
  {
    map[TypeTag := v.eventType, MessageTag := v.message, ActionIdTag := v.actionId,
        TimestampTag := FormatTimestamp(v.timestamp, formatDate)]
  }

  /** The constructor reads the four tagged keys and nothing else. */
  lemma FromJSONObjectReadsTags(o1: JSONObject, o2: JSONObject, parseDate: DateParser)
    requires forall k :: k in {TypeTag, MessageTag, ActionIdTag, TimestampTag} ==> Field(o1, k) == Field(o2, k)
    ensures FromJSONObject(o1, parseDate) == FromJSONObject(o2, parseDate)
  {
    assert Field(o1, TypeTag) == Field(o2, TypeTag);
    assert Field(o1, MessageTag) == Field(o2, MessageTag);
    assert Field(o1, ActionIdTag) == Field(o2, ActionIdTag);
    assert Field(o1, TimestampTag) == Field(o2, TimestampTag);
  }

  /**
   * A bean built from `toJSONObject(e)` has e's type, message and action id; its timestamp is
   * the parse of the formatted date, which gives the date back only where the date format
   * loses nothing.
   */
  lemma JSONObjectRoundTrip(v: EventValue, formatDate: DateFormatter, parseDate: DateParser)
    ensures var w := FromJSONObject(ToJSONObject(v, formatDate), parseDate);
            && w.eventType == v.eventType && w.message == v.message && w.actionId == v.actionId
            && (v.timestamp.None? ==> w.timestamp.None?)
            && (v.timestamp.Some? ==> w.timestamp == parseDate(formatDate(v.timestamp.value)))
  {
  }

  /** Where parsing undoes formatting, the JSON object carries the whole event. */
  lemma JSONObjectRoundTripExact(v: EventValue, formatDate: DateFormatter, parseDate: DateParser)
    requires v.timestamp.Some? ==> parseDate(formatDate(v.timestamp.value)) == v.timestamp
    ensures FromJSONObject(ToJSONObject(v, formatDate), parseDate) == v
  {
    JSONObjectRoundTrip(v, formatDate, parseDate);
  }

  /** What the JSON parser yields for one element of a parsed array. */
  datatype JSONElement =
    | ObjectElement(obj: JSONObject)
    | NullElement
      /** A number, string, boolean or array where an object is expected. */
    | OtherElement

  /** The exceptions building a bean from a parsed element can throw. */
  datatype JavaException =
      /** A `JSONObject` or `JSONArray` cast of a value of another kind. */
    | ClassCastException
      /** The constructor reads a key of a null element. */
    | NullPointerException
      /** `parseDateRfc822` rejects the timestamp text. */
    | DateParseException

  /** The timestamp text is absent, null, or one the date parser accepts. */
  predicate DateAccepted(obj: JSONObject, parseDate: DateParser) {
    Field(obj, TimestampTag).None? || parseDate(Field(obj, TimestampTag).value).Some?
  }

  /** The exception `new JsonWorkflowActionEvent((JSONObject) element)` throws, if any. */
  function ElementFailure(element: JSONElement, parseDate: DateParser): (f: Option<JavaException>)
    ensures f.None? <==> element.ObjectElement? && DateAccepted(element.obj, parseDate)
  {
    match element
    case NullElement => Some(NullPointerException)
    case OtherElement => Some(ClassCastException)
    case ObjectElement(obj) => if DateAccepted(obj, parseDate) then None else Some(DateParseException)
  }

  /** `JsonWorkflowActionEvent`, and `WorkflowActionEventBean`, which only adds the binary form. */
  class JsonWorkflowActionEvent {
    var actionId: Option<string>
    var eventType: Option<string>
    var message: Option<string>
    var timestamp: Option<Date>

    function Value(): EventValue
      reads this
    {
      EventValue(actionId, eventType, message, timestamp)
    }

    /** The no-argument constructor: every field null. */
    constructor ()
      ensures Value() == EventValue(None, None, None, None)
    {
      actionId, eventType, message, timestamp := None, None, None, None;
    }

    /** The JSON-object constructor: each field from its tag, null where the tag is absent. */
    constructor FromJSON(jsonObject: JSONObject, parseDate: DateParser)
      ensures Value() == FromJSONObject(jsonObject, parseDate)
    {
      eventType := Field(jsonObject, TypeTag);
      message := Field(jsonObject, MessageTag);
      actionId := Field(jsonObject, ActionIdTag);
      timestamp := ParseTimestamp(Field(jsonObject, TimestampTag), parseDate);
    }

    /** `toJSONObject` */
    method ToJSON(formatDate: DateFormatter) returns (json: JSONObject)
      ensures json == ToJSONObject(Value(), formatDate)
    {
      json := map[];
      json := json[TypeTag := eventType];
      json := json[MessageTag := message];
      json := json[ActionIdTag := actionId];
      json := json[TimestampTag := FormatTimestamp(timestamp, formatDate)];
    }

    method SetActionId(actionId: Option<string>)
      modifies this
      ensures Value() == old(Value()).(actionId := actionId)
    {
      this.actionId := actionId;
    }

    method SetMessage(message: Option<string>)
      modifies this
      ensures Value() == old(Value()).(message := message)
    {
      this.message := message;
    }

    method SetTimestamp(timestamp: Option<Date>)
      modifies this
      ensures Value() == old(Value()).(timestamp := timestamp)
    {
      this.timestamp := timestamp;
    }

    method SetType(eventType: Option<string>)
      modifies this
      ensures Value() == old(Value()).(eventType := eventType)
    {
      this.eventType := eventType;
    }
  }

  /** The field values of a list of beans, in order. */
  function BeanValues(beans: seq<JsonWorkflowActionEvent>): (vs: seq<EventValue>)
    reads beans
    ensures |vs| == |beans|
    ensures forall i :: 0 <= i < |beans| ==> vs[i] == beans[i].Value()
  {
    if beans == [] then [] else BeanValues(beans[..|beans| - 1]) + [beans[|beans| - 1].Value()]
  }

  /** The JSON objects of a list of events, in order. */
  function ToJSONObjects(vs: seq<EventValue>, formatDate: DateFormatter): (objs: seq<JSONObject>)
    ensures |objs| == |vs|
    ensures forall i :: 0 <= i < |vs| ==> objs[i] == ToJSONObject(vs[i], formatDate)
  {
    if vs == [] then [] else ToJSONObjects(vs[..|vs| - 1], formatDate) + [ToJSONObject(vs[|vs| - 1], formatDate)]
  }

  /** The events of a list of JSON objects, in order. */
  function FromJSONObjects(objs: seq<JSONObject>, parseDate: DateParser): (vs: seq<EventValue>)
    ensures |vs| == |objs|
    ensures forall i :: 0 <= i < |objs| ==> vs[i] == FromJSONObject(objs[i], parseDate)
  {
    if objs == [] then [] else FromJSONObjects(objs[..|objs| - 1], parseDate) + [FromJSONObject(objs[|objs| - 1], parseDate)]
  }

  /** `toJSONArray`: one object per bean in list order; a null list gives an empty jsonArray. */
  method ToJSONArray(events: Option<seq<JsonWorkflowActionEvent>>, formatDate: DateFormatter)
    returns (jsonArray: seq<JSONObject>)
    ensures events.None? ==> jsonArray == []
    ensures events.Some? ==> jsonArray == ToJSONObjects(BeanValues(events.value), formatDate)
  {
    jsonArray := [];
    if events.Some? {
      var list := events.value;
      for i := 0 to |list|
        invariant |jsonArray| == i
        invariant forall k :: 0 <= k < i ==> jsonArray[k] == ToJSONObject(list[k].Value(), formatDate)
      {
        var json := list[i].ToJSON(formatDate);
        jsonArray := jsonArray + [json];
      }
    }
  }

  /**
   * `new JsonWorkflowActionEvent((JSONObject) element)`: the cast, then the JSON-object
   * constructor, or the exception one of them throws.
   */
  method NewFromElement(element: JSONElement, parseDate: DateParser)
    returns (result: Result<JsonWorkflowActionEvent, JavaException>)
    ensures result.Failure? <==> ElementFailure(element, parseDate).Some?
    ensures result.Failure? ==> Some(result.error) == ElementFailure(element, parseDate)
    ensures result.Success? ==>
              && fresh(result.value)
              && element.ObjectElement?
              && result.value.Value() == FromJSONObject(element.obj, parseDate)
  {
    var failure := ElementFailure(element, parseDate);
    if failure.Some? {
      return Failure(failure.value);
    }
    var bean := new JsonWorkflowActionEvent.FromJSON(element.obj, parseDate);
    return Success(bean);
  }

  /**
   * `fromJSONArray`: one new bean per element, in jsonArray order, or the exception of the
   * first element that cannot become a bean.
   */
  method FromJSONArray(jsonArray: seq<JSONElement>, parseDate: DateParser)
    returns (result: Result<seq<JsonWorkflowActionEvent>, JavaException>)
    ensures result.Failure? <==> exists i :: 0 <= i < |jsonArray| && ElementFailure(jsonArray[i], parseDate).Some?
    ensures result.Failure? ==>
              exists i :: 0 <= i < |jsonArray|
                && Some(result.error) == ElementFailure(jsonArray[i], parseDate)
                && forall j :: 0 <= j < i ==> ElementFailure(jsonArray[j], parseDate).None?
    ensures result.Success? ==>
              && |result.value| == |jsonArray|
              && forall k :: 0 <= k < |jsonArray| ==>
                   jsonArray[k].ObjectElement?
                   && result.value[k].Value() == FromJSONObject(jsonArray[k].obj, parseDate)
    ensures result.Success? ==> forall k :: 0 <= k < |result.value| ==> fresh(result.value[k])
  {
    var list: seq<JsonWorkflowActionEvent> := [];
    for i := 0 to |jsonArray|
      invariant |list| == i
      invariant forall j :: 0 <= j < i ==> ElementFailure(jsonArray[j], parseDate).None?
      invariant forall k :: 0 <= k < i ==> fresh(list[k])
      invariant forall k :: 0 <= k < i ==>
                  jsonArray[k].ObjectElement? && list[k].Value() == FromJSONObject(jsonArray[k].obj, parseDate)
    {
      var bean := NewFromElement(jsonArray[i], parseDate);
      if bean.Failure? {
        return Failure(bean.error);
      }
      list := list + [bean.value];
    }
    return Success(list);
  }

  /** The elements the JSON parser yields for an array of objects. */
  function ObjectElements(objs: seq<JSONObject>): (es: seq<JSONElement>)
    ensures |es| == |objs|
    ensures forall i :: 0 <= i < |objs| ==> es[i] == ObjectElement(objs[i])
  {
    if objs == [] then [] else ObjectElements(objs[..|objs| - 1]) + [ObjectElement(objs[|objs| - 1])]
  }

  /** The object `toJSONObject` writes for an event builds a bean when its formatted date parses. */
  lemma JSONObjectReadable(v: EventValue, formatDate: DateFormatter, parseDate: DateParser)
    requires v.timestamp.Some? ==> parseDate(formatDate(v.timestamp.value)).Some?
    ensures ElementFailure(ObjectElement(ToJSONObject(v, formatDate)), parseDate).None?
  {
    assert Field(ToJSONObject(v, formatDate), TimestampTag) == FormatTimestamp(v.timestamp, formatDate);
  }

  /**
   * An array written by `toJSONArray` reads back without an exception when the date parser
   * accepts every formatted date.
   */
  lemma JSONArrayReadable(vs: seq<EventValue>, formatDate: DateFormatter, parseDate: DateParser)
    requires forall d :: parseDate(formatDate(d)).Some?
    ensures forall i :: 0 <= i < |vs| ==>
              ElementFailure(ObjectElements(ToJSONObjects(vs, formatDate))[i], parseDate).None?
  {
    var es := ObjectElements(ToJSONObjects(vs, formatDate));
    forall i | 0 <= i < |vs|
      ensures ElementFailure(es[i], parseDate).None?
    {
      assert es[i] == ObjectElement(ToJSONObject(vs[i], formatDate));
      JSONObjectReadable(vs[i], formatDate, parseDate);
    }
  }

  /**
   * Converting events to a JSON array and back keeps the length and the order, and each
   * event's type, message and action id.
   */
  lemma {:induction false} JSONArrayRoundTrip(vs: seq<EventValue>, formatDate: DateFormatter, parseDate: DateParser)
    ensures var ws := FromJSONObjects(ToJSONObjects(vs, formatDate), parseDate);
            && |ws| == |vs|
            && forall i :: 0 <= i < |vs| ==>
                 ws[i].eventType == vs[i].eventType && ws[i].message == vs[i].message
                 && ws[i].actionId == vs[i].actionId
  {
    forall i | 0 <= i < |vs|
      ensures var w := FromJSONObjects(ToJSONObjects(vs, formatDate), parseDate)[i];
              w.eventType == vs[i].eventType && w.message == vs[i].message && w.actionId == vs[i].actionId
    {
      JSONObjectRoundTrip(vs[i], formatDate, parseDate);
    }
  }
}
