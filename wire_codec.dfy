/**
 * The wire format the producer writes: each event as a JSON object with the keys
 * type, actionId, timestamp and message in that order, a batch as a JSON array.
 * String values go through the producer's own escaper. A reference decoder for
 * exactly this format is the partner of the encoder: decoding what was encoded
 * gives back every field.
 */
module WireCodec {
  import opened Wrappers
  import opened JavaStrings
  import opened Events

  const Backspace: char := 8 as char
  const Tab: char := 9 as char
  const LineFeed: char := 10 as char
  const FormFeed: char := 12 as char
  const CarriageReturn: char := 13 as char

  /** The letter written after a backslash for the eight characters the escaper rewrites. */
  function EscapeCode(c: char): Option<char> {
    if c == '\\' then Some('\\')
    else if c == '"' then Some('"')
    else if c == '/' then Some('/')
    else if c == Backspace then Some('b')
    else if c == FormFeed then Some('f')
    else if c == LineFeed then Some('n')
    else if c == CarriageReturn then Some('r')
    else if c == Tab then Some('t')
    else None
  }

  /** The character a two-character escape stands for. */
  function UnescapeCode(d: char): Option<char> {
    if d == '\\' then Some('\\')
    else if d == '"' then Some('"')
    else if d == '/' then Some('/')
    else if d == 'b' then Some(Backspace)
    else if d == 'f' then Some(FormFeed)
    else if d == 'n' then Some(LineFeed)
    else if d == 'r' then Some(CarriageReturn)
    else if d == 't' then Some(Tab)
    else None
  }

  function EscapeChar(c: char): string {
    match EscapeCode(c)
    case Some(d) => ['\\', d]
    case None => [c]
  }

  /** What `writeJSONSafe` appends for a non-null value. */
  function Escape(s: string): string {
    if s == [] then [] else Escape(s[..|s| - 1]) + EscapeChar(s[|s| - 1])
  }

  /** What `writeJSONSafe` appends: nothing at all for null. */
  function EscapeOpt(v: Option<string>): string {
    match v
    case Some(s) => Escape(s)
    case None => []
  }

  /** The number of characters of `s` that the escaper rewrites. */
  function CountSpecial(s: string): nat {
    if s == [] then 0
    else CountSpecial(s[..|s| - 1]) + (if EscapeCode(s[|s| - 1]).Some? then 1 else 0)
  }

  /** The escape table, character by character. */
  lemma EscapeTable()
    ensures Escape("\\") == "\\\\"
    ensures Escape("\"") == "\\\""
    ensures Escape("/") == "\\/"
    ensures Escape([Backspace]) == "\\b"
    ensures Escape([FormFeed]) == "\\f"
    ensures Escape([LineFeed]) == "\\n"
    ensures Escape([CarriageReturn]) == "\\r"
    ensures Escape([Tab]) == "\\t"
  {
  }

  /**
   * Every other character is copied unchanged, including the control characters
   * U+0000 to U+001F outside the table, which RFC 8259 section 7 would require to be escaped.
   */
  lemma PassThrough(c: char)
    requires c != '\\' && c != '"' && c != '/'
    requires c != Backspace && c != FormFeed && c != LineFeed && c != CarriageReturn && c != Tab
    ensures Escape([c]) == [c]
  {
  }

  lemma {:induction false} EscapeConcat(a: string, b: string)
    ensures Escape(a + b) == Escape(a) + Escape(b)
    decreases |b|
  {
    if b == [] {
      assert a + b == a;
    } else {
      EscapeConcat(a, b[..|b| - 1]);
      EscapeConcatStep(a, b);
    }
  }

  lemma EscapeConcatStep(a: string, b: string)
    requires b != []
    requires Escape(a + b[..|b| - 1]) == Escape(a) + Escape(b[..|b| - 1])
    ensures Escape(a + b) == Escape(a) + Escape(b)
  {
    var b', x := b[..|b| - 1], b[|b| - 1];
    DropLastOfConcat(a, b);
    calc {
      Escape(a + b);
      Escape(a + b') + EscapeChar(x);
      Escape(a) + Escape(b') + EscapeChar(x);
      { AppendAssoc3(Escape(a), Escape(b'), EscapeChar(x)); }
      Escape(a) + (Escape(b') + EscapeChar(x));
      Escape(a) + Escape(b);
    }
  }

  /** Escaping one more character of a prefix appends that character's escape. */
  lemma EscapePrefixStep(s: string, i: nat)
    requires i < |s|
    ensures Escape(s[..i + 1]) == Escape(s[..i]) + EscapeChar(s[i])
  {
    assert s[..i + 1][..i] == s[..i];
  }

  lemma AppendAssoc3(a: string, b: string, c: string)
    ensures a + b + c == a + (b + c)
  {
  }


  /** The escaped text is one character longer than the input per rewritten character. */
  lemma {:induction false} EscapeLength(s: string)
    ensures |Escape(s)| == |s| + CountSpecial(s)
    decreases |s|
  {
    if s != [] {
      EscapeLength(s[..|s| - 1]);
    }
  }

  // ---------------------------------------------------------------------------
  // Encoder: the text of one event and of a batch
  // ---------------------------------------------------------------------------

  /** `strBuf.append(formatDateRfc822(ts))`: a null date appends the four characters `null`. */
  function TimestampText(ts: Option<Date>, formatDate: DateFormatter): string {
    match ts
    case Some(d) => formatDate(d)
    case None => "null"
  }

  /** What `serializeEventAsString` appends for one event. */
  function EventText(e: EventValue, formatDate: DateFormatter): string {
    "{\"type\":\"" + EscapeOpt(e.eventType)
    + "\",\"actionId\":\"" + EscapeOpt(e.actionId)
    + "\",\"timestamp\":\"" + TimestampText(e.timestamp, formatDate)
    + "\",\"message\":\"" + EscapeOpt(e.message)
    + "\"}"
  }

  /** The text of each event of a batch, in order. */
  function EventTexts(es: seq<EventValue>, formatDate: DateFormatter): (ts: seq<string>)
    ensures |ts| == |es|
  {
    if es == [] then [] else [EventText(es[0], formatDate)] + EventTexts(es[1..], formatDate)
  }

  /** The `i`-th text of a batch is the `i`-th event's object. */
  lemma {:induction false} EventTextsAt(es: seq<EventValue>, formatDate: DateFormatter, i: nat)
    requires i < |es|
    ensures EventTexts(es, formatDate)[i] == EventText(es[i], formatDate)
    decreases i
  {
    if i > 0 {
      EventTextsAt(es[1..], formatDate, i - 1);
    }
  }

  /** The objects of a batch in order, with a comma between neighbours. */
  function ObjectsText(es: seq<EventValue>, formatDate: DateFormatter): string {
    JoinWith(',', EventTexts(es, formatDate))
  }

  /** What `serializeEventListAsString` returns. */
  function EventListText(es: seq<EventValue>, formatDate: DateFormatter): string {
    "[" + ObjectsText(es, formatDate) + "]"
  }

  // ---------------------------------------------------------------------------
  // Reference decoder for the same format
  // ---------------------------------------------------------------------------

  /** An event as the receiver sees it on the wire: four texts. */
  datatype WireEvent = WireEvent(eventType: string, actionId: string, timestamp: string, message: string)

  /** What the wire carries for an event: a null string field arrives as the empty string, a null date as `null`. */
  function WireView(e: EventValue, formatDate: DateFormatter): WireEvent {
    WireEvent(e.eventType.GetOr(""), e.actionId.GetOr(""), TimestampText(e.timestamp, formatDate), e.message.GetOr(""))
  }

  function WireViews(es: seq<EventValue>, formatDate: DateFormatter): (ws: seq<WireEvent>)
    ensures |ws| == |es|
    ensures forall i :: 0 <= i < |es| ==> ws[i] == WireView(es[i], formatDate)
  {
    if es == [] then [] else [WireView(es[0], formatDate)] + WireViews(es[1..], formatDate)
  }

  function Expect(lit: string, t: string): (r: Option<string>)
    ensures r.Some? ==> |r.value| == |t| - |lit|
  {
    if StartsWith(t, lit) then Some(t[|lit|..]) else None
  }

  /** Reads string content up to the closing quote, undoing the two-character escapes; returns the content and what follows the quote. */
  function ParseString(t: string): (r: Option<(string, string)>)
    ensures r.Some? ==> |r.value.1| < |t|
    decreases |t|
  {
    if t == [] then None
    else if t[0] == '"' then Some(([], t[1..]))
    else if t[0] == '\\' then
      if |t| < 2 then None
      else
        var c :- UnescapeCode(t[1]);
        var p :- ParseString(t[2..]);
        Some(([c] + p.0, p.1))
    else
      var p :- ParseString(t[1..]);
      Some(([t[0]] + p.0, p.1))
  }

  /** A literal, then string content up to its closing quote. */
  function ParseField(lit: string, t: string): (r: Option<(string, string)>)
    ensures r.Some? ==> |r.value.1| < |t|
  {
    var t1 :- Expect(lit, t);
    ParseString(t1)
  }

  function ParseObject(t: string): (r: Option<(WireEvent, string)>)
    ensures r.Some? ==> |r.value.1| < |t|
  {
    var p1 :- ParseField("{\"type\":\"", t);
    var p2 :- ParseField(",\"actionId\":\"", p1.1);
    var p3 :- ParseField(",\"timestamp\":\"", p2.1);
    var p4 :- ParseField(",\"message\":\"", p3.1);
    var t5 :- Expect("}", p4.1);
    Some((WireEvent(p1.0, p2.0, p3.0, p4.0), t5))
  }

  function ParseObjects(t: string): Option<seq<WireEvent>>
    decreases |t|
  {
    var p :- ParseObject(t);
    if p.1 == "]" then Some([p.0])
    else
      var t2 :- Expect(",", p.1);
      var es :- ParseObjects(t2);
      Some([p.0] + es)
  }

  /** Decodes a whole batch; None for text that is not a batch in this format. */
  function ParseEventList(t: string): Option<seq<WireEvent>> {
    var t1 :- Expect("[", t);
    if t1 == "]" then Some([]) else ParseObjects(t1)
  }

  // ---------------------------------------------------------------------------
  // Round trip
  // ---------------------------------------------------------------------------

  /** Text the decoder reads back verbatim: no quote and no backslash. */
  predicate RawSafe(s: string) {
    '"' !in s && '\\' !in s
  }

  /** A date formatter whose output never needs escaping (RFC 822 dates contain neither character). */
  ghost predicate FormatterRawSafe(formatDate: DateFormatter) {
    RawSafe("null") && forall d :: RawSafe(formatDate(d))
  }

  lemma ExpectPrefix(lit: string, rest: string)
    ensures Expect(lit, lit + rest) == Some(rest)
  {
    assert (lit + rest)[..|lit|] == lit;
  }

  /** Decoding an escaped string followed by a closing quote gives back the original string. */
  lemma {:induction false} ParseStringEscaped(s: string, rest: string)
    ensures ParseString(Escape(s) + "\"" + rest) == Some((s, rest))
    decreases |s|
  {
    if s == [] {
      assert Escape(s) + "\"" + rest == ['"'] + rest;
    } else {
      EscapeHead(s);
      ParseStringEscaped(s[1..], rest);
      var tail := Escape(s[1..]) + "\"" + rest;
      AppendAssoc4(EscapeChar(s[0]), Escape(s[1..]), "\"", rest);
      ParseEscapedChar(s[0], tail);
      assert [s[0]] + s[1..] == s;
    }
  }

  /** The escape of a non-empty string: the escape of its first character, then of the others. */
  lemma EscapeHead(s: string)
    requires s != []
    ensures Escape(s) == EscapeChar(s[0]) + Escape(s[1..])
  {
    var c := s[0];
    assert s == [c] + s[1..];
    EscapeConcat([c], s[1..]);
    assert [c][..0] == [];
  }

  lemma AppendAssoc4(a: string, b: string, c: string, d: string)
    ensures a + b + c + d == a + (b + c + d)
  {
  }

  /** One escaped character in front of string content is read back as that character. */
  lemma ParseEscapedChar(c: char, tail: string)
    ensures ParseString(EscapeChar(c) + tail)
         == match ParseString(tail)
            case Some(p) => Some(([c] + p.0, p.1))
            case None => None
  {
    var t := EscapeChar(c) + tail;
    match EscapeCode(c)
    case Some(d) =>
      assert t[0] == '\\' && t[1] == d && t[2..] == tail;
    case None =>
      assert t[0] == c && t[1..] == tail;
  }

  /** Text without quotes or backslashes is read back verbatim. */
  lemma {:induction false} ParseStringRaw(s: string, rest: string)
    requires RawSafe(s)
    ensures ParseString(s + "\"" + rest) == Some((s, rest))
    decreases |s|
  {
    var t := s + "\"" + rest;
    if s == [] {
      assert t == ['"'] + rest;
    } else {
      ParseStringRaw(s[1..], rest);
      assert t[1..] == s[1..] + "\"" + rest;
      assert [s[0]] + s[1..] == s;
    }
  }

  lemma ParseFieldEscaped(lit: string, v: Option<string>, rest: string)
    ensures ParseField(lit, lit + (EscapeOpt(v) + ("\"" + rest))) == Some((v.GetOr(""), rest))
  {
    ExpectPrefix(lit, EscapeOpt(v) + ("\"" + rest));
    assert EscapeOpt(v) == Escape(v.GetOr(""));
    ParseStringEscaped(v.GetOr(""), rest);
    assert Escape(v.GetOr("")) + ("\"" + rest) == Escape(v.GetOr("")) + "\"" + rest;
  }

  lemma ParseFieldRaw(lit: string, v: string, rest: string)
    requires RawSafe(v)
    ensures ParseField(lit, lit + (v + ("\"" + rest))) == Some((v, rest))
  {
    ExpectPrefix(lit, v + ("\"" + rest));
    ParseStringRaw(v, rest);
    assert v + ("\"" + rest) == v + "\"" + rest;
  }

  lemma SplitLiterals()
    ensures "\",\"actionId\":\"" == "\"" + ",\"actionId\":\""
    ensures "\",\"timestamp\":\"" == "\"" + ",\"timestamp\":\""
    ensures "\",\"message\":\"" == "\"" + ",\"message\":\""
    ensures "\"}" == "\"" + "}"
  {
  }

  lemma Reassociate(k1: string, a: string, q: string, k2: string, b: string, k3: string, c: string,
                    k4: string, d: string, k5: string, rest: string)
    ensures k1 + a + (q + k2) + b + (q + k3) + c + (q + k4) + d + (q + k5) + rest
         == k1 + (a + (q + (k2 + (b + (q + (k3 + (c + (q + (k4 + (d + (q + (k5 + rest))))))))))))
  {
  }

  /** The text of one event, followed by anything, read from the front. */
  lemma EventTextThen(e: EventValue, formatDate: DateFormatter, rest: string)
    ensures EventText(e, formatDate) + rest
         == "{\"type\":\"" + (EscapeOpt(e.eventType) + ("\"" +
            (",\"actionId\":\"" + (EscapeOpt(e.actionId) + ("\"" +
            (",\"timestamp\":\"" + (TimestampText(e.timestamp, formatDate) + ("\"" +
            (",\"message\":\"" + (EscapeOpt(e.message) + ("\"" + ("}" + rest))))))))))))
  {
    SplitLiterals();
    Reassociate("{\"type\":\"", EscapeOpt(e.eventType), "\"", ",\"actionId\":\"", EscapeOpt(e.actionId),
                ",\"timestamp\":\"", TimestampText(e.timestamp, formatDate), ",\"message\":\"",
                EscapeOpt(e.message), "}", rest);
  }

  /** One encoded event, followed by anything, decodes to its wire view and leaves exactly that rest. */
  lemma ParseEventText(e: EventValue, formatDate: DateFormatter, rest: string)
    requires RawSafe(TimestampText(e.timestamp, formatDate))
    ensures ParseObject(EventText(e, formatDate) + rest) == Some((WireView(e, formatDate), rest))
  {
    var c := TimestampText(e.timestamp, formatDate);
    var t4 := "}" + rest;
    var t3 := ",\"message\":\"" + (EscapeOpt(e.message) + ("\"" + t4));
    var t2 := ",\"timestamp\":\"" + (c + ("\"" + t3));
    var t1 := ",\"actionId\":\"" + (EscapeOpt(e.actionId) + ("\"" + t2));
    EventTextThen(e, formatDate, rest);
    ParseFieldEscaped("{\"type\":\"", e.eventType, t1);
    ParseFieldEscaped(",\"actionId\":\"", e.actionId, t2);
    ParseFieldRaw(",\"timestamp\":\"", c, t3);
    ParseFieldEscaped(",\"message\":\"", e.message, t4);
    ExpectPrefix("}", rest);
  }

  lemma ParseObjectsLast(e: EventValue, formatDate: DateFormatter)
    requires RawSafe(TimestampText(e.timestamp, formatDate))
    ensures ParseObjects(EventText(e, formatDate) + "]") == Some([WireView(e, formatDate)])
  {
    ParseEventText(e, formatDate, "]");
  }

  lemma ParseObjectsNext(e: EventValue, formatDate: DateFormatter, rest: string)
    requires RawSafe(TimestampText(e.timestamp, formatDate))
    ensures ParseObjects(EventText(e, formatDate) + ("," + rest))
         == match ParseObjects(rest)
            case Some(ws) => Some([WireView(e, formatDate)] + ws)
            case None => None
  {
    ParseEventText(e, formatDate, "," + rest);
    ExpectPrefix(",", rest);
    assert ("," + rest)[0] == ',';
  }

  /** The objects of a batch followed by the closing bracket: the first object, then a comma and the rest or the bracket. */
  lemma ObjectsTextCons(es: seq<EventValue>, formatDate: DateFormatter)
    requires |es| > 0
    ensures ObjectsText(es, formatDate) + "]"
         == EventText(es[0], formatDate) + (if |es| == 1 then "]" else "," + (ObjectsText(es[1..], formatDate) + "]"))
  {
    var h, rest := EventText(es[0], formatDate), EventTexts(es[1..], formatDate);
    assert EventTexts(es, formatDate) == [h] + rest;
    JoinWithConsClosed(',', h, rest, "]");
  }

  /** Reading the first object of a batch: either the batch ends there, or a comma leads to the rest. */
  lemma ParseObjectsHead(es: seq<EventValue>, formatDate: DateFormatter)
    requires |es| > 0
    requires RawSafe(TimestampText(es[0].timestamp, formatDate))
    ensures |es| == 1 ==> ParseObjects(ObjectsText(es, formatDate) + "]") == Some([WireView(es[0], formatDate)])
    ensures |es| > 1 ==>
      ParseObjects(ObjectsText(es, formatDate) + "]")
      == (match ParseObjects(ObjectsText(es[1..], formatDate) + "]")
          case Some(ws) => Some([WireView(es[0], formatDate)] + ws)
          case None => None)
  {
    ObjectsTextCons(es, formatDate);
    if |es| == 1 {
      ParseObjectsLast(es[0], formatDate);
    } else {
      ParseObjectsNext(es[0], formatDate, ObjectsText(es[1..], formatDate) + "]");
    }
  }

  lemma {:induction false} ParseObjectsText(es: seq<EventValue>, formatDate: DateFormatter)
    requires |es| > 0
    requires FormatterRawSafe(formatDate)
    ensures ParseObjects(ObjectsText(es, formatDate) + "]") == Some(WireViews(es, formatDate))
    decreases |es|
  {
    assert RawSafe(TimestampText(es[0].timestamp, formatDate));
    ParseObjectsHead(es, formatDate);
    if |es| == 1 {
      WireViewsOne(es, formatDate);
    } else {
      ParseObjectsText(es[1..], formatDate);
    }
  }

  lemma WireViewsOne(es: seq<EventValue>, formatDate: DateFormatter)
    requires |es| == 1
    ensures WireViews(es, formatDate) == [WireView(es[0], formatDate)]
  {
    assert WireViews(es[1..], formatDate) == [];
  }

  /**
   * Decoding an encoded batch gives back every event's four fields in order,
   * with null strings arriving empty and a null date as the text `null`.
   */
  lemma EventListRoundTrip(es: seq<EventValue>, formatDate: DateFormatter)
    requires FormatterRawSafe(formatDate)
    ensures ParseEventList(EventListText(es, formatDate)) == Some(WireViews(es, formatDate))
  {
    var body := ObjectsText(es, formatDate) + "]";
    assert EventListText(es, formatDate) == "[" + body;
    ExpectPrefix("[", body);
    if es != [] {
      ParseObjectsText(es, formatDate);
      var ts := EventTexts(es, formatDate);
      assert ts == [ts[0]] + ts[1..];
      JoinWithCons(',', ts[0], ts[1..]);
      assert |ts[0]| > 0;
      assert |body| > 1;
    }
  }
}
