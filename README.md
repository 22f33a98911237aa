# Oozie action events, modelled in Dafny

This project models the action-event pipeline of an Oozie fork. A running action reports
events back to the Oozie server while it runs:

- **Launcher side.** The Jaql launcher (`JaqlMain`) watches the Jaql log. It turns every
  `Running job: job_…` line into a `hadoop-job-id` event. It also collects the ids of a whole
  log into the `hadoopJobs` property, and it assembles the Jaql shell's arguments.
- **Queue and sender.** `ActionEventHandler` queues events when a callback URL is configured.
  Its `EventSender` drains the queue once per interval and POSTs the batch as a JSON array. A
  batch the server does not accept is put back. After the handler is finished, one last
  attempt is made, and a batch that still fails goes to standard error.
- **Server side.** `ActionEventListenerServlet.doPost` accepts the POST. It checks the content
  type, turns each JSON object into a `WorkflowActionEventBean` (a `JsonWorkflowActionEvent`
  that also has a binary `Writable` form) and hands a non-empty batch to the engine.
- **Store.** The bean's named queries define how stored events are deleted, listed, counted
  and projected.

Modules, one per source file, plus shared pieces:

| module | file | models |
|---|---|---|
| `Wrappers` | wrappers.dfy | Option and Result |
| `JavaStrings` | java_strings.dfy | `int` wrap-around, `indexOf`, `trim`, `startsWith`, `Integer.parseInt`, joining and splitting on a character |
| `Events` | events.dfy | the four fields of an event as a value; dates; the date formatter and parser as function types |
| `WireCodec` | wire_codec.dfy | the sender's escaper and wire text, and a reference decoder for that text |
| `ActionEvents` | action_event_handler.dfy | `ActionEventHandler`, `EventSender`, `LiteWorkflowActionEvent` and the queue, as classes |
| `Jaql` | jaql_main.dfy | job-id extraction, the `hadoopJobs` loop, `setJaqlScript`, the argument assembly, the log observer's step |
| `JsonBeans` | json_workflow_action_event.dfy | `JsonWorkflowActionEvent` as a class, and its JSON object and array mappings |
| `EventServlet` | action_event_listener_servlet.dfy | `doPost`, and what reaches the server from the sender |
| `BeanStore` | workflow_action_event_bean.dfy | `write`/`readFields` over a token stream, and the named queries over a table class |

The code changes state step by step in several places: the `StringBuffer` loops, the queue,
the sender's cycle, the bean setters and the `readFields` sequence. There the model uses
methods with loop invariants, and classes with `modifies` clauses. Each method is proved
against a specification function, and the lemmas are stated about that function. Two things
are not computed by the model: the HTTP exchange and the RFC 822 date handling. They are
inputs instead. The exchange is a `Response`, and the date handling is a formatter and a
parser passed as function values.

Behaviour of the code worth knowing, where a reader might expect otherwise:

- The code writes a null string field as empty text, not as JSON null. A decoded event
  therefore has `""` where the original had null. `WireCodec.EventListRoundTrip` and
  `EventServlet.DeliveredBatch` state this. A round trip that keeps nulls does not hold.
- An event without a timestamp is sent with the text `null` as its date. The servlet passes
  that text to the date parser, and the post throws unless the parser accepts it
  (`EventServlet.DeliveredEventFailure`). The whole batch is then lost to the server, and the
  sender puts it back because the answer is not 200.
- The escaper rewrites exactly eight characters. The other control characters U+0000 to
  U+001F pass through unescaped, although section 7 of RFC 8259 requires them to be escaped.
  `WireCodec.PassThrough` states this, following the code.
- In the `hadoopJobs` value, the text after `Running job: ` is trimmed but not cut at commas.
  A job id can therefore end in a comma, and so can the joined value
  (`Jaql.JobIdMayEndInComma`). With comma-free ids, the value splits back into the ids
  (`Jaql.JobIdsTextSplits`), and it never starts with a comma (`Jaql.JobIdsTextStart`).

## Model

Source paths are relative to the repository root.

| member | source | states |
|---|---|---|
| `ActionEvents.IsEventHandlingEnabled` | core/src/main/java/org/apache/oozie/action/hadoop/ActionEventHandler.java:79-81 | Event handling is enabled exactly when the callback URL property is set. |
| `ActionEvents.IntervalMillis` | core/src/main/java/org/apache/oozie/action/hadoop/ActionEventHandler.java:53 | The sleep time is `interval * 1000` in Java `int` arithmetic. It equals the exact product whenever that fits. |
| `ActionEvents.DefaultIntervalMillis` | core/src/main/java/org/apache/oozie/action/hadoop/ActionEventHandler.java:38-53 | With a callback URL and no interval property, the sender sleeps 10000 ms. |
| `ActionEvents.IntervalMillisOverflows` | core/src/main/java/org/apache/oozie/action/hadoop/ActionEventHandler.java:43-53 | An interval of 2147484 s wraps to the negative sleep time -2147483296 ms. |
| `ActionEvents.ActionEventHandler.constructor` | core/src/main/java/org/apache/oozie/action/hadoop/ActionEventHandler.java:35-58 | The action id comes from its property. The queue and the sender exist iff a callback URL is configured; then the queue is fresh and empty. The sender gets that URL and `IntervalMillis` of the interval (10 s by default), and it drains this queue. |
| `ActionEvents.ActionEventHandler.SendEvent` | core/src/main/java/org/apache/oozie/action/hadoop/ActionEventHandler.java:60-66 | With handling enabled, exactly this event is appended at the tail of the queue. Otherwise nothing changes; the frame allows nothing else. |
| `ActionEvents.ActionEventHandler.Finish` | core/src/main/java/org/apache/oozie/action/hadoop/ActionEventHandler.java:68-77 | With a sender, the sender is stopped and the queue ends empty. Standard error gets text iff the queue held events and the last POST was not accepted. Without a sender, nothing is written. |
| `ActionEvents.ActionEventHandler.CreateWorkflowActionEvent` | core/src/main/java/org/apache/oozie/action/hadoop/ActionEventHandler.java:83-85 | A new event carrying the handler's action id, of type `other`, with no message, stamped with the given clock reading. |
| `ActionEvents.LiteWorkflowActionEvent.constructor` | core/src/main/java/org/apache/oozie/action/hadoop/ActionEventHandler.java:320-333 | A new event has the given action id, type `other`, a null message and the current time. |
| `ActionEvents.LiteWorkflowActionEvent.SetActionId` | core/src/main/java/org/apache/oozie/action/hadoop/ActionEventHandler.java:339-341 | Only the action id changes, and it takes the given value. |
| `ActionEvents.LiteWorkflowActionEvent.SetMessage` | core/src/main/java/org/apache/oozie/action/hadoop/ActionEventHandler.java:347-349 | Only the message changes, and it takes the given value. |
| `ActionEvents.LiteWorkflowActionEvent.SetTimestamp` | core/src/main/java/org/apache/oozie/action/hadoop/ActionEventHandler.java:355-357 | Only the timestamp changes, and it takes the given value. |
| `ActionEvents.LiteWorkflowActionEvent.SetType` | core/src/main/java/org/apache/oozie/action/hadoop/ActionEventHandler.java:363-365 | Only the type changes, and it takes the given value. |
| `ActionEvents.EventQueue.Add` | core/src/main/java/org/apache/oozie/action/hadoop/ActionEventHandler.java:62 | `add` puts the event at the tail. |
| `ActionEvents.EventQueue.AddAll` | core/src/main/java/org/apache/oozie/action/hadoop/ActionEventHandler.java:136-138 | Re-adding a list appends its events at the tail, in list order. |
| `ActionEvents.EventQueue.Poll` | core/src/main/java/org/apache/oozie/action/hadoop/ActionEventHandler.java:124 | `poll` returns null on an empty queue. Otherwise it removes and returns the head. |
| `ActionEvents.EventSender.constructor` | core/src/main/java/org/apache/oozie/action/hadoop/ActionEventHandler.java:105-112 | The sender keeps its queue, URL and interval, and it starts out not stopped. |
| `ActionEvents.EventSender.StopSending` | core/src/main/java/org/apache/oozie/action/hadoop/ActionEventHandler.java:167-169 | The stop flag is set. |
| `ActionEvents.EventSender.DrainQueue` | core/src/main/java/org/apache/oozie/action/hadoop/ActionEventHandler.java:122-126 | The batch is the former queue contents in FIFO order, the events' fields are untouched, and the queue ends empty. |
| `ActionEvents.EventSender.SendEvents` | core/src/main/java/org/apache/oozie/action/hadoop/ActionEventHandler.java:171-239 | The body posted is the serialized batch. The send succeeds iff the server answers 200. Any other code throws an error carrying that code and the response text. When there is no response text to read, or the connection fails, the error is an I/O error. |
| `ActionEvents.EventSender.RunCycle` | core/src/main/java/org/apache/oozie/action/hadoop/ActionEventHandler.java:120-139 | An empty queue is left alone and nothing is posted. Otherwise the whole queue is posted. After an accepted POST the queue is empty. After a failed one, every drained event is back, in the same order: none lost, none duplicated. |
| `ActionEvents.EventSender.FinalFlush` | core/src/main/java/org/apache/oozie/action/hadoop/ActionEventHandler.java:147-162 | Posts only a non-empty queue, and always leaves the queue empty. Standard error gets text iff the queue held events and the POST failed. That text is the notice followed by the serialized batch, which is not re-queued. |
| `ActionEvents.WriteJSONSafe` | core/src/main/java/org/apache/oozie/action/hadoop/ActionEventHandler.java:265-301 | The switch loop appends exactly the escape of the value, and nothing for null. |
| `ActionEvents.SerializeEventAsString` | core/src/main/java/org/apache/oozie/action/hadoop/ActionEventHandler.java:241-251 | Appends one object with keys type, actionId, timestamp, message, in that order. String values are escaped, a null string is empty, and a null date is the text `null`. |
| `ActionEvents.SerializeEventListAsString` | core/src/main/java/org/apache/oozie/action/hadoop/ActionEventHandler.java:253-263 | The text is `[`, then the objects of the list in order separated by commas, then `]`; an empty list gives `[]`. |
| `WireCodec.EscapeTable` | core/src/main/java/org/apache/oozie/action/hadoop/ActionEventHandler.java:270-294 | Each of `\ " /`, backspace, form feed, line feed, carriage return and tab becomes its two-character escape. |
| `WireCodec.PassThrough` | core/src/main/java/org/apache/oozie/action/hadoop/ActionEventHandler.java:295-297 | Every other character is copied unchanged. |
| `WireCodec.EscapeConcat` | core/src/main/java/org/apache/oozie/action/hadoop/ActionEventHandler.java:268-299 | The escaper works character by character: escaping a concatenation escapes each part. |
| `WireCodec.EscapeLength` | core/src/main/java/org/apache/oozie/action/hadoop/ActionEventHandler.java:268-299 | Output length is input length plus the number of special characters. |
| `WireCodec.ParseStringEscaped` | core/src/main/java/org/apache/oozie/action/hadoop/ActionEventHandler.java:265-301 | The escaper is invertible: reading an escaped string up to its closing quote gives back the original string. |
| `WireCodec.EventListRoundTrip` | core/src/main/java/org/apache/oozie/action/hadoop/ActionEventHandler.java:241-263 | When the date text needs no escaping, decoding the serialized batch gives back every event's four fields, in order. Null strings arrive as `""` and a null date as `null`. |
| `JavaStrings.WrapInt32` | core/src/main/java/org/apache/oozie/action/hadoop/ActionEventHandler.java:53 | Java `int` arithmetic: the result is congruent to the exact value modulo 2^32, and equal to it when it fits. |
| `JavaStrings.IndexOf` | core/src/main/java/org/apache/oozie/action/hadoop/JaqlMain.java:244 | `indexOf` finds the first occurrence, and -1 means there is none. |
| `JavaStrings.IndexOfFirst` | core/src/main/java/org/apache/oozie/action/hadoop/JaqlMain.java:244 | Conversely, a position where the text occurs with no earlier occurrence is exactly what `indexOf` returns. |
| `JavaStrings.Trim` | core/src/main/java/org/apache/oozie/action/hadoop/JaqlMain.java:245 | `trim` keeps one slice of the text. Every character before and after the slice is at most U+0020, and the slice neither starts nor ends with such a character. |
| `JavaStrings.KeptAroundSuffix` | core/src/main/java/org/apache/oozie/action/hadoop/JaqlMain.java:245 | Removing a trimmable prefix and then a trimmable suffix leaves a slice with only trimmable characters around it. |
| `JavaStrings.TrimmedSlicesAgree` | core/src/main/java/org/apache/oozie/action/hadoop/JaqlMain.java:245 | Two slices with only trimmable characters around them and untrimmable ends are the same slice. |
| `JavaStrings.KeptSliceUnique` | core/src/main/java/org/apache/oozie/action/hadoop/JaqlMain.java:245 | A kept slice with untrimmable ends is the only such slice; an empty one means the whole text is trimmable. |
| `JavaStrings.TrimUnique` | core/src/main/java/org/apache/oozie/action/hadoop/JaqlMain.java:245 | Any slice with only trimmable characters around it, and untrimmable ends or an all-trimmable text, is what `trim` returns. |
| `JavaStrings.ParseIntDigits` | core/src/main/java/org/apache/oozie/action/hadoop/ActionEventHandler.java:43 | `Integer.parseInt` of a digit run whose value fits an `int` is that value. |
| `JavaStrings.ParseIntNegated` | core/src/main/java/org/apache/oozie/action/hadoop/ActionEventHandler.java:43 | A leading minus negates the value, down to `Integer.MIN_VALUE`. |
| `JavaStrings.ParseIntRejectsLead` | core/src/main/java/org/apache/oozie/action/hadoop/ActionEventHandler.java:43 | Text that starts with neither a sign nor a digit, leading blanks included, is rejected. |
| `Jaql.GetHadoopJobId` | core/src/main/java/org/apache/oozie/action/hadoop/JaqlMain.java:240-251 | Null for a null line or a line without `Running job: `. A non-null result always starts with `job_`. |
| `Jaql.JobIdAfterFirstPrefix` | core/src/main/java/org/apache/oozie/action/hadoop/JaqlMain.java:243-248 | The result is the trimmed text after the first occurrence of the prefix when that starts with `job_`, and null otherwise. |
| `Jaql.JobIdOfPrefixedLine` | core/src/main/java/org/apache/oozie/action/hadoop/JaqlMain.java:240-251 | A line of the prefix, a job id and trailing blanks yields exactly that job id. |
| `Jaql.JobIds` | core/src/main/java/org/apache/oozie/action/hadoop/JaqlMain.java:226-233 | The ids of a log, in line order, are no more than its lines, and each starts with `job_`. |
| `Jaql.GetHadoopJobIds` | core/src/main/java/org/apache/oozie/action/hadoop/JaqlMain.java:215-238 | The separator loop records under `hadoopJobs` the comma-join of the non-null ids in line order. The value is empty for an absent log file. |
| `Jaql.JobIdsTextEmpty` | core/src/main/java/org/apache/oozie/action/hadoop/JaqlMain.java:225-235 | The `hadoopJobs` value is empty iff no line carries a job id. |
| `Jaql.JobIdsTextStart` | core/src/main/java/org/apache/oozie/action/hadoop/JaqlMain.java:225-235 | A non-empty value starts with the first job id, so never with a comma. |
| `Jaql.JobIdsTextSplits` | core/src/main/java/org/apache/oozie/action/hadoop/JaqlMain.java:226-235 | When no id contains a comma, splitting the value at commas gives back the ids in line order. |
| `Jaql.JobIdMayEndInComma` | core/src/main/java/org/apache/oozie/action/hadoop/JaqlMain.java:245-247 | The id is not cut at commas, so a one-line log can produce a value that ends in a comma. |
| `Jaql.JobIdsTextOneLine` | core/src/main/java/org/apache/oozie/action/hadoop/JaqlMain.java:226-235 | For a one-line log, the value is that line's job id, or empty. |
| `Jaql.Configuration.Get` | core/src/main/java/org/apache/oozie/action/hadoop/JaqlMain.java:154 | `get` returns the stored value, or null for an unset key. `${…}` references in the value are not expanded. |
| `Jaql.Configuration.GetStrings` | core/src/main/java/org/apache/oozie/action/hadoop/JaqlMain.java:122 | `getStrings` returns the stored list, or null for an unset key. |
| `Jaql.Configuration.Set` | core/src/main/java/org/apache/oozie/action/hadoop/JaqlMain.java:29-31 | `set` stores the value under the key and changes nothing else. |
| `Jaql.Configuration.SetStrings` | core/src/main/java/org/apache/oozie/action/hadoop/JaqlMain.java:33 | `setStrings` stores the list under the key and changes nothing else. |
| `Jaql.SetJaqlScript` | core/src/main/java/org/apache/oozie/action/hadoop/JaqlMain.java:28-34 | The script key is always set. The eval key is set only when eval is non-null, and is otherwise unchanged. The path list is stored, and every other key is unchanged. |
| `Jaql.FirstMissing` | core/src/main/java/org/apache/oozie/action/hadoop/JaqlMain.java:124-128 | The path reported is a user path that does not exist. When none is reported, every user path exists. |
| `Jaql.ShellArguments` | core/src/main/java/org/apache/oozie/action/hadoop/JaqlMain.java:116-161 | The argument list starts with `-b` and ends with the script path. |
| `Jaql.ShellArgumentsShape` | core/src/main/java/org/apache/oozie/action/hadoop/JaqlMain.java:148-158 | `-jp` with the quoted path follows `-b` iff the search path is non-empty. `-e` with the eval text precedes the script iff eval is non-null and non-empty. The length counts exactly these. |
| `Jaql.BuildArguments` | core/src/main/java/org/apache/oozie/action/hadoop/JaqlMain.java:114-161 | The loop fails with `Jaql search path [p] does not exist!` for the first missing user path. Otherwise it returns the shell arguments for the accumulated search path and the configured eval text. |
| `Jaql.SearchPathIsJoin` | core/src/main/java/org/apache/oozie/action/hadoop/JaqlMain.java:119-146 | The search path is the user paths in order, joined by the path separator, then `./modules` when that directory exists. |
| `Jaql.UserSearchPathIsJoin` | core/src/main/java/org/apache/oozie/action/hadoop/JaqlMain.java:121-135 | The accumulated user path is the join of the user paths. |
| `Jaql.ObserveLine` | core/src/main/java/org/apache/oozie/action/hadoop/JaqlMain.java:300-308 | A line with a job id appends one new event to an enabled handler's queue: type `hadoop-job-id`, the id as message, the handler's action id and the current time. Any other line, or a disabled handler, leaves the queue unchanged. |
| `JsonBeans.FromJSONObject` | client/src/main/java/org/apache/oozie/client/rest/JsonWorkflowActionEvent.java:44-49 | An absent key yields a null field, not an error. |
| `JsonBeans.ToJSONObject` | client/src/main/java/org/apache/oozie/client/rest/JsonWorkflowActionEvent.java:53-60 | `toJSONObject` writes exactly the four keys. |
| `JsonBeans.FromJSONObjectReadsTags` | client/src/main/java/org/apache/oozie/client/rest/JsonWorkflowActionEvent.java:44-49 | The constructor reads the four tagged keys and nothing else. |
| `JsonBeans.JSONObjectRoundTrip` | client/src/main/java/org/apache/oozie/client/rest/JsonWorkflowActionEvent.java:44-60 | A bean built from `toJSONObject(e)` has e's type, message and action id. Its timestamp is the parse of the formatted date. |
| `JsonBeans.JSONObjectRoundTripExact` | client/src/main/java/org/apache/oozie/client/rest/JsonWorkflowActionEvent.java:44-60 | Where parsing undoes formatting, the bean equals the event. |
| `JsonBeans.JsonWorkflowActionEvent.constructor` | client/src/main/java/org/apache/oozie/client/rest/JsonWorkflowActionEvent.java:42 | A new bean has every field null. |
| `JsonBeans.JsonWorkflowActionEvent.FromJSON` | client/src/main/java/org/apache/oozie/client/rest/JsonWorkflowActionEvent.java:44-49 | The bean's fields are those read from the object. |
| `JsonBeans.ElementFailure` | client/src/main/java/org/apache/oozie/client/rest/JsonWorkflowActionEvent.java:44-48 | An element becomes a bean exactly when it is an object whose timestamp text is absent or accepted by the date parser. A null element throws `NullPointerException`, a non-object element `ClassCastException`, and a rejected date a parse exception. |
| `JsonBeans.NewFromElement` | client/src/main/java/org/apache/oozie/client/rest/JsonWorkflowActionEvent.java:120 | The cast and the constructor either throw the element's exception, or give a new bean with the fields read from the object. |
| `JsonBeans.JsonWorkflowActionEvent.ToJSON` | client/src/main/java/org/apache/oozie/client/rest/JsonWorkflowActionEvent.java:53-60 | The object built holds the bean's fields under their tags. |
| `JsonBeans.JsonWorkflowActionEvent.SetActionId` | client/src/main/java/org/apache/oozie/client/rest/JsonWorkflowActionEvent.java:67-69 | Only the action id changes, and it takes the given value. |
| `JsonBeans.JsonWorkflowActionEvent.SetMessage` | client/src/main/java/org/apache/oozie/client/rest/JsonWorkflowActionEvent.java:76-78 | Only the message changes, and it takes the given value. |
| `JsonBeans.JsonWorkflowActionEvent.SetTimestamp` | client/src/main/java/org/apache/oozie/client/rest/JsonWorkflowActionEvent.java:85-87 | Only the timestamp changes, and it takes the given value. |
| `JsonBeans.JsonWorkflowActionEvent.SetType` | client/src/main/java/org/apache/oozie/client/rest/JsonWorkflowActionEvent.java:94-96 | Only the type changes, and it takes the given value. |
| `JsonBeans.ToJSONObjects` | client/src/main/java/org/apache/oozie/client/rest/JsonWorkflowActionEvent.java:100-108 | One object per event, with the same length and order. |
| `JsonBeans.FromJSONObjects` | client/src/main/java/org/apache/oozie/client/rest/JsonWorkflowActionEvent.java:117-123 | One event per object, with the same length and order. |
| `JsonBeans.ToJSONArray` | client/src/main/java/org/apache/oozie/client/rest/JsonWorkflowActionEvent.java:100-108 | A null list gives an empty array. Otherwise the array holds one object per bean, in list order. |
| `JsonBeans.FromJSONArray` | client/src/main/java/org/apache/oozie/client/rest/JsonWorkflowActionEvent.java:117-123 | Throws exactly when some element cannot become a bean, with the exception of the first such element. Otherwise one new bean per element, with the same length and order. |
| `JsonBeans.JSONObjectReadable` | client/src/main/java/org/apache/oozie/client/rest/JsonWorkflowActionEvent.java:44-60 | The object written for an event becomes a bean when its formatted date parses. |
| `JsonBeans.JSONArrayReadable` | client/src/main/java/org/apache/oozie/client/rest/JsonWorkflowActionEvent.java:100-123 | An array written by `toJSONArray` reads back without an exception when the parser accepts every formatted date. |
| `JsonBeans.JSONArrayRoundTrip` | client/src/main/java/org/apache/oozie/client/rest/JsonWorkflowActionEvent.java:100-123 | An array and back keeps the length, the order, and each event's type, message and action id. |
| `EventServlet.DoPost` | core/src/main/java/org/apache/oozie/servlet/ActionEventListenerServlet.java:45-73 | A null or non-JSON content type gives 415 with its message. A body that does not parse gives 400 with its message. A body that parses to something other than an array throws `ClassCastException`. For an array, the post throws exactly when some element cannot become a bean, and the exception is the one of the first such element. Otherwise the status is 200 with one new bean per element, in order. The engine gets the whole list exactly when it is non-empty; an empty array is neither an error nor a call, and nothing is submitted when an exception is thrown. |
| `EventServlet.SenderContentTypeAccepted` | core/src/main/java/org/apache/oozie/servlet/ActionEventListenerServlet.java:48 | The sender's `application/json; charset=utf-8` passes the prefix test. |
| `EventServlet.ContentTypeIsCaseSensitive` | core/src/main/java/org/apache/oozie/servlet/ActionEventListenerServlet.java:48 | The test is case-sensitive: `Application/json` is refused. |
| `EventServlet.DeliveredEvent` | core/src/main/java/org/apache/oozie/servlet/ActionEventListenerServlet.java:60-63 | The bean built from one decoded object has the event's type, action id and message, with null as `""`. Its timestamp is the parse of the date text. |
| `EventServlet.DeliveredBatch` | core/src/main/java/org/apache/oozie/servlet/ActionEventListenerServlet.java:54-63 | What the sender posts decodes to one object per event, in order, and each becomes the bean above. |
| `EventServlet.DeliveredEventFailure` | core/src/main/java/org/apache/oozie/servlet/ActionEventListenerServlet.java:61 | A delivered event makes the post throw exactly when the date parser rejects its timestamp text. An event without a timestamp travels as the text `null`, so it makes the post throw whenever the parser rejects `null`. |
| `BeanStore.WriteTokens` | core/src/main/java/org/apache/oozie/WorkflowActionEventBean.java:51-57 | `write` emits exactly four values. |
| `BeanStore.DataOutput.WriteStr` | core/src/main/java/org/apache/oozie/WorkflowActionEventBean.java:53 | A string, possibly null, is appended to the stream. |
| `BeanStore.DataOutput.WriteLong` | core/src/main/java/org/apache/oozie/WorkflowActionEventBean.java:54 | A `long` is appended to the stream. |
| `BeanStore.DataInput.ReadStr` | core/src/main/java/org/apache/oozie/WorkflowActionEventBean.java:42 | Succeeds iff a string comes next, and consumes it. Otherwise nothing is consumed. |
| `BeanStore.DataInput.ReadLong` | core/src/main/java/org/apache/oozie/WorkflowActionEventBean.java:43 | Succeeds iff a `long` comes next, and consumes it. Otherwise nothing is consumed. |
| `BeanStore.Write` | core/src/main/java/org/apache/oozie/WorkflowActionEventBean.java:51-57 | Appends the action id, the timestamp millis (-1 for null), the type and the message, in that order. |
| `BeanStore.ReadFieldsInto` | core/src/main/java/org/apache/oozie/WorkflowActionEventBean.java:41-49 | Reads in the same order, setting one field per value. -1 leaves the timestamp alone. A failed read stops with the earlier fields already set. |
| `BeanStore.WriteReadRoundTrip` | core/src/main/java/org/apache/oozie/WorkflowActionEventBean.java:41-57 | Reading what `write` emitted into a new bean reproduces all four fields, whenever the timestamp is null or its millis are not -1. |
| `BeanStore.MinusOneWrittenAsNull` | core/src/main/java/org/apache/oozie/WorkflowActionEventBean.java:54 | A timestamp of exactly -1 ms is written just as a null timestamp is. |
| `BeanStore.MinusOneKeepsTimestamp` | core/src/main/java/org/apache/oozie/WorkflowActionEventBean.java:43-46 | Reading -1 keeps the bean's existing timestamp rather than nulling it. |
| `BeanStore.MinusOneLostInRoundTrip` | core/src/main/java/org/apache/oozie/WorkflowActionEventBean.java:41-57 | An event stamped -1 ms comes back with a null timestamp. |
| `BeanStore.RowsFor` | core/src/main/java/org/apache/oozie/WorkflowActionEventBean.java:23 | The `where w.actionId = :actionId` filter keeps only rows of that action. |
| `BeanStore.RowsNotFor` | core/src/main/java/org/apache/oozie/WorkflowActionEventBean.java:21 | The rows a delete keeps are none of that action. |
| `BeanStore.InsertDesc` | core/src/main/java/org/apache/oozie/WorkflowActionEventBean.java:23 | `order by w.timestamp desc`: inserting into a descending list keeps it descending, with the same rows plus one. |
| `BeanStore.EventStore.InsertAll` | core/src/main/java/org/apache/oozie/command/wf/ActionEventListCommand.java:24-27 | Storing a batch appends its events after the rows already there. |
| `BeanStore.EventStore.DeleteForAction` | core/src/main/java/org/apache/oozie/WorkflowActionEventBean.java:21 | Delete-for-action keeps exactly the rows of other actions, in order. |
| `BeanStore.EventStore.ListForAction` | core/src/main/java/org/apache/oozie/WorkflowActionEventBean.java:23 | List-for-action returns exactly that action's rows, as a multiset, sorted by timestamp descending. |
| `BeanStore.EventStore.CountForAction` | core/src/main/java/org/apache/oozie/WorkflowActionEventBean.java:27 | The count equals the number of that action's rows, which is the length of list-for-action. |
| `BeanStore.EventStore.ListEventColumns` | core/src/main/java/org/apache/oozie/WorkflowActionEventBean.java:25 | Every row, as a multiset, sorted by timestamp descending. |
| `BeanStore.DeleteRemovesAction` | core/src/main/java/org/apache/oozie/WorkflowActionEventBean.java:21 | After delete-for-action, the action has no rows left. |
| `BeanStore.DeleteKeepsOthers` | core/src/main/java/org/apache/oozie/WorkflowActionEventBean.java:21 | Delete-for-action leaves every other action's rows unchanged, in order. |
| `BeanStore.RowsForAppend` | core/src/main/java/org/apache/oozie/WorkflowActionEventBean.java:23 | After a batch is stored, an action's rows are its earlier rows, then the batch's. |
| `BeanStore.TwoBatchesOfTwoActions` | core/src/main/java/org/apache/oozie/WorkflowActionEventBean.java:23 | After N events of one action and M of another are stored, each action's rows are exactly its own batch. |

## Left out

- The sender thread and the log-observer thread: `start`, `sleep`, `join`, the `volatile` stop flags and their interleavings. This is concurrency. One sender cycle (`RunCycle`) and the final flush (`FinalFlush`) are sequential methods, and `Finish` runs the final flush directly.
- Aliasing of queued events: an event an action changes after queueing it would be sent with the new values. The model reads the values when the batch is drained.
- HTTP and HTTPS connection handling, the Basic authorization header (commons-codec Base64) and the UTF-8 `Content-Length`. These are network I/O and a foreign library. The server's answer is the `Response` input.
- `SimpleDateFormat` RFC 822 formatting and `JsonUtils.parseDateRfc822`. These are a date library; both are function parameters. `FormatterRawSafe` assumes only that the formatted dates contain no quote or backslash.
- `JSONValue.parse` and the json-simple classes. This is a foreign parser. Its result is the `ParsedBody` input: null, a value that is not an array, or an array of objects, nulls and other values. An object maps each key to a text or null.
- `EventServlet.DoPost`: an object field that holds a number, boolean, array or object, rather than a text, throws `ClassCastException` in Java. The model's objects hold only texts, so it does not model that exception.
- `EventServlet.DoPost`: the exception thrown for a rejected date is named `DateParseException`. `JsonUtils` is not part of this model, so the Java exception class is not fixed here.
- `JsonBeans.FromJSONObject`: a date text that `parseDateRfc822` rejects throws in Java. The function gives a None timestamp for it. `JsonBeans.NewFromElement` checks the date before it builds a bean, and it models the throw. `JsonBeans.FromJSONArray` and `EventServlet.DoPost` build their beans through it.
- `JsonBeans.JsonWorkflowActionEvent.FromJSON`: a Dafny constructor cannot throw, so for a rejected date it gives a None timestamp where Java throws. The throw is modelled by `JsonBeans.NewFromElement`, the only caller of the constructor.
- ActionEventHandler's progress and error messages on standard output (`System.out`) and its `printStackTrace` calls. This is console output with no effect on the events.
- `WireCodec.EscapeLength`, and the escaper in general, work on Dafny characters, which are Unicode scalar values. Java strings are UTF-16 code units, so a character outside the Basic Multilingual Plane counts as two there.
- `WritableUtils.readStr`/`writeStr`, which is not part of this model: the stream is a sequence of tokens that carry strings and longs whole.
- JaqlMain's file reading, log tailing, `JaqlShell.main`, `Properties.store` and console output. These are I/O and a foreign runtime. A log file is an optional sequence of lines, and path existence is a predicate parameter.
- `Jaql.Configuration.Get`: Hadoop's `Configuration.get` replaces `${name}` references in a value with other properties and system properties before returning it. The model returns the stored text unexpanded. Hadoop's `Configuration` class is not part of this model. So `Jaql.SetJaqlScript` reading back the eval text, and the `-e` argument of `Jaql.BuildArguments` being that text, hold only for eval texts without such references.
- `Jaql.BuildArguments`: `File.pathSeparatorChar` and `File.separatorChar` are fixed to their POSIX values `:` and `/`.
- `MapReduceMain.setStrings`/`getStrings`, which is not part of this model. The configuration keeps string lists in a separate map.
- `JsonTags`, which is not part of this model. The tags are taken to be `type`, `message`, `actionId` and `timestamp`, the keys the sender writes.
- JaqlActionExecutor.java: Hadoop file-system writes, distributed-cache setup and XML parsing. These are I/O.
- The `WorkflowActionEvent` interface. It has no behaviour.
- JPA and the persistence engine. The named queries are modelled over a sequence of rows. The engine's `insertActionEventList` is modelled as `EventStore.InsertAll`, appending after the existing rows.
- `BeanStore.EventStore.ListForAction`: rows with equal timestamps may come in any order, because SQL leaves ties unordered. Null timestamps are placed first in descending order, as in databases that sort nulls high.
- `JavaStrings.ParseInt`: accepts ASCII digits only. Java also accepts other Unicode decimal digits.
- `ActionEvents.ActionEventHandler.constructor`: requires a parsable interval property when a callback URL is set. A malformed one makes the Java constructor throw `NumberFormatException`, which is not modelled.
- `ActionEvents.EventSender.SendEvents`: the error keeps the status code and the response text as two fields, rather than the formatted `IOException` message.
- `ActionEvents.EventSender.FinalFlush`: the standard-error text omits the line terminator `println` adds.
- `ActionEvents.EventSender.RunCycle`: an exception thrown by `Thread.sleep` is not modelled. It would only be printed.
