/** The value every part of the pipeline moves around: one action event. */
module Events {
  import opened Wrappers
  import opened JavaStrings

  /** `java.util.Date`: milliseconds since the epoch, held in a Java `long`. */
  datatype Date = Date(millis: Int64)

  /** The four fields of an action event; a Java null is None. */
  datatype EventValue = EventValue(
    actionId: Option<string>,
    eventType: Option<string>,
    message: Option<string>,
    timestamp: Option<Date>)

  /** The two well-known event types. */
  const TypeOther: string := "other"
  const TypeHadoopJobId: string := "hadoop-job-id"

  /** `formatDateRfc822`: renders a date as RFC 822 section 5 text in GMT; library code, so a parameter. */
  type DateFormatter = Date -> string
  /** `parseDateRfc822`: the inverse the server uses; None where the text is not a date. */
  type DateParser = string -> Option<Date>
}
