/**
 * The records the client receives from the server, as its components see them after `JSON.parse`, and the
 * outcome of one API call.
 *
 * Durations are integer tenths of an hour (the column is DECIMAL(3,1)); `created_at` is a timestamp in
 * milliseconds; dates and times stay the strings the forms and the server exchange.
 */
module Records {
  import opened Common
  import opened Json

  /** One event of the current user. `duration` is `None` when the record carries no `duration_hours`. */
  datatype Event = Event(
    id: int, userId: int, title: string, description: string, eventType: string, subject: string,
    location: string, eventDate: string, startTime: string, duration: Option<int>, createdAt: int)

  /** One task of the current user. */
  datatype Task = Task(
    id: int, userId: int, title: string, description: string, priority: string, isCompleted: bool,
    dueDate: string, createdAt: int)

  /** One entry of `/schedule` (the upcoming events the dashboard lists). */
  datatype ScheduleItem = ScheduleItem(
    id: int, title: string, eventType: string, subject: string, location: string, eventDate: string,
    startTime: string, duration: int)

  /**
   * How an awaited API call ends: with the response body, or rejected. A rejection carries
   * `error.response?.data`: `None` when no response arrived at all.
   */
  datatype Reply<T> = Success(data: T) | Failure(body: Option<Value>)

  /**
   * `error.response?.data?.error || fallback`: the server's `error` text when the rejected call brought a
   * JSON object with a truthy `error` member, otherwise the fixed fallback.
   */
  function ErrorText(body: Option<Value>, fallback: string): (r: string)
    ensures (body.Some? && body.value.JObj? && TruthyOpt(Get(body.value.members, "error"))) ==>
              r == ToJsString(Get(body.value.members, "error").value)
    ensures !(body.Some? && body.value.JObj? && TruthyOpt(Get(body.value.members, "error"))) ==> r == fallback
  {
    if body.Some? && body.value.JObj? then
      var e := Get(body.value.members, "error");
      if TruthyOpt(e) then ToJsString(e.value) else fallback
    else fallback
  }
}
