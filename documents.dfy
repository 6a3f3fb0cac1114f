/** The documents that the Task Metrics API keeps in its two collections,
    `tasks` and `events`, and the results its endpoints return. */
module Documents {

  datatype Option<T> = None | Some(value: T)

  /** Identifiers are the text of a UUID; the model never looks inside one. */
  type Id = string

  /** A clock reading taken when a document is written, in microseconds
      since the epoch, the resolution of a Python `datetime`. */
  type Timestamp = nat

  /** The reading a BSON datetime keeps: whole milliseconds, rounded down.
      The store writes this; the endpoint's response carries the full
      reading. */
  function StoredTime(now: Timestamp): (r: Timestamp)
    ensures r <= now < r + 1000
    ensures r % 1000 == 0
    ensures now % 1000 == 0 ==> r == now
  {
    now - now % 1000
  }

  // Metric kinds a task may name (any other string is stored as given).
  const COUNT := "count"
  const TIMER := "timer"
  const CHECK := "check"

  // Event types the summary looks at (any other string is stored as given).
  const INCREMENT := "increment"
  const TIMER_START := "timer_start"
  const TIMER_STOP := "timer_stop"
  const CHECKED := "check"

  // Defaults the request body falls back to when a field is omitted.
  const DEFAULT_COLOR := "#6366F1"
  const DEFAULT_METRIC := COUNT

  // The range of a BSON 64-bit integer, the widest integer the store can write.
  const INT64_MIN: int := -0x8000_0000_0000_0000
  const INT64_MAX: int := 0x7FFF_FFFF_FFFF_FFFF

  /** An optional integer field the store can encode: missing (BSON null), or
      an integer within 64 bits. A larger integer makes the encoder raise
      before anything is sent to the store. */
  predicate FitsInt64(v: Option<int>) {
    v.None? || INT64_MIN <= v.value <= INT64_MAX
  }

  /** The body of a create-task request. `metric` is free text and `goal`
      any integer: neither is validated by the request model. */
  datatype TaskCreate = TaskCreate(name: string, color: string, metric: string, goal: Option<int>)

  /** A create-task request with every optional field left out. */
  function DefaultTaskCreate(name: string): TaskCreate {
    TaskCreate(name, DEFAULT_COLOR, DEFAULT_METRIC, None)
  }

  /** A document of the `tasks` collection. */
  datatype Task = Task(id: Id, name: string, color: string, metric: string, goal: Option<int>,
                       createdAt: Timestamp)

  /** A document of the `events` collection; `kind` is the document's `type`
      field and is free text. */
  datatype Event = Event(id: Id, taskId: Id, kind: string, value: Option<int>, at: Timestamp)

  /** The error results of the API: an unknown task id (HTTP 404), an id the
      unique index on `tasks.id` refuses, and an integer too wide for the
      store's encoder. The last two become a server error. */
  datatype Error = NotFound | DuplicateKey | Overflow

  datatype Result<T> = Ok(value: T) | Err(error: Error)
}
