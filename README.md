# Task Metrics API: event-sourced summaries, in Dafny

The Task Metrics API stores user-defined tasks and an append-only log of activity
events. It never keeps a running counter. A task's progress summary is worked out
from the log each time it is asked for, and the task's metric kind decides how:

- **count**: `total` is the sum of the task's `increment` values;
- **timer**: `total_sec` is the sum of its `timer_stop` durations;
- **check**: `done` says whether any `check` event was recorded;
- any other metric gives the "Unknown metric" answer.

The model covers the summary endpoint and the four endpoints that change or read
the two collections: list tasks, create task, delete task and record event.

- `documents.dfy` (module `Documents`): the task and event documents, the metric
  and event-type names, the request defaults, the 64-bit range of a BSON integer
  (`FitsInt64`), the millisecond resolution of a BSON datetime (`StoredTime`),
  and the `Result` of an endpoint (`NotFound` for HTTP 404,
  `DuplicateKey` for an id the unique index refuses, `Overflow` for an integer
  the store's encoder cannot write).
- `collections.dfy` (module `Collections`): the store primitives the endpoints
  call, as functions over each collection in insertion order: `find_one` by id
  (`FindTask`), `delete_one` by id (`DeleteOne`) and `delete_many` by task id
  (`WithoutEvents`). Also the lemmas that show what the unique index on
  `tasks.id` buys.
- `aggregation.dfy` (module `Aggregation`): the summary as functions. `Query` is
  the cursor of `find({"task_id": …, "type": …})`. `OrValue` is Python's
  `int(v or d)`. `SumOr` is the loop's accumulator. `CountTotal`, `TimerTotal`
  and `CheckCount` build the three branches from these, and `Summarize` is the
  whole endpoint. `SummaryOf(t, es)` is the dispatch on a stored task's metric
  (backend/server.py:126-143). For a stored task under unique ids,
  `Summarize(ts, es, t.id) == Ok(SummaryOf(t, es))` (`SummarizeStoredTask`), so
  the lemmas stated on `SummaryOf` are about the endpoint's answer. `Tally` is
  an independent reference: it sums every event's contribution from the head
  of the log. The lemmas cover appending events, the
  events a summary ignores, order independence, and the shape of each summary.
- `store.dfy` (module `Store`): class `TaskStore`, whose fields `tasks` and
  `events` are the two collections. Its methods are the endpoints.
  `TaskSummary` and `ListTasks` run the source's loops and are proved to compute
  `Summarize` and the task list. The mutating methods keep an invariant: ids
  are unique, every event belongs to a stored task, and every stored goal and
  value fits in 64 bits. The lemmas after the class show how each change to the
  collections moves the summaries. `Session` is a client that uses only the
  contracts.

The model keeps these behaviours of the code, though a reader of the API might expect otherwise:

- `int(value or 1)` counts an increment of value 0 as 1, not only a missing one.
- Negative values and goals are accepted. Nothing checks that they are non-negative.
- A `timer_stop` with no value adds 0; it is not rejected.
- `create_event` stores any event type and any value within 64 bits; it
  validates neither. Pymongo's BSON encoder refuses an integer outside
  [-2^63, 2^63) before anything is written. The request then fails with a
  server error, and nothing is stored; the model returns `Err(Overflow)`. A
  task's `goal` is limited the same way.
- The stored `created_at` and `at` are not the values the endpoints return.
  The response is built from the local document and keeps the microseconds of
  `datetime.utcnow()`. The BSON datetime that is written keeps whole
  milliseconds, rounded down, and `list_tasks` reads back that value. With
  `Timestamp` in microseconds, the store keeps `StoredTime(now)`.
- The metric is free text. An unrecognised metric is stored and summarised as
  "Unknown metric", not refused when the task is created.

## Model

| member | source | states |
|---|---|---|
| `Collections.FindTask` | backend/server.py:105-107 | the task found has the asked id and is stored; nothing is found exactly when no stored task has that id |
| `Collections.DeleteOne` | backend/server.py:94 | an absent id leaves the tasks as they were; otherwise one task fewer, every task with another id kept, nothing added |
| `Collections.WithoutEvents` | backend/server.py:95 | the events left are exactly the stored events of other tasks |
| `Collections.UniqueIdsSnoc` | backend/server.py:61 | appending a task keeps ids unique if and only if its id was not yet stored |
| `Collections.DeleteOneRemovesId` | backend/server.py:92-96 | with unique ids, deleting removes the id altogether and the remaining ids stay unique |
| `Collections.FindTaskUnique` | backend/server.py:61 | with unique ids, looking up a stored task's id returns that very task |
| `Collections.FindTaskAfterDelete` | backend/server.py:94 | deleting one id does not change the lookup of any other id |
| `Collections.FindTaskAfterInsert` | backend/server.py:88 | inserting a task does not change the lookup of other ids, and a task inserted under a free id is found under it |
| `Aggregation.Query` | backend/server.py:130 | the cursor holds exactly the log's events with the given task id and type, and is no longer than the log |
| `Aggregation.KindOf` | backend/server.py:126-143 | the count, timer and check branches are taken exactly for the metric names "count", "timer" and "check" |
| `Aggregation.Summarize` | backend/server.py:121-125 | the summary is Not Found exactly when the id is not stored, and Not Found is its only error |
| `Aggregation.QueryAppend` | backend/server.py:130 | the cursor over a concatenated log is the concatenation of the two cursors |
| `Aggregation.SumOrAppend` | backend/server.py:129-131 | the loop's accumulator over a concatenated cursor is the sum of the two accumulators |
| `Aggregation.SumOrQueryIsTally` | backend/server.py:129-137 | querying and then summing equals summing each log event's own contribution |
| `Aggregation.TallyPermutation` | backend/server.py:129-137 | the per-event sum is the same for any rearrangement of the same events |
| `Aggregation.CountTotalIsSumOfIncrements` | backend/server.py:128-132 | `total` is the sum over the task's increment events of their value, where a missing value or 0 counts 1 and other events count 0 |
| `Aggregation.CountTotalAfterAppend` | backend/server.py:130-131 | appending an increment for the task with non-zero value v raises `total` by exactly v, by 1 for a missing or zero value; any other event leaves it unchanged |
| `Aggregation.CountTotalIgnoresOthers` | backend/server.py:130 | an event of another type or task, anywhere in the log, never changes `total` |
| `Aggregation.CountTotalOrderInsensitive` | backend/server.py:129-131 | `total` does not depend on the order of the log |
| `Aggregation.TimerTotalIsSumOfStops` | backend/server.py:133-138 | `total_sec` is the sum over the task's `timer_stop` events of their value, a missing value counting 0 |
| `Aggregation.TimerTotalAfterAppend` | backend/server.py:136-137 | appending a `timer_stop` for the task adds its duration; a `timer_start`, or any event that is not a stop of this task, adds nothing |
| `Aggregation.TimerTotalIgnoresOthers` | backend/server.py:136 | an event that is not a `timer_stop` of the task, anywhere in the log, never changes `total_sec` |
| `Aggregation.TimerTotalOrderInsensitive` | backend/server.py:135-137 | `total_sec` does not depend on the order of the log |
| `Aggregation.DoneIffChecked` | backend/server.py:140 | `done` holds if and only if the log holds at least one `check` event of the task |
| `Aggregation.CheckOrderInsensitive` | backend/server.py:140 | `done` does not depend on the order of the log: two logs with the same events give the same answer |
| `Aggregation.DoneIsMonotone` | backend/server.py:139-141 | once done, a check task stays done whatever is appended, and appending a `check` event makes it done |
| `Aggregation.SummarizeStoredTask` | backend/server.py:121-143 | for a stored task the answer is that task's own `SummaryOf`; count and timer summaries carry the reference sums and echo the goal, a check summary carries no goal and says whether a check exists, and any other metric gives "Unknown metric" |
| `Documents.StoredTime` | backend/server.py:86 | the stored time is a whole number of milliseconds, at most the reading and less than a millisecond below it, and equal to it when the reading is already whole |
| `Aggregation.CountExampleTotal` | backend/server.py:128-132 | the example log's increments 1, missing and 3, around a foreign timer stop, total 5 |
| `Aggregation.CountExample` | backend/server.py:128-132 | a count task with goal 5 and increments 1, missing and 3 (plus another task's timer stop) has total 5 and goal 5 |
| `Store.SumCursor` | backend/server.py:129-137 | the loop over a cursor returns the sum of `int(value or d)` over its events |
| `Store.TaskStore.ListTasks` | backend/server.py:70-75 | the loop returns every stored task, in the collection's order |
| `Store.TaskStore.CreateTask` | backend/server.py:77-90 | a goal outside 64 bits fails to encode and nothing changes, whatever the id; otherwise a free id gets a new task with the request's fields and the clock reading, which is returned, while the appended copy keeps the reading to the millisecond; a stored id is refused and nothing changes; events are untouched and the store invariant is kept |
| `Store.TaskStore.DeleteTask` | backend/server.py:92-96 | the task and every event of the task are removed, and nothing else is; the result is ok even for an absent id; the invariant is kept |
| `Store.TaskStore.CreateEvent` | backend/server.py:102-119 | an unknown task is Not Found and the log is unchanged; for a stored task, a value outside 64 bits fails to encode and the log is unchanged; otherwise one event with the given task id, type, value and clock reading is returned, and exactly that event, with the reading kept to the millisecond, is appended after the earlier events |
| `Store.TaskStore.TaskSummary` | backend/server.py:121-143 | the endpoint's loops compute exactly `Summarize` of the current collections |
| `Store.QueryAfterDeleteMany` | backend/server.py:95 | deleting one task's events does not change any other task's cursor |
| `Store.SummaryAfterCreateTask` | backend/server.py:77-90 | a newly created task starts at total 0, 0 seconds or not done, with its goal echoed; other tasks' summaries are unchanged |
| `Store.SummaryAfterDeleteTask` | backend/server.py:92-96 | after deletion the task is Not Found and every other task's summary is unchanged |
| `Store.DeleteAbsentTaskIsNoOp` | backend/server.py:92-96 | deleting an id that is not stored changes neither collection |
| `Store.SummaryAfterCreateEventElsewhere` | backend/server.py:102-119 | recording an event for one task never changes another task's summary |
| `Store.SummaryAfterIncrement` | backend/server.py:128-132 | on a count task, an increment with non-zero value v raises `total` by v (by 1 for missing or 0), other events change nothing, and the goal is echoed |
| `Store.SummaryAfterTimerEvent` | backend/server.py:133-138 | on a timer task, a `timer_stop` adds its duration (0 if missing), other events (`timer_start` too) change nothing, and the goal is echoed |
| `Store.SummaryAfterCheckEvent` | backend/server.py:139-141 | on a check task, a `check` event makes it done, done stays done, and other events change nothing |

## Left out

- Web plumbing is not modelled: the FastAPI application, routing, CORS, the health endpoint and how `HTTPException` becomes a response. Not Found is the result value `Err(NotFound)`.
- Connecting to MongoDB, loading `.env`, the `MONGO_URL` check and creating the indexes are I/O. The collections are two in-memory sequences in insertion order. Of the indexes, only the uniqueness of `tasks.id` is kept, in `Valid()`.
- `uuid.uuid4()` and `datetime.utcnow()` are not modelled. The new id and the clock reading are method parameters; a reading is a count of microseconds since the epoch, and dates before it are not represented. An id already stored gives `DuplicateKey`: the unique index rejects the insert, and the API then answers with a server error.
- Pydantic validation and coercion are library behaviour; `Task(**doc)` and `Event(**doc)` rebuild the same record. The request defaults are kept, as `DEFAULT_COLOR`, `DEFAULT_METRIC` and `DefaultTaskCreate`.
- The `_id` field that Mongo adds, and hides by projection or `doc.pop`, is not modelled.
- `find()` and `count_documents` are given no sort order; the model reads them in insertion order. Every summary is proved not to depend on the order: `total`, `total_sec` and `done` alike.
- Only the 64-bit limit of BSON integers is modelled from the encoder. Strings are stored as given; the document size limit and other encoder errors are not modelled.
- Concurrency is not modelled. In the source, `create_event` checks that the task exists and then inserts, and `delete_task` runs two separate deletes. Requests running at the same time could leave an event whose task is gone. Each method here runs as one atomic step, so the invariant "every event belongs to a stored task" holds only in that model.
- Recurring templates, daily generation, the weekday rule and the daily report are not in the repository's code. They are not part of this model.
