/** The API's endpoints over the two collections, kept in memory: a class
    whose fields are the `tasks` and `events` collections in insertion order,
    and whose methods change them as the endpoints' store calls do. */
module Store {
  import opened Documents
  import opened Collections
  import opened Aggregation

  /** The loop of the count and timer branches of the summary: walks the
      cursor, adding `int(e.value or d)` for each event. */
  method SumCursor(cursor: seq<Event>, d: int) returns (total: int)
    ensures total == SumOr(cursor, d)
  {
    total := 0;
    var i := 0;
    while i < |cursor|
      invariant 0 <= i <= |cursor|
      invariant total == SumOr(cursor[..i], d)
    {
      assert cursor[..i + 1][..i] == cursor[..i];
      total := total + OrValue(cursor[i].value, d);
      i := i + 1;
    }
    assert cursor[..i] == cursor;
  }

  class TaskStore {
    var tasks: seq<Task>
    var events: seq<Event>

    /** Task ids are unique (the unique index on `tasks.id`), every event
        names a stored task (events are only written for a stored task, and
        deleting a task deletes its events), and every stored integer fits
        in 64 bits (the encoder refuses any other). */
    ghost predicate Valid()
      reads this
    {
      UniqueIds(tasks) && EventsBelong(tasks, events) && FieldsFit(tasks, events)
    }

    constructor ()
      ensures Valid() && tasks == [] && events == []
    {
      tasks := [];
      events := [];
    }

    /** `list_tasks`: every stored task, in the collection's order. */
    method ListTasks() returns (items: seq<Task>)
      ensures items == tasks
    {
      items := [];
      var i := 0;
      while i < |tasks|
        invariant 0 <= i <= |tasks|
        invariant items == tasks[..i]
      {
        items := items + [tasks[i]];
        i := i + 1;
      }
    }

    /** `create_task`: stores a task under the id `tid` drawn for it and
        returns it with the clock reading `now`; the stored copy keeps the
        reading only to the millisecond. A goal
        wider than 64 bits fails to encode, and an id already stored is
        refused by the unique index; either way nothing changes. Encoding
        comes first, so a too-wide goal is reported whatever the id. */
    method CreateTask(tid: Id, payload: TaskCreate, now: Timestamp) returns (r: Result<Task>)
      requires Valid()
      modifies this
      ensures Valid() && events == old(events)
      ensures !FitsInt64(payload.goal) ==> r == Err(Overflow) && tasks == old(tasks)
      ensures FitsInt64(payload.goal) && tid in old(Ids(tasks)) ==>
                r == Err(DuplicateKey) && tasks == old(tasks)
      ensures FitsInt64(payload.goal) && tid !in old(Ids(tasks)) ==>
                r == Ok(Task(tid, payload.name, payload.color, payload.metric, payload.goal, now)) &&
                tasks == old(tasks) + [r.value.(createdAt := StoredTime(now))]
      ensures Ids(tasks) == old(Ids(tasks)) + (if FitsInt64(payload.goal) then {tid} else {})
    {
      if !FitsInt64(payload.goal) {
        return Err(Overflow);
      }
      if FindTask(tasks, tid).Some? {
        return Err(DuplicateKey);
      }
      var doc := Task(tid, payload.name, payload.color, payload.metric, payload.goal, now);
      var kept := doc.(createdAt := StoredTime(now));
      UniqueIdsSnoc(tasks, kept);
      tasks := tasks + [kept];
      assert Ids(tasks) == old(Ids(tasks)) + {tid};
      r := Ok(doc);
    }

    /** `delete_task`: deletes the task and all of its events, and reports
        success whether or not the task was stored. */
    method DeleteTask(tid: Id) returns (ok: bool)
      requires Valid()
      modifies this
      ensures Valid() && ok
      ensures tasks == DeleteOne(old(tasks), tid)
      ensures events == WithoutEvents(old(events), tid)
      ensures Ids(tasks) == old(Ids(tasks)) - {tid}
    {
      DeleteOneRemovesId(tasks, tid);
      tasks := DeleteOne(tasks, tid);
      events := WithoutEvents(events, tid);
      ok := true;
    }

    /** `create_event`: appends one event for a stored task, under the id
        `eid` and clock reading `now` drawn for it. An unknown task is Not
        Found, and a value wider than 64 bits fails to encode; either way the
        log is left as it was. Neither `kind` nor the sign of `value` is
        validated. As for tasks, the stored `at` is the reading to the
        millisecond, while the returned event carries all of it. */
    method CreateEvent(tid: Id, eid: Id, kind: string, value: Option<int>, now: Timestamp)
      returns (r: Result<Event>)
      requires Valid()
      modifies this
      ensures Valid() && tasks == old(tasks)
      ensures tid !in Ids(tasks) ==> r == Err(NotFound) && events == old(events)
      ensures tid in Ids(tasks) && !FitsInt64(value) ==> r == Err(Overflow) && events == old(events)
      ensures tid in Ids(tasks) && FitsInt64(value) ==>
                r == Ok(Event(eid, tid, kind, value, now)) &&
                events == old(events) + [r.value.(at := StoredTime(now))]
    {
      if FindTask(tasks, tid).None? {
        return Err(NotFound);
      }
      if !FitsInt64(value) {
        return Err(Overflow);
      }
      var doc := Event(eid, tid, kind, value, now);
      events := events + [doc.(at := StoredTime(now))];
      r := Ok(doc);
    }

    /** `task_summary`: the task's progress, computed from the log. */
    method TaskSummary(tid: Id) returns (r: Result<Summary>)
      ensures r == Summarize(tasks, events, tid)
    {
      var found := FindTask(tasks, tid);
      if found.None? {
        return Err(NotFound);
      }
      var t := found.value;
      if t.metric == COUNT {
        var total := SumCursor(Query(events, tid, INCREMENT), 1);
        r := Ok(CountSummary(total, t.goal));
      } else if t.metric == TIMER {
        var totalSec := SumCursor(Query(events, tid, TIMER_STOP), 0);
        r := Ok(TimerSummary(totalSec, t.goal));
      } else if t.metric == CHECK {
        r := Ok(CheckSummary(CheckCount(events, tid) > 0));
      } else {
        r := Ok(UnknownMetric);
      }
    }
  }

  // -----------------------------------------------------------------------
  // How the endpoints' changes to the collections move the summaries.

  lemma {:induction false} QueryOfAbsentTask(es: seq<Event>, tid: Id, kind: string)
    requires forall e :: e in es ==> e.taskId != tid
    ensures Query(es, tid, kind) == []
  {
    if es != [] {
      var init := es[..|es| - 1];
      assert es == init + [es[|es| - 1]];
      QueryOfAbsentTask(init, tid, kind);
    }
  }

  lemma {:induction false} QueryAfterDeleteMany(es: seq<Event>, x: Id, u: Id, kind: string)
    requires u != x
    ensures Query(WithoutEvents(es, x), u, kind) == Query(es, u, kind)
  {
    if es != [] {
      var init, last := es[..|es| - 1], es[|es| - 1];
      QueryAfterDeleteMany(init, x, u, kind);
      QueryAppend(WithoutEvents(init, x), if last.taskId != x then [last] else [], u, kind);
      assert [last][..0] == [];
      assert Query([last], u, kind) == if Matches(last, u, kind) then [last] else [];
    }
  }

  lemma {:induction false} WithoutEventsOfAbsentTask(es: seq<Event>, x: Id)
    requires forall e :: e in es ==> e.taskId != x
    ensures WithoutEvents(es, x) == es
  {
    if es != [] {
      var init := es[..|es| - 1];
      assert es == init + [es[|es| - 1]];
      WithoutEventsOfAbsentTask(init, x);
    }
  }

  /** After `create_task` stores `t` under a free id, every other task's
      summary is unchanged, and the new task starts from nothing: total 0,
      0 seconds or not done, with its goal echoed. */
  lemma SummaryAfterCreateTask(ts: seq<Task>, es: seq<Event>, t: Task, u: Id)
    requires EventsBelong(ts, es)
    requires t.id !in Ids(ts)
    ensures u != t.id ==> Summarize(ts + [t], es, u) == Summarize(ts, es, u)
    ensures t.metric == COUNT ==> Summarize(ts + [t], es, t.id) == Ok(CountSummary(0, t.goal))
    ensures t.metric == TIMER ==> Summarize(ts + [t], es, t.id) == Ok(TimerSummary(0, t.goal))
    ensures t.metric == CHECK ==> Summarize(ts + [t], es, t.id) == Ok(CheckSummary(false))
    ensures t.metric !in {COUNT, TIMER, CHECK} ==> Summarize(ts + [t], es, t.id) == Ok(UnknownMetric)
  {
    FindTaskAfterInsert(ts, t, u);
    FindTaskAfterInsert(ts, t, t.id);
    QueryOfAbsentTask(es, t.id, INCREMENT);
    QueryOfAbsentTask(es, t.id, TIMER_STOP);
    QueryOfAbsentTask(es, t.id, CHECKED);
  }

  lemma SummaryOfAfterDeleteMany(t: Task, es: seq<Event>, x: Id)
    requires t.id != x
    ensures SummaryOf(t, WithoutEvents(es, x)) == SummaryOf(t, es)
  {
    QueryAfterDeleteMany(es, x, t.id, INCREMENT);
    QueryAfterDeleteMany(es, x, t.id, TIMER_STOP);
    QueryAfterDeleteMany(es, x, t.id, CHECKED);
  }

  /** After `delete_task` removes `x` and its events, `x` is Not Found and
      every other task's summary is unchanged. */
  lemma SummaryAfterDeleteTask(ts: seq<Task>, es: seq<Event>, x: Id, u: Id)
    requires UniqueIds(ts)
    ensures Summarize(DeleteOne(ts, x), WithoutEvents(es, x), x) == Err(NotFound)
    ensures u != x ==> Summarize(DeleteOne(ts, x), WithoutEvents(es, x), u) == Summarize(ts, es, u)
  {
    DeleteOneRemovesId(ts, x);
    if u != x {
      FindTaskAfterDelete(ts, x, u);
      if FindTask(ts, u).Some? {
        SummaryOfAfterDeleteMany(FindTask(ts, u).value, es, x);
      }
    }
  }

  /** `delete_task` of an id that is not stored changes neither collection. */
  lemma DeleteAbsentTaskIsNoOp(ts: seq<Task>, es: seq<Event>, x: Id)
    requires EventsBelong(ts, es)
    requires x !in Ids(ts)
    ensures DeleteOne(ts, x) == ts && WithoutEvents(es, x) == es
  {
    WithoutEventsOfAbsentTask(es, x);
  }

  lemma SummaryOfAfterAppendElsewhere(t: Task, es: seq<Event>, e: Event)
    requires e.taskId != t.id
    ensures SummaryOf(t, es + [e]) == SummaryOf(t, es)
  {
    CountTotalAfterAppend(es, e, t.id);
    TimerTotalAfterAppend(es, e, t.id);
    QueryAppend(es, [e], t.id, CHECKED);
    assert [e][..0] == [];
    assert Query([e], t.id, CHECKED) == [];
  }

  /** After `create_event` appends `e`, the summary of every other task is
      unchanged. */
  lemma SummaryAfterCreateEventElsewhere(ts: seq<Task>, es: seq<Event>, e: Event, u: Id)
    requires e.taskId != u
    ensures Summarize(ts, es + [e], u) == Summarize(ts, es, u)
  {
    if FindTask(ts, u).Some? {
      SummaryOfAfterAppendElsewhere(FindTask(ts, u).value, es, e);
    }
  }

  /** On a count task, appending an `increment` with a non-zero value `v`
      raises `total` by exactly `v` (by 1 for a missing or zero value), and
      any other event of the task leaves the summary unchanged; the goal is
      echoed throughout. */
  lemma SummaryAfterIncrement(t: Task, es: seq<Event>, e: Event)
    requires t.metric == COUNT && e.taskId == t.id
    ensures SummaryOf(t, es).CountSummary? && SummaryOf(t, es + [e]).CountSummary?
    ensures SummaryOf(t, es + [e]).goal == t.goal
    ensures e.kind == INCREMENT && e.value.Some? && e.value.value != 0 ==>
              SummaryOf(t, es + [e]).total == SummaryOf(t, es).total + e.value.value
    ensures e.kind == INCREMENT && (e.value == None || e.value == Some(0)) ==>
              SummaryOf(t, es + [e]).total == SummaryOf(t, es).total + 1
    ensures e.kind != INCREMENT ==> SummaryOf(t, es + [e]) == SummaryOf(t, es)
  {
    CountTotalAfterAppend(es, e, t.id);
  }

  /** On a timer task, appending a `timer_stop` adds its duration (nothing
      for a missing value), and any other event of the task, `timer_start`
      included, leaves the summary unchanged; the goal is echoed throughout. */
  lemma SummaryAfterTimerEvent(t: Task, es: seq<Event>, e: Event)
    requires t.metric == TIMER && e.taskId == t.id
    ensures SummaryOf(t, es).TimerSummary? && SummaryOf(t, es + [e]).TimerSummary?
    ensures SummaryOf(t, es + [e]).goal == t.goal
    ensures e.kind == TIMER_STOP ==>
              SummaryOf(t, es + [e]).totalSec ==
                SummaryOf(t, es).totalSec + (if e.value.Some? then e.value.value else 0)
    ensures e.kind != TIMER_STOP ==> SummaryOf(t, es + [e]) == SummaryOf(t, es)
  {
    TimerTotalAfterAppend(es, e, t.id);
  }

  /** On a check task, appending a `check` event makes it done, once done it
      stays done whatever is appended, and no other event changes it. */
  lemma SummaryAfterCheckEvent(t: Task, es: seq<Event>, e: Event)
    requires t.metric == CHECK && e.taskId == t.id
    ensures SummaryOf(t, es).CheckSummary? && SummaryOf(t, es + [e]).CheckSummary?
    ensures e.kind == CHECKED ==> SummaryOf(t, es + [e]).done
    ensures SummaryOf(t, es).done ==> SummaryOf(t, es + [e]).done
    ensures e.kind != CHECKED ==> SummaryOf(t, es + [e]) == SummaryOf(t, es)
  {
  }

  /** A client of the store: what the contracts let a caller conclude about a
      short session of requests. */
  method Session(tid: Id, other: Id, eid: Id, name: string, now: Timestamp)
    requires tid != other
  {
    var payload := DefaultTaskCreate(name);
    var store := new TaskStore();
    var created := store.CreateTask(tid, payload, now);
    assert created.Ok? && created.value.id == tid && created.value.createdAt == now;
    var kept := created.value.(createdAt := StoredTime(now));
    var listed := store.ListTasks();
    assert listed == [kept] && tid in Ids(listed);
    assert now % 1000 != 0 ==> created.value !in listed;

    var missing := store.CreateEvent(other, eid, INCREMENT, Some(2), now);
    assert missing == Err(NotFound) && store.events == [];

    SummaryAfterCreateTask([], [], kept, tid);
    var before := store.TaskSummary(tid);
    assert before == Ok(CountSummary(0, payload.goal));

    var wide := store.CreateEvent(tid, eid, INCREMENT, Some(INT64_MAX + 1), now);
    assert wide == Err(Overflow) && store.events == [];

    var logged := store.CreateEvent(tid, eid, INCREMENT, Some(2), now);
    assert store.events == [] + [logged.value.(at := StoredTime(now))];
    SummaryAfterIncrement(kept, [], store.events[0]);
    var after := store.TaskSummary(tid);
    assert after == Ok(CountSummary(2, payload.goal));

    var stored, log := store.tasks, store.events;
    var ok := store.DeleteTask(tid);
    SummaryAfterDeleteTask(stored, log, tid, tid);
    var gone := store.TaskSummary(tid);
    assert gone == Err(NotFound);
  }
}
