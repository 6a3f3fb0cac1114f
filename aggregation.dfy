/** The summary endpoint: how a task's metric kind reduces the event log to
    a progress summary. Every function here is over the collections' values;
    `Store.TaskStore.TaskSummary` runs the loops and is proved to compute
    `Summarize`. */
module Aggregation {
  import opened Documents
  import opened Collections

  /** A task's progress as the summary endpoint reports it. */
  datatype Summary =
    | CountSummary(total: int, goal: Option<int>)
    | TimerSummary(totalSec: int, goal: Option<int>)
    | CheckSummary(done: bool)
    | UnknownMetric

  /** The filter `{"task_id": tid, "type": kind}` on one event. */
  predicate Matches(e: Event, tid: Id, kind: string) {
    e.taskId == tid && e.kind == kind
  }

  /** The cursor that `find({"task_id": tid, "type": kind})` yields: the
      matching events, in log order. */
  function Query(es: seq<Event>, tid: Id, kind: string): (r: seq<Event>)
    ensures |r| <= |es|
    ensures forall e :: e in r <==> e in es && Matches(e, tid, kind)
  {
    if es == [] then []
    else
      var init, last := es[..|es| - 1], es[|es| - 1];
      assert es == init + [last];
      Query(init, tid, kind) + (if Matches(last, tid, kind) then [last] else [])
  }

  /** Python's `int(v or d)` on a stored optional integer: a missing value
      and the value 0 are both falsy and give `d`. */
  function OrValue(v: Option<int>, d: int): int {
    if v.Some? && v.value != 0 then v.value else d
  }

  /** The accumulator the summary loop builds over a cursor, adding
      `int(e.value or d)` for each event `e`. */
  function SumOr(cursor: seq<Event>, d: int): int {
    if cursor == [] then 0
    else SumOr(cursor[..|cursor| - 1], d) + OrValue(cursor[|cursor| - 1].value, d)
  }

  /** A count task's `total`: the increments, a missing or zero value counting 1. */
  function CountTotal(es: seq<Event>, tid: Id): int {
    SumOr(Query(es, tid, INCREMENT), 1)
  }

  /** A timer task's `total_sec`: the stopped durations, a missing value counting 0. */
  function TimerTotal(es: seq<Event>, tid: Id): int {
    SumOr(Query(es, tid, TIMER_STOP), 0)
  }

  /** `count_documents({"task_id": tid, "type": "check"})`. */
  function CheckCount(es: seq<Event>, tid: Id): nat {
    |Query(es, tid, CHECKED)|
  }

  /** The branch of the summary endpoint a task's metric selects: the
      three metric names, and anything else. */
  datatype MetricKind = CountKind | TimerKind | CheckKind | OtherKind

  function KindOf(metric: string): (k: MetricKind)
    ensures k == CountKind <==> metric == COUNT
    ensures k == TimerKind <==> metric == TIMER
    ensures k == CheckKind <==> metric == CHECK
  {
    if metric == COUNT then CountKind
    else if metric == TIMER then TimerKind
    else if metric == CHECK then CheckKind
    else OtherKind
  }

  /** The summary of a stored task `t`: its metric decides how the log is
      reduced, and count and timer summaries echo its goal. */
  function SummaryOf(t: Task, es: seq<Event>): Summary {
    match KindOf(t.metric)
    case CountKind => CountSummary(CountTotal(es, t.id), t.goal)
    case TimerKind => TimerSummary(TimerTotal(es, t.id), t.goal)
    case CheckKind => CheckSummary(CheckCount(es, t.id) > 0)
    case OtherKind => UnknownMetric
  }

  /** The summary endpoint's answer for task `tid`: Not Found exactly when
      no stored task has that id, the only error it gives. */
  function Summarize(ts: seq<Task>, es: seq<Event>, tid: Id): (r: Result<Summary>)
    ensures r.Err? <==> tid !in Ids(ts)
    ensures r.Err? ==> r.error == NotFound
  {
    match FindTask(ts, tid)
    case None => Err(NotFound)
    case Some(t) => Ok(SummaryOf(t, es))
  }

  // ---------------------------------------------------------------------
  // An independent reference: the contribution of each event of the log.

  /** What event `e` adds to `tid`'s sum of `kind` events with default `d`. */
  function Weight(e: Event, tid: Id, kind: string, d: int): int {
    if Matches(e, tid, kind) then OrValue(e.value, d) else 0
  }

  /** The sum of every event's weight, walking the log from its head. */
  function Tally(es: seq<Event>, tid: Id, kind: string, d: int): int {
    if es == [] then 0 else Weight(es[0], tid, kind, d) + Tally(es[1..], tid, kind, d)
  }

  // ---------------------------------------------------------------------
  // Structural lemmas.

  /** The store's query distributes over concatenation of the log. */
  lemma {:induction false} QueryAppend(a: seq<Event>, b: seq<Event>, tid: Id, kind: string)
    ensures Query(a + b, tid, kind) == Query(a, tid, kind) + Query(b, tid, kind)
  {
    if b == [] {
      assert a + b == a;
    } else {
      var init, last := b[..|b| - 1], b[|b| - 1];
      assert (a + b)[..|a + b| - 1] == a + init;
      assert (a + b)[|a + b| - 1] == last;
      QueryAppend(a, init, tid, kind);
    }
  }

  /** The loop's accumulator distributes over concatenation of the cursor. */
  lemma {:induction false} SumOrAppend(a: seq<Event>, b: seq<Event>, d: int)
    ensures SumOr(a + b, d) == SumOr(a, d) + SumOr(b, d)
  {
    if b == [] {
      assert a + b == a;
    } else {
      var init := b[..|b| - 1];
      assert (a + b)[..|a + b| - 1] == a + init;
      assert (a + b)[|a + b| - 1] == b[|b| - 1];
      SumOrAppend(a, init, d);
    }
  }

  lemma SumOrQuerySingle(e: Event, tid: Id, kind: string, d: int)
    ensures SumOr(Query([e], tid, kind), d) == Weight(e, tid, kind, d)
  {
  }

  /** The query-then-sum the endpoint performs equals the per-event reference. */
  lemma {:induction false} SumOrQueryIsTally(es: seq<Event>, tid: Id, kind: string, d: int)
    ensures SumOr(Query(es, tid, kind), d) == Tally(es, tid, kind, d)
  {
    if es != [] {
      assert es == [es[0]] + es[1..];
      QueryAppend([es[0]], es[1..], tid, kind);
      SumOrAppend(Query([es[0]], tid, kind), Query(es[1..], tid, kind), d);
      SumOrQuerySingle(es[0], tid, kind, d);
      SumOrQueryIsTally(es[1..], tid, kind, d);
    }
  }

  lemma {:induction false} TallyAppend(a: seq<Event>, b: seq<Event>, tid: Id, kind: string, d: int)
    ensures Tally(a + b, tid, kind, d) == Tally(a, tid, kind, d) + Tally(b, tid, kind, d)
  {
    if a == [] {
      assert a + b == b;
    } else {
      assert (a + b)[0] == a[0];
      assert (a + b)[1..] == a[1..] + b;
      TallyAppend(a[1..], b, tid, kind, d);
    }
  }

  /** Taking one event out of the log takes its weight out of the sum. */
  lemma TallyRemove(b: seq<Event>, k: nat, tid: Id, kind: string, d: int)
    requires k < |b|
    ensures Tally(b, tid, kind, d) == Weight(b[k], tid, kind, d) + Tally(b[..k] + b[k + 1..], tid, kind, d)
  {
    assert b == b[..k] + ([b[k]] + b[k + 1..]);
    TallyAppend(b[..k], [b[k]] + b[k + 1..], tid, kind, d);
    TallyAppend(b[..k], b[k + 1..], tid, kind, d);
    assert ([b[k]] + b[k + 1..])[1..] == b[k + 1..];
  }

  lemma MultisetRemove(a: seq<Event>, b: seq<Event>, k: nat)
    requires a != [] && k < |b| && b[k] == a[0]
    requires multiset(a) == multiset(b)
    ensures multiset(a[1..]) == multiset(b[..k] + b[k + 1..])
  {
    assert a == [a[0]] + a[1..];
    assert b == b[..k] + [b[k]] + b[k + 1..];
    assert multiset(a[1..]) == multiset(a) - multiset{a[0]};
    assert multiset(b[..k] + b[k + 1..]) == multiset(b) - multiset{b[k]};
  }

  /** The sum does not depend on the order of the log: it is the same for
      any rearrangement of the same events. */
  lemma {:induction false} TallyPermutation(a: seq<Event>, b: seq<Event>, tid: Id, kind: string, d: int)
    requires multiset(a) == multiset(b)
    ensures Tally(a, tid, kind, d) == Tally(b, tid, kind, d)
    decreases |a|
  {
    if a == [] {
      assert |b| == |multiset(b)|;
    } else {
      assert a[0] in multiset(b);
      var k :| 0 <= k < |b| && b[k] == a[0];
      MultisetRemove(a, b, k);
      TallyPermutation(a[1..], b[..k] + b[k + 1..], tid, kind, d);
      TallyRemove(b, k, tid, kind, d);
    }
  }

  // ---------------------------------------------------------------------
  // Count tasks.

  /** `total` is the sum over the task's increment events of their value,
      where a missing value or a value of 0 counts as 1. */
  lemma CountTotalIsSumOfIncrements(es: seq<Event>, tid: Id)
    ensures CountTotal(es, tid) == Tally(es, tid, INCREMENT, 1)
    ensures es != [] ==>
              CountTotal(es, tid) == CountTotal(es[1..], tid) +
                (if es[0].taskId != tid || es[0].kind != INCREMENT then 0
                 else if es[0].value == None || es[0].value == Some(0) then 1
                 else es[0].value.value)
  {
    SumOrQueryIsTally(es, tid, INCREMENT, 1);
    if es != [] {
      SumOrQueryIsTally(es[1..], tid, INCREMENT, 1);
    }
  }

  /** Appending one event to the log: an increment for the task raises
      `total` by its value (by 1 when the value is missing or 0); any other
      event leaves `total` as it was. */
  lemma CountTotalAfterAppend(es: seq<Event>, e: Event, tid: Id)
    ensures !Matches(e, tid, INCREMENT) ==> CountTotal(es + [e], tid) == CountTotal(es, tid)
    ensures Matches(e, tid, INCREMENT) && e.value.Some? && e.value.value != 0 ==>
      CountTotal(es + [e], tid) == CountTotal(es, tid) + e.value.value
    ensures Matches(e, tid, INCREMENT) && (e.value == None || e.value == Some(0)) ==>
      CountTotal(es + [e], tid) == CountTotal(es, tid) + 1
  {
    QueryAppend(es, [e], tid, INCREMENT);
    SumOrAppend(Query(es, tid, INCREMENT), Query([e], tid, INCREMENT), 1);
    assert [e][..0] == [];
    if Matches(e, tid, INCREMENT) {
      assert Query([e], tid, INCREMENT) == [e];
    }
  }

  /** An event of another type or of another task, wherever it stands in the
      log, never changes `total`. */
  lemma CountTotalIgnoresOthers(a: seq<Event>, e: Event, b: seq<Event>, tid: Id)
    requires e.taskId != tid || e.kind != INCREMENT
    ensures CountTotal(a + [e] + b, tid) == CountTotal(a + b, tid)
  {
    QueryAppend(a + [e], b, tid, INCREMENT);
    QueryAppend(a, [e], tid, INCREMENT);
    QueryAppend(a, b, tid, INCREMENT);
    assert [e][..0] == [];
    assert Query([e], tid, INCREMENT) == [];
    assert Query(a + [e], tid, INCREMENT) == Query(a, tid, INCREMENT);
  }

  /** `total` is the same however the events of the log are ordered. */
  lemma CountTotalOrderInsensitive(a: seq<Event>, b: seq<Event>, tid: Id)
    requires multiset(a) == multiset(b)
    ensures CountTotal(a, tid) == CountTotal(b, tid)
  {
    SumOrQueryIsTally(a, tid, INCREMENT, 1);
    SumOrQueryIsTally(b, tid, INCREMENT, 1);
    TallyPermutation(a, b, tid, INCREMENT, 1);
  }

  // ---------------------------------------------------------------------
  // Timer tasks.

  /** `total_sec` is the sum over the task's `timer_stop` events of their
      value, a missing value counting 0. */
  lemma TimerTotalIsSumOfStops(es: seq<Event>, tid: Id)
    ensures TimerTotal(es, tid) == Tally(es, tid, TIMER_STOP, 0)
    ensures es != [] ==>
              TimerTotal(es, tid) == TimerTotal(es[1..], tid) +
                (if es[0].taskId != tid || es[0].kind != TIMER_STOP || es[0].value == None then 0
                 else es[0].value.value)
  {
    SumOrQueryIsTally(es, tid, TIMER_STOP, 0);
    if es != [] {
      SumOrQueryIsTally(es[1..], tid, TIMER_STOP, 0);
    }
  }

  /** Appending one event: a `timer_stop` for the task adds its duration; a
      `timer_start`, or any event that is not a `timer_stop` of this task,
      adds nothing. */
  lemma TimerTotalAfterAppend(es: seq<Event>, e: Event, tid: Id)
    ensures !Matches(e, tid, TIMER_STOP) ==> TimerTotal(es + [e], tid) == TimerTotal(es, tid)
    ensures e.kind == TIMER_START ==> TimerTotal(es + [e], tid) == TimerTotal(es, tid)
    ensures Matches(e, tid, TIMER_STOP) ==>
      TimerTotal(es + [e], tid) == TimerTotal(es, tid) + (if e.value.Some? then e.value.value else 0)
  {
    QueryAppend(es, [e], tid, TIMER_STOP);
    SumOrAppend(Query(es, tid, TIMER_STOP), Query([e], tid, TIMER_STOP), 0);
    assert [e][..0] == [];
    if Matches(e, tid, TIMER_STOP) {
      assert Query([e], tid, TIMER_STOP) == [e];
    }
  }

  /** An event that is not a `timer_stop` of the task, wherever it stands in
      the log, never changes `total_sec`. */
  lemma TimerTotalIgnoresOthers(a: seq<Event>, e: Event, b: seq<Event>, tid: Id)
    requires e.taskId != tid || e.kind != TIMER_STOP
    ensures TimerTotal(a + [e] + b, tid) == TimerTotal(a + b, tid)
  {
    QueryAppend(a + [e], b, tid, TIMER_STOP);
    QueryAppend(a, [e], tid, TIMER_STOP);
    QueryAppend(a, b, tid, TIMER_STOP);
    assert [e][..0] == [];
    assert Query([e], tid, TIMER_STOP) == [];
    assert Query(a + [e], tid, TIMER_STOP) == Query(a, tid, TIMER_STOP);
  }

  /** `total_sec` is the same however the events of the log are ordered. */
  lemma TimerTotalOrderInsensitive(a: seq<Event>, b: seq<Event>, tid: Id)
    requires multiset(a) == multiset(b)
    ensures TimerTotal(a, tid) == TimerTotal(b, tid)
  {
    SumOrQueryIsTally(a, tid, TIMER_STOP, 0);
    SumOrQueryIsTally(b, tid, TIMER_STOP, 0);
    TallyPermutation(a, b, tid, TIMER_STOP, 0);
  }

  // ---------------------------------------------------------------------
  // Check tasks.

  /** `done` holds exactly when the log holds some `check` event of the task. */
  lemma DoneIffChecked(es: seq<Event>, tid: Id)
    ensures CheckCount(es, tid) > 0 <==> exists i :: 0 <= i < |es| && Matches(es[i], tid, CHECKED)
  {
    var q := Query(es, tid, CHECKED);
    if |q| > 0 {
      assert q[0] in q;
      var i :| 0 <= i < |es| && es[i] == q[0];
      assert Matches(es[i], tid, CHECKED);
    }
    if exists i :: 0 <= i < |es| && Matches(es[i], tid, CHECKED) {
      var i :| 0 <= i < |es| && Matches(es[i], tid, CHECKED);
      assert es[i] in q;
    }
  }

  /** `done` does not depend on the order of the log: two logs holding the
      same events give the same answer. */
  lemma CheckOrderInsensitive(a: seq<Event>, b: seq<Event>, tid: Id)
    requires multiset(a) == multiset(b)
    ensures (CheckCount(a, tid) > 0) == (CheckCount(b, tid) > 0)
  {
    DoneIffChecked(a, tid);
    DoneIffChecked(b, tid);
    if exists i :: 0 <= i < |a| && Matches(a[i], tid, CHECKED) {
      var i :| 0 <= i < |a| && Matches(a[i], tid, CHECKED);
      assert a[i] in multiset(b);
      var j :| 0 <= j < |b| && b[j] == a[i];
      assert Matches(b[j], tid, CHECKED);
    }
    if exists j :: 0 <= j < |b| && Matches(b[j], tid, CHECKED) {
      var j :| 0 <= j < |b| && Matches(b[j], tid, CHECKED);
      assert b[j] in multiset(a);
      var i :| 0 <= i < |a| && a[i] == b[j];
      assert Matches(a[i], tid, CHECKED);
    }
  }

  /** Once done, a check task stays done whatever is appended, and appending
      a `check` event makes it done. */
  lemma DoneIsMonotone(es: seq<Event>, more: seq<Event>, tid: Id)
    ensures CheckCount(es, tid) > 0 ==> CheckCount(es + more, tid) > 0
    ensures (exists i :: 0 <= i < |more| && Matches(more[i], tid, CHECKED)) ==> CheckCount(es + more, tid) > 0
  {
    QueryAppend(es, more, tid, CHECKED);
    DoneIffChecked(more, tid);
  }

  // ---------------------------------------------------------------------
  // The summary as a whole.

  /** For a stored task, the shape of its summary is decided by its metric:
      count and timer summaries echo the task's goal, a check summary says
      whether a `check` event exists, and any other metric is reported as
      unknown. The endpoint's answer is the task's own `SummaryOf`. */
  lemma SummarizeStoredTask(ts: seq<Task>, es: seq<Event>, t: Task)
    requires UniqueIds(ts)
    requires t in ts
    ensures Summarize(ts, es, t.id) == Ok(SummaryOf(t, es))
    ensures t.metric == COUNT ==>
      Summarize(ts, es, t.id) == Ok(CountSummary(Tally(es, t.id, INCREMENT, 1), t.goal))
    ensures t.metric == TIMER ==>
      Summarize(ts, es, t.id) == Ok(TimerSummary(Tally(es, t.id, TIMER_STOP, 0), t.goal))
    ensures t.metric == CHECK ==>
      Summarize(ts, es, t.id) ==
        Ok(CheckSummary(exists i :: 0 <= i < |es| && Matches(es[i], t.id, CHECKED)))
    ensures t.metric !in {COUNT, TIMER, CHECK} ==> Summarize(ts, es, t.id) == Ok(UnknownMetric)
  {
    FindTaskUnique(ts, t);
    CountTotalIsSumOfIncrements(es, t.id);
    TimerTotalIsSumOfStops(es, t.id);
    DoneIffChecked(es, t.id);
  }

  /** The total of the example log below: increments of 1, 1 (the value
      left out) and 3, with a timer stop of another task in between. */
  lemma CountExampleTotal(tid: Id, other: Id, eid: Id, now: Timestamp)
    requires other != tid
    ensures CountTotal(
      [Event(eid, tid, INCREMENT, Some(1), now),
       Event(eid, tid, INCREMENT, None, now),
       Event(eid, other, TIMER_STOP, Some(60), now),
       Event(eid, tid, INCREMENT, Some(3), now)], tid) == 5
  {
    var e1 := Event(eid, tid, INCREMENT, Some(1), now);
    var e2 := Event(eid, tid, INCREMENT, None, now);
    var e3 := Event(eid, other, TIMER_STOP, Some(60), now);
    var e4 := Event(eid, tid, INCREMENT, Some(3), now);
    var s0: seq<Event> := [];
    assert CountTotal(s0, tid) == 0;
    CountTotalAfterAppend(s0, e1, tid);
    assert s0 + [e1] == [e1];
    CountTotalAfterAppend([e1], e2, tid);
    assert [e1] + [e2] == [e1, e2];
    CountTotalAfterAppend([e1, e2], e3, tid);
    assert [e1, e2] + [e3] == [e1, e2, e3];
    CountTotalAfterAppend([e1, e2, e3], e4, tid);
    assert [e1, e2, e3] + [e4] == [e1, e2, e3, e4];
  }

  /** Example: a count task with goal 5 and increments of 1, 1 (the value
      left out) and 3 has total 5; a timer stop of another task in between
      changes nothing. */
  lemma CountExample(t: Task, other: Id, eid: Id, now: Timestamp)
    requires t.metric == COUNT && t.goal == Some(5) && other != t.id
    ensures Summarize([t],
      [Event(eid, t.id, INCREMENT, Some(1), now),
       Event(eid, t.id, INCREMENT, None, now),
       Event(eid, other, TIMER_STOP, Some(60), now),
       Event(eid, t.id, INCREMENT, Some(3), now)], t.id) == Ok(CountSummary(5, Some(5)))
  {
    CountExampleTotal(t.id, other, eid, now);
    assert FindTask([t], t.id) == Some(t);
  }

}
