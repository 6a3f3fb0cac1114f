/** The store primitives the API calls on its two collections, as functions
    over the documents in their natural (insertion) order: `find_one` and
    `delete_one` by task id on `tasks`, `delete_many` by task id on `events`. */
module Collections {
  import opened Documents

  /** The ids of the stored tasks. */
  function Ids(ts: seq<Task>): set<Id> {
    set t | t in ts :: t.id
  }

  /** What the unique index on `tasks.id` guarantees. */
  predicate UniqueIds(ts: seq<Task>) {
    forall i, j :: 0 <= i < j < |ts| ==> ts[i].id != ts[j].id
  }

  /** Every event names a task that is stored. */
  predicate EventsBelong(ts: seq<Task>, es: seq<Event>) {
    forall e :: e in es ==> e.taskId in Ids(ts)
  }

  /** Every stored goal and event value is one the store could encode. */
  predicate FieldsFit(ts: seq<Task>, es: seq<Event>) {
    (forall t :: t in ts ==> FitsInt64(t.goal)) && (forall e :: e in es ==> FitsInt64(e.value))
  }

  /** `find_one({"id": tid})`: the first task with that id, if any. */
  function FindTask(ts: seq<Task>, tid: Id): (r: Option<Task>)
    ensures r.Some? ==> r.value in ts && r.value.id == tid
    ensures r.None? <==> tid !in Ids(ts)
  {
    if ts == [] then None
    else if ts[0].id == tid then Some(ts[0])
    else
      assert ts == [ts[0]] + ts[1..];
      FindTask(ts[1..], tid)
  }

  /** `delete_one({"id": tid})`: drops the first task with that id, if any. */
  function DeleteOne(ts: seq<Task>, tid: Id): (r: seq<Task>)
    ensures tid !in Ids(ts) ==> r == ts
    ensures |r| == if tid in Ids(ts) then |ts| - 1 else |ts|
    ensures forall t :: t in r ==> t in ts
    ensures forall t :: t in ts && t.id != tid ==> t in r
  {
    if ts == [] then []
    else if ts[0].id == tid then ts[1..]
    else
      assert ts == [ts[0]] + ts[1..];
      [ts[0]] + DeleteOne(ts[1..], tid)
  }

  /** `delete_many({"task_id": tid})`: the events of every other task, in order. */
  function WithoutEvents(es: seq<Event>, tid: Id): (r: seq<Event>)
    ensures |r| <= |es|
    ensures forall e :: e in r <==> e in es && e.taskId != tid
  {
    if es == [] then []
    else
      var init, last := es[..|es| - 1], es[|es| - 1];
      assert es == init + [last];
      WithoutEvents(init, tid) + (if last.taskId != tid then [last] else [])
  }

  lemma UniqueIdsCons(t: Task, ts: seq<Task>)
    ensures UniqueIds([t] + ts) <==> t.id !in Ids(ts) && UniqueIds(ts)
  {
    var s := [t] + ts;
    if UniqueIds(s) {
      forall i, j | 0 <= i < j < |ts| ensures ts[i].id != ts[j].id {
        assert s[i + 1] == ts[i] && s[j + 1] == ts[j];
      }
      forall u | u in ts ensures u.id != t.id {
        var k :| 0 <= k < |ts| && ts[k] == u;
        assert s[0] == t && s[k + 1] == u && 0 < k + 1;
      }
    }
  }

  lemma {:induction false} UniqueIdsSnoc(ts: seq<Task>, t: Task)
    ensures UniqueIds(ts + [t]) <==> UniqueIds(ts) && t.id !in Ids(ts)
  {
    var s := ts + [t];
    if UniqueIds(s) {
      assert forall i :: 0 <= i < |ts| ==> s[i] == ts[i];
      forall u | u in ts ensures u.id != t.id {
        var k :| 0 <= k < |ts| && ts[k] == u;
        assert s[k] == u && s[|ts|] == t;
      }
    }
    if UniqueIds(ts) && t.id !in Ids(ts) {
      forall i, j | 0 <= i < j < |s| ensures s[i].id != s[j].id {
        if j == |ts| {
          assert s[i] == ts[i] && s[i] in ts;
        } else {
          assert s[i] == ts[i] && s[j] == ts[j];
        }
      }
    }
  }

  /** With unique ids, `delete_one` removes the id altogether and keeps the
      remaining ids unique. */
  lemma {:induction false} DeleteOneRemovesId(ts: seq<Task>, tid: Id)
    requires UniqueIds(ts)
    ensures UniqueIds(DeleteOne(ts, tid))
    ensures Ids(DeleteOne(ts, tid)) == Ids(ts) - {tid}
  {
    if ts != [] {
      assert ts == [ts[0]] + ts[1..];
      UniqueIdsCons(ts[0], ts[1..]);
      if ts[0].id == tid {
        assert Ids(ts) == {tid} + Ids(ts[1..]);
      } else {
        DeleteOneRemovesId(ts[1..], tid);
        UniqueIdsCons(ts[0], DeleteOne(ts[1..], tid));
        assert Ids([ts[0]] + DeleteOne(ts[1..], tid)) == {ts[0].id} + Ids(DeleteOne(ts[1..], tid));
        assert Ids(ts) == {ts[0].id} + Ids(ts[1..]);
      }
    }
  }

  /** `find_one` on one id does not see a `delete_one` of another. */
  lemma {:induction false} FindTaskAfterDelete(ts: seq<Task>, x: Id, u: Id)
    requires u != x
    ensures FindTask(DeleteOne(ts, x), u) == FindTask(ts, u)
  {
    if ts != [] && ts[0].id != x {
      FindTaskAfterDelete(ts[1..], x, u);
      assert ([ts[0]] + DeleteOne(ts[1..], x))[1..] == DeleteOne(ts[1..], x);
    }
  }

  /** `find_one` on one id does not see a task inserted under another, and
      finds the new task under its own id when that id was free. */
  lemma {:induction false} FindTaskAfterInsert(ts: seq<Task>, t: Task, u: Id)
    ensures u != t.id ==> FindTask(ts + [t], u) == FindTask(ts, u)
    ensures u == t.id && t.id !in Ids(ts) ==> FindTask(ts + [t], u) == Some(t)
  {
    if ts == [] {
      assert ts + [t] == [t];
    } else {
      assert (ts + [t])[0] == ts[0];
      assert (ts + [t])[1..] == ts[1..] + [t];
      FindTaskAfterInsert(ts[1..], t, u);
      assert Ids(ts) == {ts[0].id} + Ids(ts[1..]) by {
        assert ts == [ts[0]] + ts[1..];
      }
    }
  }

  /** With unique ids, `find_one` returns the one task that has the id. */
  lemma {:induction false} FindTaskUnique(ts: seq<Task>, t: Task)
    requires UniqueIds(ts)
    requires t in ts
    ensures FindTask(ts, t.id) == Some(t)
  {
  }
}
