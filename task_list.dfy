/** The task-list operations of the daily planner: toggling and deleting tasks, the
    independently kept "completed today" counter, the incomplete-task filter a work session
    starts from, and the pomodoro total. The functions are generic in what a task tracks
    beyond the common fields, because both variants of the dashboard share these rules. */
module TaskList {
  import opened Records
  import opened Seqs

  /** The task with its `completed` flag negated. */
  function Flip<P>(t: Task<P>): Task<P>
  {
    t.(completed := !t.completed)
  }

  /** The list after the toggle handler: every task with `id` is flipped; the others, and
      the order, are untouched. */
  function Toggled<P>(tasks: seq<Task<P>>, id: Id): (r: seq<Task<P>>)
    ensures |r| == |tasks|
    ensures forall i :: 0 <= i < |tasks| && tasks[i].id == id ==>
              r[i].completed == !tasks[i].completed && r[i] == Flip(tasks[i])
    ensures forall i :: 0 <= i < |tasks| && tasks[i].id != id ==> r[i] == tasks[i]
  {
    if tasks == [] then []
    else [if tasks[0].id == id then Flip(tasks[0]) else tasks[0]] + Toggled(tasks[1..], id)
  }

  /** Counter after one task is marked done. */
  function Bump(c: nat): nat { c + 1 }

  /** Counter after one task is marked not done: one less, but never below zero. */
  function Drop(c: nat): nat { if c == 0 then 0 else c - 1 }

  /** The counter after the toggle handler: each task with `id`, in list order, moves it up
      when it goes from open to done and down (floored at zero) when it goes back. */
  function ToggleCounter<P>(c: nat, tasks: seq<Task<P>>, id: Id): (r: nat)
    ensures (forall i :: 0 <= i < |tasks| ==> tasks[i].id != id) ==> r == c
    decreases |tasks|
  {
    if tasks == [] then c
    else
      var c' := if tasks[0].id != id then c
                else if tasks[0].completed then Drop(c) else Bump(c);
      ToggleCounter(c', tasks[1..], id)
  }

  /** The list after the delete handler: every task with `id` is removed. */
  function Deleted<P>(tasks: seq<Task<P>>, id: Id): (r: seq<Task<P>>)
    ensures forall i :: 0 <= i < |r| ==> r[i] in tasks && r[i].id != id
    ensures forall i :: 0 <= i < |tasks| && tasks[i].id != id ==> tasks[i] in r
    ensures (forall i :: 0 <= i < |tasks| ==> tasks[i].id != id) ==> r == tasks
  {
    if forall i :: 0 <= i < |tasks| ==> tasks[i].id != id then
      FilterKeepsAll(tasks, (t: Task<P>) => t.id != id);
      Filter(tasks, (t: Task<P>) => t.id != id)
    else Filter(tasks, (t: Task<P>) => t.id != id)
  }

  /** The first task with `id`, as `Array.prototype.find` returns it. */
  function Find<P>(tasks: seq<Task<P>>, id: Id): (r: Option<Task<P>>)
    ensures r.None? <==> forall i :: 0 <= i < |tasks| ==> tasks[i].id != id
    ensures r.Some? ==> exists k :: 0 <= k < |tasks| && tasks[k] == r.value && r.value.id == id
                          && forall i :: 0 <= i < k ==> tasks[i].id != id
  {
    if tasks == [] then None
    else if tasks[0].id == id then Some(tasks[0])
    else
      var r := Find(tasks[1..], id);
      if r.Some? then
        ghost var k :| 0 <= k < |tasks[1..]| && tasks[1..][k] == r.value && r.value.id == id
                      && forall i :: 0 <= i < k ==> tasks[1..][i].id != id;
        assert tasks[k + 1] == r.value;
        r
      else r
  }

  /** The counter after the delete handler: one less (floored) iff the first task with
      `id` was completed. */
  function DeleteCounter<P>(c: nat, tasks: seq<Task<P>>, id: Id): (r: nat)
    ensures r == c || r + 1 == c
    ensures r < c <==> c > 0 && Find(tasks, id).Some? && Find(tasks, id).value.completed
  {
    var found := Find(tasks, id);
    if found.Some? && found.value.completed then Drop(c) else c
  }

  /** The tasks not yet completed, in list order. */
  function Incomplete<P>(tasks: seq<Task<P>>): (r: seq<Task<P>>)
    ensures forall i :: 0 <= i < |r| ==> r[i] in tasks && !r[i].completed
    ensures forall i :: 0 <= i < |tasks| && !tasks[i].completed ==> tasks[i] in r
    ensures r == [] <==> forall i :: 0 <= i < |tasks| ==> tasks[i].completed
  {
    var r := Filter(tasks, (t: Task<P>) => !t.completed);
    if r == [] then r
    else
      assert r[0] in r;
      r
  }

  /** Sum of the pomodoro targets. */
  function TotalPomodoros(tasks: seq<Task<Progress>>): (r: int)
    ensures (forall i :: 0 <= i < |tasks| ==> tasks[i].progress.pomodoros >= 0) ==> r >= 0
    ensures tasks == [] ==> r == 0
  {
    if tasks == [] then 0 else tasks[0].progress.pomodoros + TotalPomodoros(tasks[1..])
  }

  /** The number of completed tasks: the value the counter is meant to track. */
  function CompletedCount<P>(tasks: seq<Task<P>>): (r: nat)
    ensures r <= |tasks|
  {
    if tasks == [] then 0 else (if tasks[0].completed then 1 else 0) + CompletedCount(tasks[1..])
  }

  /** Task ids are pairwise distinct. */
  ghost predicate UniqueIds<P>(tasks: seq<Task<P>>)
  {
    forall i, j :: 0 <= i < j < |tasks| ==> tasks[i].id != tasks[j].id
  }

  // ---------------------------------------------------------------------------------------
  // Properties of the task-list operations

  /** Toggling the same id twice gives back the original list. */
  lemma {:induction false} ToggleTwice<P>(tasks: seq<Task<P>>, id: Id)
    ensures Toggled(Toggled(tasks, id), id) == tasks
  {
    var r := Toggled(Toggled(tasks, id), id);
    assert |r| == |tasks|;
    forall i | 0 <= i < |tasks| ensures r[i] == tasks[i] { }
  }

  /** With distinct ids, the toggle moves the counter by one step: up when the task was
      open, down (floored at zero) when it was done, and not at all for an unknown id. */
  lemma {:induction false} ToggleCounterUnique<P>(c: nat, tasks: seq<Task<P>>, id: Id, k: nat)
    requires UniqueIds(tasks)
    requires k < |tasks| && tasks[k].id == id
    ensures ToggleCounter(c, tasks, id) == if tasks[k].completed then Drop(c) else Bump(c)
  {
    if k == 0 {
      var c' := if tasks[0].completed then Drop(c) else Bump(c);
      assert forall i :: 0 <= i < |tasks[1..]| ==> tasks[1..][i].id != id by {
        forall i | 0 <= i < |tasks[1..]| ensures tasks[1..][i].id != id {
          assert tasks[1..][i] == tasks[i + 1];
        }
      }
    } else {
      assert tasks[0].id != id;
      assert tasks[1..][k - 1] == tasks[k];
      ToggleCounterUnique(c, tasks[1..], id, k - 1);
    }
  }

  /** When the counter starts out equal to the number of completed tasks, the toggle keeps it
      equal, even when several tasks share the id: the floor at zero is then never reached. */
  lemma {:induction false} ToggleCounterTracksCount<P>(a: nat, tasks: seq<Task<P>>, id: Id)
    ensures ToggleCounter(a + CompletedCount(tasks), tasks, id) == a + CompletedCount(Toggled(tasks, id))
    decreases |tasks|
  {
    if tasks != [] {
      var t, rest := tasks[0], tasks[1..];
      var head := if t.id == id then Flip(t) else t;
      var a' := a + if head.completed then 1 else 0;
      assert CompletedCount(tasks) == (if t.completed then 1 else 0) + CompletedCount(rest);
      assert ToggleCounter(a + CompletedCount(tasks), tasks, id)
          == ToggleCounter(a' + CompletedCount(rest), rest, id);
      ToggleCounterTracksCount(a', rest, id);
      CountCons(head, Toggled(rest, id));
      assert Toggled(tasks, id) == [head] + Toggled(rest, id);
    }
  }

  /** The completed count of a list is that of its head plus that of its tail. */
  lemma CountCons<P>(head: Task<P>, tail: seq<Task<P>>)
    ensures CompletedCount([head] + tail) == (if head.completed then 1 else 0) + CompletedCount(tail)
  {
    assert ([head] + tail)[1..] == tail;
  }

  /** With distinct ids, the delete handler keeps the counter equal to the number of
      completed tasks when it was equal before. */
  lemma {:induction false} DeleteCounterTracksCount<P>(tasks: seq<Task<P>>, id: Id)
    requires UniqueIds(tasks)
    ensures DeleteCounter(CompletedCount(tasks), tasks, id) == CompletedCount(Deleted(tasks, id))
  {
    CountAfterDelete(tasks, id);
  }

  /** Removing the tasks with `id` from a list with distinct ids lowers the completed count
      by one exactly when the task with that id was completed. */
  lemma {:induction false} CountAfterDelete<P>(tasks: seq<Task<P>>, id: Id)
    requires UniqueIds(tasks)
    ensures var f := Find(tasks, id);
            CompletedCount(Deleted(tasks, id)) + (if f.Some? && f.value.completed then 1 else 0)
            == CompletedCount(tasks)
  {
    var p := (t: Task<P>) => t.id != id;
    if tasks != [] {
      var t := tasks[0];
      var rest := tasks[1..];
      assert Deleted(tasks, id) == Filter(tasks, p);
      assert Deleted(rest, id) == Filter(rest, p);
      if t.id == id {
        assert forall i :: 0 <= i < |rest| ==> rest[i].id != id by {
          forall i | 0 <= i < |rest| ensures rest[i].id != id {
            assert rest[i] == tasks[i + 1];
          }
        }
        assert Deleted(tasks, id) == rest;
      } else {
        assert UniqueIds(rest) by {
          forall i, j | 0 <= i < j < |rest| ensures rest[i].id != rest[j].id {
            assert rest[i] == tasks[i + 1] && rest[j] == tasks[j + 1];
          }
        }
        CountAfterDelete(rest, id);
        var d := Deleted(rest, id);
        assert Deleted(tasks, id) == [t] + d;
        assert ([t] + d)[1..] == d;
      }
    }
  }

  /** Removing tasks from a list with distinct ids leaves a list with distinct ids. */
  lemma FilterKeepsUniqueIds<P>(tasks: seq<Task<P>>, p: Task<P> -> bool)
    requires UniqueIds(tasks)
    ensures UniqueIds(Filter(tasks, p))
  {
    FilterDistinct(tasks, p, (t: Task<P>) => t.id);
  }

  /** The pomodoro total of two lists side by side is the sum of their totals. */
  lemma {:induction false} TotalPomodorosAppend(a: seq<Task<Progress>>, b: seq<Task<Progress>>)
    ensures TotalPomodoros(a + b) == TotalPomodoros(a) + TotalPomodoros(b)
  {
    if a == [] {
      assert a + b == b;
    } else {
      assert (a + b)[1..] == a[1..] + b;
      TotalPomodorosAppend(a[1..], b);
    }
  }

  /** Every task counts at least one pomodoro when each target is at least one. */
  lemma {:induction false} TotalPomodorosAtLeastCount(tasks: seq<Task<Progress>>)
    requires forall i :: 0 <= i < |tasks| ==> tasks[i].progress.pomodoros >= 1
    ensures TotalPomodoros(tasks) >= |tasks|
  {
    if tasks != [] {
      TotalPomodorosAtLeastCount(tasks[1..]);
    }
  }
}
