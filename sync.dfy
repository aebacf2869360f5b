/** The calendar-to-task synchroniser: every work event of today marked "add to tasks" that
    no task is linked to yet gets exactly one generated task, appended after the existing
    ones. Both variants of the dashboard run this same rule whenever the calendar or the task
    list changes; the new task ids are given as a parameter. */
module Sync {
  import opened Records
  import opened Seqs
  import opened CalendarStore
  import opened TaskList

  /** Some task is linked to the event with `id`. */
  predicate Linked<P>(tasks: seq<Task<P>>, id: Id)
    ensures tasks == [] ==> !Linked(tasks, id)
    ensures tasks != [] ==>
              (Linked(tasks, id) <==> tasks[0].calendarEventId == Some(id) || Linked(tasks[1..], id))
  {
    exists i :: 0 <= i < |tasks| && tasks[i].calendarEventId == Some(id)
  }

  /** Today's events that still need a task, in calendar order. */
  function Pending<P>(todayEvents: seq<Event>, tasks: seq<Task<P>>): (r: seq<Event>)
    ensures forall i :: 0 <= i < |r| ==> r[i] in todayEvents && Qualifies(r[i]) && !Linked(tasks, r[i].id)
    ensures forall i :: 0 <= i < |todayEvents| && Qualifies(todayEvents[i]) && !Linked(tasks, todayEvents[i].id)
              ==> todayEvents[i] in r
  {
    Filter(todayEvents, (e: Event) => Qualifies(e) && !Linked(tasks, e.id))
  }

  /** One generated task per event, with the matching new id. */
  function NewTasks<P>(events: seq<Event>, ids: seq<Id>, progress: P): (r: seq<Task<P>>)
    requires |ids| == |events|
    ensures |r| == |events|
    ensures forall i :: 0 <= i < |events| ==> r[i] == AutoTask(events[i], ids[i], progress)
  {
    if events == [] then []
    else [AutoTask(events[0], ids[0], progress)] + NewTasks(events[1..], ids[1..], progress)
  }

  /** The task list after one run of the synchroniser. */
  function Synced<P>(tasks: seq<Task<P>>, todayEvents: seq<Event>, ids: seq<Id>, progress: P): (r: seq<Task<P>>)
    requires |ids| == |Pending(todayEvents, tasks)|
    ensures |r| == |tasks| + |ids| && r[..|tasks|] == tasks
    ensures r[|tasks|..] == NewTasks(Pending(todayEvents, tasks), ids, progress)
  {
    tasks + NewTasks(Pending(todayEvents, tasks), ids, progress)
  }

  // ---------------------------------------------------------------------------------------
  // Properties of the synchroniser

  /** After a run every qualifying event of today has a linked task, whether it had one
      before or has just been given one. */
  lemma {:induction false} SyncCovers<P>(tasks: seq<Task<P>>, todayEvents: seq<Event>, ids: seq<Id>, progress: P)
    requires |ids| == |Pending(todayEvents, tasks)|
    ensures forall i :: 0 <= i < |todayEvents| && Qualifies(todayEvents[i]) ==>
              Linked(Synced(tasks, todayEvents, ids, progress), todayEvents[i].id)
  {
    var pending := Pending(todayEvents, tasks);
    var added := NewTasks(pending, ids, progress);
    var r := Synced(tasks, todayEvents, ids, progress);
    forall i | 0 <= i < |todayEvents| && Qualifies(todayEvents[i])
      ensures Linked(r, todayEvents[i].id)
    {
      var e := todayEvents[i];
      if Linked(tasks, e.id) {
        var j :| 0 <= j < |tasks| && tasks[j].calendarEventId == Some(e.id);
        assert r[j] == tasks[j];
      } else {
        assert e in pending;
        var k :| 0 <= k < |pending| && pending[k] == e;
        assert r[|tasks| + k] == added[k];
      }
    }
  }

  /** Running the synchroniser a second time, with nothing else changed, adds no task. */
  lemma SyncIdempotent<P>(tasks: seq<Task<P>>, todayEvents: seq<Event>, ids: seq<Id>, progress: P)
    requires |ids| == |Pending(todayEvents, tasks)|
    ensures Pending(todayEvents, Synced(tasks, todayEvents, ids, progress)) == []
  {
    var r := Synced(tasks, todayEvents, ids, progress);
    SyncCovers(tasks, todayEvents, ids, progress);
    FilterDropsAll(todayEvents, (e: Event) => Qualifies(e) && !Linked(r, e.id));
  }

  /** The synchroniser never gives an event a second task: when no two tasks share a link
      and today's events have distinct ids, the same holds after a run. */
  lemma {:induction false} SyncKeepsLinksUnique<P>(tasks: seq<Task<P>>, todayEvents: seq<Event>,
                                                   ids: seq<Id>, progress: P)
    requires |ids| == |Pending(todayEvents, tasks)|
    requires UniqueLinks(tasks)
    requires DistinctBy(todayEvents, (e: Event) => e.id)
    ensures UniqueLinks(Synced(tasks, todayEvents, ids, progress))
  {
    var pending := Pending(todayEvents, tasks);
    FilterDistinct(todayEvents, (e: Event) => Qualifies(e) && !Linked(tasks, e.id), (e: Event) => e.id);
    assert DistinctBy(pending, (e: Event) => e.id);
    var added := NewTasks(pending, ids, progress);
    var r := Synced(tasks, todayEvents, ids, progress);
    forall i, j | 0 <= i < j < |r| && r[i].calendarEventId.Some?
      ensures r[i].calendarEventId != r[j].calendarEventId
    {
      if j >= |tasks| {
        var b := j - |tasks|;
        assert r[j] == added[b] && r[j].calendarEventId == Some(pending[b].id);
        if i < |tasks| {
          assert r[i] == tasks[i];
          assert !Linked(tasks, pending[b].id);
        } else {
          assert r[i] == added[i - |tasks|];
        }
      } else {
        assert r[i] == tasks[i] && r[j] == tasks[j];
      }
    }
  }

  /** Fresh ids for generated tasks: pairwise distinct and unused by the existing tasks. */
  ghost predicate FreshIds<P>(tasks: seq<Task<P>>, ids: seq<Id>)
  {
    && (forall i, j :: 0 <= i < j < |ids| ==> ids[i] != ids[j])
    && (forall i, j :: 0 <= i < |tasks| && 0 <= j < |ids| ==> tasks[i].id != ids[j])
  }

  /** With fresh ids for the generated tasks, a run keeps task ids distinct. */
  lemma {:induction false} SyncKeepsIdsUnique<P>(tasks: seq<Task<P>>, todayEvents: seq<Event>,
                                                 ids: seq<Id>, progress: P)
    requires |ids| == |Pending(todayEvents, tasks)|
    requires UniqueIds(tasks) && FreshIds(tasks, ids)
    ensures UniqueIds(Synced(tasks, todayEvents, ids, progress))
  {
    var added := NewTasks(Pending(todayEvents, tasks), ids, progress);
    var r := Synced(tasks, todayEvents, ids, progress);
    forall i, j | 0 <= i < j < |r| ensures r[i].id != r[j].id {
      if j >= |tasks| {
        assert r[j] == added[j - |tasks|] && r[j].id == ids[j - |tasks|];
        if i >= |tasks| {
          assert r[i] == added[i - |tasks|] && r[i].id == ids[i - |tasks|];
        } else {
          assert r[i] == tasks[i];
        }
      } else {
        assert r[i] == tasks[i] && r[j] == tasks[j];
      }
    }
  }

  /** Adding an event to a calendar whose today list is already in sync leaves nothing to
      synchronise: an event for today that qualifies has just been given its task, and any
      other event either does not qualify or is not on today's list. */
  lemma {:induction false} EagerAddNeedsNoSync<P>(events: Calendar, tasks: seq<Task<P>>, key: string,
                                                  today: string, e: Event, taskId: Id, progress: P)
    requires Pending(EventsOn(events, today), tasks) == []
    ensures Pending(EventsOn(WithEvent(events, key, e), today),
                    EagerTasks(tasks, key, today, e, taskId, progress)) == []
  {
    var tasks' := EagerTasks(tasks, key, today, e, taskId, progress);
    var before := EventsOn(events, today);
    var after := EventsOn(WithEvent(events, key, e), today);
    assert forall i :: 0 <= i < |tasks| ==> tasks'[i] == tasks[i];
    forall i | 0 <= i < |after| ensures !(Qualifies(after[i]) && !Linked(tasks', after[i].id)) {
      if key == today && i == |before| {
        assert after[i] == e;
        if Qualifies(e) {
          assert tasks'[|tasks|].calendarEventId == Some(e.id);
        }
      } else {
        assert after[i] == before[i];
      }
    }
    FilterDropsAll(after, (x: Event) => Qualifies(x) && !Linked(tasks', x.id));
  }
}
