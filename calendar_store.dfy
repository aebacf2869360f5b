/** The calendar store: a map from date key to the events of that day, in insertion order,
    and the task list's link to it (the task generated eagerly when an event is added for
    today, and the cascade that removes generated tasks when their event is deleted). Date
    keys are opaque strings here. */
module CalendarStore {
  import opened Records
  import opened Seqs

  type Calendar = map<string, seq<Event>>

  /** The events stored under `key`, or none when the key is absent. */
  function EventsOn(events: Calendar, key: string): (r: seq<Event>)
    ensures key !in events ==> r == []
    ensures key in events ==> r == events[key]
  {
    if key in events then events[key] else []
  }

  /** The stored form of the "add to tasks" flag: a missing flag is stored as false. */
  function StoredFlag(addToTasks: Option<bool>): (r: bool)
    ensures r <==> addToTasks == Some(true)
  {
    match addToTasks
    case Some(b) => b
    case None => false
  }

  /** An event is turned into a task when it is a work event marked "add to tasks". */
  predicate Qualifies(e: Event)
    ensures Qualifies(e) <==> e.addToTasks && TypeName(e.kind) == "work"
  {
    e.addToTasks && e.kind == Work
  }

  /** The calendar with `e` appended to the list of `key`, which is created when absent. */
  function WithEvent(events: Calendar, key: string, e: Event): (r: Calendar)
    ensures EventsOn(r, key) == EventsOn(events, key) + [e]
    ensures r.Keys == events.Keys + {key}
    ensures forall k :: k in events && k != key ==> r[k] == events[k]
  {
    events[key := EventsOn(events, key) + [e]]
  }

  /** The calendar with every event carrying `id` removed from the list of `key`. */
  function WithoutEvent(events: Calendar, key: string, id: Id): (r: Calendar)
    requires key in events
    ensures r.Keys == events.Keys
    ensures forall k :: k in events && k != key ==> r[k] == events[k]
    ensures forall i :: 0 <= i < |r[key]| ==> r[key][i] in events[key] && r[key][i].id != id
    ensures forall i :: 0 <= i < |events[key]| && events[key][i].id != id ==> events[key][i] in r[key]
  {
    events[key := Filter(events[key], (e: Event) => e.id != id)]
  }

  /** The task generated for event `e`: open, marked as coming from the calendar, linked to
      the event, and labelled with the event's title and time. */
  function AutoTask<P>(e: Event, taskId: Id, progress: P): (t: Task<P>)
    ensures t.calendarEventId == Some(e.id) && t.fromCalendar && !t.completed
    ensures t.text == Label(e.title, e.time) && t.id == taskId && t.progress == progress
  {
    Task(taskId, Label(e.title, e.time), false, true, Some(e.id), progress)
  }

  /** The task list after adding event `e` under `key`: a generated task is appended exactly
      when the key is today's and the event qualifies. */
  function EagerTasks<P>(tasks: seq<Task<P>>, key: string, today: string, e: Event,
                         taskId: Id, progress: P): (r: seq<Task<P>>)
    ensures |tasks| <= |r| <= |tasks| + 1 && r[..|tasks|] == tasks
    ensures |r| == |tasks| + 1 <==> key == today && Qualifies(e)
    ensures |r| == |tasks| + 1 ==> r[|tasks|] == AutoTask(e, taskId, progress)
  {
    if key == today && Qualifies(e) then tasks + [AutoTask(e, taskId, progress)] else tasks
  }

  /** The task list after deleting event `id`: every task linked to it is removed. */
  function Unlinked<P>(tasks: seq<Task<P>>, id: Id): (r: seq<Task<P>>)
    ensures forall i :: 0 <= i < |r| ==> r[i] in tasks && r[i].calendarEventId != Some(id)
    ensures forall i :: 0 <= i < |tasks| && tasks[i].calendarEventId != Some(id) ==> tasks[i] in r
  {
    Filter(tasks, (t: Task<P>) => t.calendarEventId != Some(id))
  }

  /** No two tasks are linked to the same event. */
  ghost predicate UniqueLinks<P>(tasks: seq<Task<P>>)
  {
    forall i, j :: 0 <= i < j < |tasks| && tasks[i].calendarEventId.Some? ==>
      tasks[i].calendarEventId != tasks[j].calendarEventId
  }

  /** No two events of one date share an id. */
  ghost predicate DistinctEventIds(events: Calendar)
  {
    forall k :: k in events ==> DistinctBy(events[k], (e: Event) => e.id)
  }

  /** `id` is a fresh clock reading: no stored event carries it and no task is linked to it. */
  ghost predicate FreshEventId<P>(events: Calendar, tasks: seq<Task<P>>, id: Id)
  {
    && (forall k, i :: k in events && 0 <= i < |events[k]| ==> events[k][i].id != id)
    && (forall i :: 0 <= i < |tasks| ==> tasks[i].calendarEventId != Some(id))
  }

  /* The type symbols, code point for code point as the source spells them. Each is the
     UTF-8 encoding of an emoji read back as Windows-1254 (Turkish) text, so what the page shows is this
     garbled text and not the emoji: the calendar symbol for the default, a briefcase for work,
     a baby for kid, a family for family, a person in lotus position for personal and a
     hospital for appointment. */
  const DefaultEmoji: string := "\U{011F}\U{0178}\U{201C}\U{2026}"
  const WorkEmoji: string := "\U{011F}\U{0178}\U{2019}\U{00BC}"
  const KidEmoji: string := "\U{011F}\U{0178}\U{2018}\U{00B6}"
  const FamilyEmoji: string :=
    "\U{011F}\U{0178}\U{2018}\U{00A8}\U{00E2}\U{20AC}\U{011F}\U{0178}\U{2018}\U{00A9}\U{00E2}\U{20AC}"
    + "\U{011F}\U{0178}\U{2018}\U{00A7}\U{00E2}\U{20AC}\U{011F}\U{0178}\U{2018}\U{00A6}"
  const PersonalEmoji: string := "\U{011F}\U{0178}\U{00A7}\U{02DC}"
  const AppointmentEmoji: string := "\U{011F}\U{0178}\U{00A5}"

  /** The symbol shown for an event type; any unknown type gets the calendar symbol. */
  function Emoji(kind: string): (r: string)
    ensures kind == TypeName(Work) ==> r == WorkEmoji
    ensures kind == TypeName(Kid) ==> r == KidEmoji
    ensures kind == TypeName(Family) ==> r == FamilyEmoji
    ensures kind == TypeName(Personal) ==> r == PersonalEmoji
    ensures kind == TypeName(Appointment) ==> r == AppointmentEmoji
    ensures r == DefaultEmoji <==> kind !in TypeNames
  {
    match kind
    case "work" => WorkEmoji
    case "kid" => KidEmoji
    case "family" => FamilyEmoji
    case "personal" => PersonalEmoji
    case "appointment" => AppointmentEmoji
    case _ => DefaultEmoji
  }

  // ---------------------------------------------------------------------------------------
  // Properties of the calendar store

  /** Each event type has its own symbol, different from the default one. */
  lemma EmojiDistinguishesTypes(a: EventType, b: EventType)
    ensures Emoji(TypeName(a)) != DefaultEmoji
    ensures a != b ==> Emoji(TypeName(a)) != Emoji(TypeName(b))
  {
  }

  /** Deleting an event whose generated task is the only task linked to it removes exactly
      that task and keeps the others in order. */
  lemma {:induction false} CascadeRemovesOne<P>(tasks: seq<Task<P>>, id: Id, k: nat)
    requires UniqueLinks(tasks)
    requires k < |tasks| && tasks[k].calendarEventId == Some(id)
    ensures Unlinked(tasks, id) == tasks[..k] + tasks[k + 1..]
  {
    var p := (t: Task<P>) => t.calendarEventId != Some(id);
    assert tasks == tasks[..k] + ([tasks[k]] + tasks[k + 1..]);
    FilterAppend(tasks[..k], [tasks[k]] + tasks[k + 1..], p);
    FilterAppend([tasks[k]], tasks[k + 1..], p);
    FilterKeepsAll(tasks[..k], p);
    FilterKeepsAll(tasks[k + 1..], p);
    assert Filter([tasks[k]], p) == [];
  }

  /** Adding an event with a fresh id keeps the event ids of every date distinct. */
  lemma AddEventKeepsIdsDistinct<P>(events: Calendar, tasks: seq<Task<P>>, key: string, e: Event)
    requires DistinctEventIds(events) && FreshEventId(events, tasks, e.id)
    ensures DistinctEventIds(WithEvent(events, key, e))
  {
    var r: Calendar := WithEvent(events, key, e);
    var prior := EventsOn(events, key);
    var list: seq<Event> := r[key];
    forall i, j | 0 <= i < j < |list| ensures list[i].id != list[j].id {
      if j == |prior| {
        assert list[i] == events[key][i];
      } else {
        assert list[i] == events[key][i] && list[j] == events[key][j];
      }
    }
  }

  /** Deleting events keeps the event ids of every date distinct. */
  lemma DeleteEventKeepsIdsDistinct(events: Calendar, key: string, id: Id)
    requires key in events && DistinctEventIds(events)
    ensures DistinctEventIds(WithoutEvent(events, key, id))
  {
    FilterDistinct(events[key], (e: Event) => e.id != id, (e: Event) => e.id);
  }

  /** Adding an event with a fresh id never gives it a second task: links stay unique. */
  lemma EagerTasksKeepLinksUnique<P>(tasks: seq<Task<P>>, key: string, today: string, e: Event,
                                     taskId: Id, progress: P)
    requires UniqueLinks(tasks)
    requires forall i :: 0 <= i < |tasks| ==> tasks[i].calendarEventId != Some(e.id)
    ensures UniqueLinks(EagerTasks(tasks, key, today, e, taskId, progress))
  {
    var r := EagerTasks(tasks, key, today, e, taskId, progress);
    forall i, j | 0 <= i < j < |r| && r[i].calendarEventId.Some?
      ensures r[i].calendarEventId != r[j].calendarEventId
    {
      assert r[i] == tasks[i];
      if j == |tasks| {
        assert r[j].calendarEventId == Some(e.id);
      } else {
        assert r[j] == tasks[j];
      }
    }
  }

  /** Removing tasks never makes two of them share a link. */
  lemma {:induction false} FilterKeepsUniqueLinks<P>(tasks: seq<Task<P>>, p: Task<P> -> bool)
    requires UniqueLinks(tasks)
    ensures UniqueLinks(Filter(tasks, p))
  {
    if tasks != [] {
      var rest := tasks[1..];
      UniqueLinksTail(tasks);
      FilterKeepsUniqueLinks(rest, p);
      if p(tasks[0]) {
        HeadLinkFresh(tasks);
        UniqueLinksCons(tasks[0], Filter(rest, p));
        assert Filter(tasks, p) == [tasks[0]] + Filter(rest, p);
      }
    }
  }

  /** Dropping the first task keeps links unique. */
  lemma UniqueLinksTail<P>(tasks: seq<Task<P>>)
    requires tasks != [] && UniqueLinks(tasks)
    ensures UniqueLinks(tasks[1..])
  {
    var rest := tasks[1..];
    forall i, j | 0 <= i < j < |rest| && rest[i].calendarEventId.Some?
      ensures rest[i].calendarEventId != rest[j].calendarEventId
    {
      assert rest[i] == tasks[i + 1] && rest[j] == tasks[j + 1];
    }
  }

  /** The first task's link is carried by no later task. */
  lemma HeadLinkFresh<P>(tasks: seq<Task<P>>)
    requires tasks != [] && UniqueLinks(tasks)
    ensures tasks[0].calendarEventId.Some? ==>
              forall x :: x in tasks[1..] ==> x.calendarEventId != tasks[0].calendarEventId
  {
    if tasks[0].calendarEventId.Some? {
      forall x | x in tasks[1..] ensures x.calendarEventId != tasks[0].calendarEventId {
        var j :| 0 <= j < |tasks[1..]| && tasks[1..][j] == x;
        assert x == tasks[j + 1];
      }
    }
  }

  /** A task whose link no other task carries can go in front of a list with unique links. */
  lemma UniqueLinksCons<P>(t: Task<P>, rest: seq<Task<P>>)
    requires UniqueLinks(rest)
    requires t.calendarEventId.Some? ==> forall x :: x in rest ==> x.calendarEventId != t.calendarEventId
    ensures UniqueLinks([t] + rest)
  {
    var r := [t] + rest;
    forall i, j | 0 <= i < j < |r| && r[i].calendarEventId.Some?
      ensures r[i].calendarEventId != r[j].calendarEventId
    {
      assert r[j] == rest[j - 1];
      if i > 0 {
        assert r[i] == rest[i - 1];
      }
    }
  }

  /** Deleting an event leaves the lists of every other date untouched and keeps the other
      events of its own date in their order. */
  lemma {:induction false} DeleteEventKeepsOrder(events: Calendar, key: string, id: Id,
                                                 before: seq<Event>, after: seq<Event>, e: Event)
    requires key in events && events[key] == before + [e] + after
    requires e.id == id
    requires forall i :: 0 <= i < |before| ==> before[i].id != id
    requires forall i :: 0 <= i < |after| ==> after[i].id != id
    ensures WithoutEvent(events, key, id)[key] == before + after
  {
    var p := (x: Event) => x.id != id;
    assert WithoutEvent(events, key, id)[key] == Filter(before + [e] + after, p);
    FilterAppend(before + [e], after, p);
    FilterAppend(before, [e], p);
    FilterKeepsAll(before, p);
    FilterKeepsAll(after, p);
    assert [e][1..] == [];
    calc {
      Filter(before + [e] + after, p);
      Filter(before + [e], p) + Filter(after, p);
      Filter(before, p) + Filter([e], p) + Filter(after, p);
      before + [] + after;
      { assert before + [] == before; }
      before + after;
    }
  }
}
