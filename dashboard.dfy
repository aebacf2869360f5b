/** The main dashboard's state cells and the handlers that replace them: the task list with
    its "completed today" counter, the calendar, the countdown with its running flag, the
    current task and the work session. Each handler's new state is given by the functions of
    the task-list, calendar, synchroniser and pomodoro modules; the class keeps the session
    invariant, the one-pomodoro bound on the countdown and distinct task ids. */
module App {
  import opened Records
  import opened Seqs
  import opened TaskList
  import opened CalendarStore
  import opened Sync
  import opened Pomodoro

  class Dashboard {
    var tasks: seq<PTask>
    var calendarEvents: Calendar
    var completedToday: nat
    var focusTimer: nat
    var isTimerRunning: bool
    var currentTaskId: Option<Id>
    var workSession: Session

    ghost predicate Valid()
      reads this
    {
      && SessionValid(workSession) && focusTimer <= FocusSeconds && UniqueIds(tasks)
      && UniqueLinks(tasks) && DistinctEventIds(calendarEvents)
    }

    /** The cells the countdown reads and writes, as one record. */
    function State(): Engine
      reads this
    {
      Engine(tasks, completedToday, focusTimer, isTimerRunning, currentTaskId, workSession)
    }

    /** An empty dashboard: no tasks, no events, a stopped 25-minute countdown, no session. */
    constructor ()
      ensures Valid()
      ensures tasks == [] && calendarEvents == map[] && completedToday == 0
      ensures focusTimer == FocusSeconds && !isTimerRunning
      ensures currentTaskId == None && workSession == NoSession
    {
      tasks := [];
      calendarEvents := map[];
      completedToday := 0;
      focusTimer := 25 * 60;
      isTimerRunning := false;
      currentTaskId := None;
      workSession := Session([], 0, false);
    }

    /** One run of the countdown effect: count down one second, or, at zero, credit the
        current task, move the session on and reset. The notice is what the user is told. */
    method Tick() returns (notice: Notice)
      requires Valid()
      modifies this
      ensures Valid()
      ensures State() == Step(old(State()))
      ensures notice == StepNotice(old(State()))
      ensures calendarEvents == old(calendarEvents)
    {
      if isTimerRunning && focusTimer > 0 {
        focusTimer := focusTimer - 1;
        notice := Silent;
      } else if focusTimer == 0 {
        notice := Expire();
      } else {
        notice := Silent;
      }
    }

    /** The countdown standing at zero: stop, credit the current task, move the session on,
        and put the countdown back at 25 minutes. */
    method Expire() returns (notice: Notice)
      requires Valid() && focusTimer == 0
      modifies this
      ensures Valid()
      ensures State() == Pomodoro.Expire(old(State()))
      ensures notice == ExpiryNotice(old(workSession))
      ensures calendarEvents == old(calendarEvents)
    {
      isTimerRunning := false;
      CreditCurrentTask();
      notice := ExpiryNotice(workSession);
      AdvanceSession();
      focusTimer := 25 * 60;
    }

    /** One more pomodoro for the current task, if one is set, and the counter moved up for
        each task that this pomodoro completes. */
    method CreditCurrentTask()
      requires UniqueIds(tasks) && UniqueLinks(tasks)
      modifies this`tasks, this`completedToday
      ensures UniqueIds(tasks) && UniqueLinks(tasks)
      ensures IsSet(currentTaskId) ==> tasks == Credited(old(tasks), currentTaskId.value)
      ensures IsSet(currentTaskId) ==>
                completedToday == old(completedToday) + NewlyDone(old(tasks), currentTaskId.value)
      ensures !IsSet(currentTaskId) ==> tasks == old(tasks) && completedToday == old(completedToday)
    {
      if IsSet(currentTaskId) {
        var id := currentTaskId.value;
        completedToday := completedToday + NewlyDone(tasks, id);
        assert forall i :: 0 <= i < |tasks| ==>
          Credited(tasks, id)[i].id == tasks[i].id
          && Credited(tasks, id)[i].calendarEventId == tasks[i].calendarEventId;
        tasks := Credited(tasks, id);
      }
    }

    /** The session moved to its next task when the snapshot of the current one reaches its
        target, or ended after the last one. */
    method AdvanceSession()
      requires SessionValid(workSession)
      modifies this`workSession, this`currentTaskId
      ensures SessionValid(workSession)
      ensures workSession == NextSession(old(workSession))
      ensures currentTaskId == NextCurrent(old(workSession), old(currentTaskId))
    {
      if workSession.isActive {
        var current := CurrentOf(workSession);
        if current.Some? && Finishes(current.value) {
          var next := workSession.currentIndex + 1;
          if next < |workSession.tasks| {
            currentTaskId := Some(workSession.tasks[next].id);
            workSession := workSession.(currentIndex := next);
          } else {
            workSession := Session([], 0, false);
            currentTaskId := None;
          }
        }
      }
    }

    /** The start/pause button: flips the running flag, nothing else. */
    method StartPause()
      requires Valid()
      modifies this
      ensures Valid()
      ensures isTimerRunning == !old(isTimerRunning) && focusTimer == old(focusTimer)
      ensures tasks == old(tasks) && calendarEvents == old(calendarEvents)
      ensures completedToday == old(completedToday) && currentTaskId == old(currentTaskId)
      ensures workSession == old(workSession)
    {
      isTimerRunning := !isTimerRunning;
    }

    /** The reset button: a full, stopped countdown from any state. */
    method ResetTimer()
      requires Valid()
      modifies this
      ensures Valid()
      ensures focusTimer == FocusSeconds && !isTimerRunning
      ensures tasks == old(tasks) && calendarEvents == old(calendarEvents)
      ensures completedToday == old(completedToday) && currentTaskId == old(currentTaskId)
      ensures workSession == old(workSession)
    {
      focusTimer := 25 * 60;
      isTimerRunning := false;
    }

    /** Adds an open task with the chosen pomodoro target at the end of the list, unless the
        text is blank. `id` stands for the clock reading the source uses as the new id. */
    method AddTask(text: string, pomodoros: int, id: Id)
      requires Valid()
      requires !IsBlank(text) ==> forall i :: 0 <= i < |tasks| ==> tasks[i].id != id
      modifies this
      ensures Valid()
      ensures tasks == if IsBlank(text) then old(tasks)
                       else old(tasks) + [Task(id, text, false, false, None, Progress(pomodoros, 0))]
      ensures calendarEvents == old(calendarEvents) && completedToday == old(completedToday)
      ensures focusTimer == old(focusTimer) && isTimerRunning == old(isTimerRunning)
      ensures currentTaskId == old(currentTaskId) && workSession == old(workSession)
    {
      if !IsBlank(text) {
        tasks := tasks + [Task(id, text, false, false, None, Progress(pomodoros, 0))];
      }
    }

    /** Flips the tasks with `id` and moves the counter for each of them. */
    method ToggleTask(id: Id)
      requires Valid()
      modifies this
      ensures Valid()
      ensures tasks == Toggled(old(tasks), id)
      ensures completedToday == ToggleCounter(old(completedToday), old(tasks), id)
      ensures calendarEvents == old(calendarEvents)
      ensures focusTimer == old(focusTimer) && isTimerRunning == old(isTimerRunning)
      ensures currentTaskId == old(currentTaskId) && workSession == old(workSession)
    {
      completedToday := ToggleCounter(completedToday, tasks, id);
      assert forall i :: 0 <= i < |tasks| ==>
        Toggled(tasks, id)[i].id == tasks[i].id
        && Toggled(tasks, id)[i].calendarEventId == tasks[i].calendarEventId;
      tasks := Toggled(tasks, id);
    }

    /** Removes the tasks with `id`, lowering the counter when the first of them was done. */
    method DeleteTask(id: Id)
      requires Valid()
      modifies this
      ensures Valid()
      ensures tasks == Deleted(old(tasks), id)
      ensures completedToday == DeleteCounter(old(completedToday), old(tasks), id)
      ensures calendarEvents == old(calendarEvents)
      ensures focusTimer == old(focusTimer) && isTimerRunning == old(isTimerRunning)
      ensures currentTaskId == old(currentTaskId) && workSession == old(workSession)
    {
      completedToday := DeleteCounter(completedToday, tasks, id);
      FilterKeepsUniqueIds(tasks, (t: PTask) => t.id != id);
      FilterKeepsUniqueLinks(tasks, (t: PTask) => t.id != id);
      tasks := Deleted(tasks, id);
    }

    /** Starts a work session over the open tasks among `sessionTasks`, on the first of them,
        with the countdown running; when all of them are done nothing changes. */
    method StartWorkSession(sessionTasks: seq<PTask>) returns (started: bool)
      requires Valid()
      modifies this
      ensures Valid()
      ensures started <==> Started(sessionTasks).Some?
      ensures started ==> && workSession == Started(sessionTasks).value
                          && currentTaskId == Some(workSession.tasks[0].id)
                          && isTimerRunning
      ensures !started ==> && workSession == old(workSession)
                           && currentTaskId == old(currentTaskId)
                           && isTimerRunning == old(isTimerRunning)
      ensures tasks == old(tasks) && calendarEvents == old(calendarEvents)
      ensures completedToday == old(completedToday) && focusTimer == old(focusTimer)
    {
      var incomplete := Incomplete(sessionTasks);
      if incomplete == [] {
        started := false;
        return;
      }
      workSession := Session(incomplete, 0, true);
      currentTaskId := Some(incomplete[0].id);
      isTimerRunning := true;
      started := true;
    }

    /** Works on one task outside any session, with the countdown running. */
    method StartIndividualTask(taskId: Id)
      requires Valid()
      modifies this
      ensures Valid()
      ensures currentTaskId == Some(taskId) && workSession == NoSession && isTimerRunning
      ensures tasks == old(tasks) && calendarEvents == old(calendarEvents)
      ensures completedToday == old(completedToday) && focusTimer == old(focusTimer)
    {
      currentTaskId := Some(taskId);
      workSession := Session([], 0, false);
      isTimerRunning := true;
    }

    /** Adds an event under `dateKey` unless the title is blank; when the date is `today`
        and the event is a work event marked "add to tasks", its task is added at once. The
        source reads the clock once for the event id and again, adding one, for the task id:
        both are fresh parameters here. */
    method AddEvent(dateKey: string, today: string, title: string, time: string, kind: EventType,
                    addToTasks: Option<bool>, eventId: Id, taskId: Id)
      requires Valid()
      requires !IsBlank(title) ==> FreshEventId(calendarEvents, tasks, eventId)
      requires !IsBlank(title) && dateKey == today && StoredFlag(addToTasks) && kind == Work ==>
                 forall i :: 0 <= i < |tasks| ==> tasks[i].id != taskId
      modifies this
      ensures Valid()
      ensures var e := Event(eventId, title, time, kind, StoredFlag(addToTasks));
              if IsBlank(title) then calendarEvents == old(calendarEvents) && tasks == old(tasks)
              else && calendarEvents == WithEvent(old(calendarEvents), dateKey, e)
                   && tasks == EagerTasks(old(tasks), dateKey, today, e, taskId, Progress(1, 0))
      ensures completedToday == old(completedToday)
      ensures focusTimer == old(focusTimer) && isTimerRunning == old(isTimerRunning)
      ensures currentTaskId == old(currentTaskId) && workSession == old(workSession)
    {
      if !IsBlank(title) {
        var e := Event(eventId, title, time, kind, StoredFlag(addToTasks));
        AddEventKeepsIdsDistinct(calendarEvents, tasks, dateKey, e);
        EagerTasksKeepLinksUnique(tasks, dateKey, today, e, taskId, Progress(1, 0));
        calendarEvents := WithEvent(calendarEvents, dateKey, e);
        if dateKey == today && e.addToTasks && e.kind == Work {
          tasks := tasks + [AutoTask(e, taskId, Progress(1, 0))];
        }
      }
    }

    /** Removes the events with `eventId` from the list of `dateKey`, and every task linked
        to that id from the task list. The date must have a list, as the source reads it
        without a fallback. */
    method DeleteEvent(dateKey: string, eventId: Id)
      requires Valid()
      requires dateKey in calendarEvents
      modifies this
      ensures Valid()
      ensures tasks == Unlinked(old(tasks), eventId)
      ensures calendarEvents == WithoutEvent(old(calendarEvents), dateKey, eventId)
      ensures forall k :: 0 <= k < |old(tasks)| && old(tasks)[k].calendarEventId == Some(eventId) ==>
                tasks == old(tasks)[..k] + old(tasks)[k + 1..]
      ensures completedToday == old(completedToday)
      ensures focusTimer == old(focusTimer) && isTimerRunning == old(isTimerRunning)
      ensures currentTaskId == old(currentTaskId) && workSession == old(workSession)
    {
      FilterKeepsUniqueIds(tasks, (t: PTask) => t.calendarEventId != Some(eventId));
      FilterKeepsUniqueLinks(tasks, (t: PTask) => t.calendarEventId != Some(eventId));
      DeleteEventKeepsIdsDistinct(calendarEvents, dateKey, eventId);
      forall k | 0 <= k < |tasks| && tasks[k].calendarEventId == Some(eventId)
        ensures Unlinked(tasks, eventId) == tasks[..k] + tasks[k + 1..]
      {
        CascadeRemovesOne(tasks, eventId, k);
      }
      tasks := Unlinked(tasks, eventId);
      calendarEvents := WithoutEvent(calendarEvents, dateKey, eventId);
    }

    /** One run of the synchroniser effect for the date key `today`; `ids` are the new task
        ids, one per pending event. */
    method SyncToday(today: string, ids: seq<Id>)
      requires Valid()
      requires |ids| == |Pending(EventsOn(calendarEvents, today), tasks)|
      requires FreshIds(tasks, ids)
      modifies this
      ensures Valid()
      ensures tasks == Synced(old(tasks), old(EventsOn(calendarEvents, today)), ids, Progress(1, 0))
      ensures calendarEvents == old(calendarEvents) && completedToday == old(completedToday)
      ensures focusTimer == old(focusTimer) && isTimerRunning == old(isTimerRunning)
      ensures currentTaskId == old(currentTaskId) && workSession == old(workSession)
    {
      var todayEvents := EventsOn(calendarEvents, today);
      var pending := Pending(todayEvents, tasks);
      SyncKeepsIdsUnique(tasks, todayEvents, ids, Progress(1, 0));
      SyncKeepsLinksUnique(tasks, todayEvents, ids, Progress(1, 0));
      if |pending| > 0 {
        tasks := tasks + NewTasks(pending, ids, Progress(1, 0));
      } else {
        assert tasks + NewTasks(pending, ids, Progress(1, 0)) == tasks;
      }
    }
  }
}
