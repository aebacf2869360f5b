/** The single-file variant of the dashboard: a task list without pomodoro counts, the same
    calendar and synchroniser, a plain countdown that only stops and resets at zero, and the
    reminder scanner. The class holds its state cells; each handler's new state is given by
    the functions of the shared modules. */
module TimeManagement {
  import opened Records
  import opened Seqs
  import opened TaskList
  import opened CalendarStore
  import opened Sync
  import opened Pomodoro
  import opened Reminders

  /** A task of this variant carries nothing beyond the common fields. */
  type STask = Task<()>

  /** The countdown's two state cells. */
  datatype Countdown = Countdown(timer: nat, running: bool)

  /** The countdown stands at zero when the effect runs, so the user is told to take a break. */
  predicate Alerts(c: Countdown)
    ensures Alerts(c) <==> c.timer == 0
  {
    !(c.running && c.timer > 0) && c.timer == 0
  }

  /** One run of this variant's countdown effect: down one second while running above zero;
      stopped and back at 25 minutes at zero; otherwise unchanged. */
  function CountdownStep(c: Countdown): (r: Countdown)
    ensures Alerts(c) ==> r == Countdown(FocusSeconds, false)
    ensures c.timer <= FocusSeconds ==> r.timer <= FocusSeconds
  {
    if c.running && c.timer > 0 then c.(timer := c.timer - 1)
    else if c.timer == 0 then Countdown(25 * 60, false)
    else c
  }

  /** `n` runs of the countdown effect. */
  function CountdownSteps(c: Countdown, n: nat): (r: Countdown)
    ensures c.timer <= FocusSeconds ==> r.timer <= FocusSeconds
    ensures !c.running && c.timer > 0 ==> r == c
    decreases n
  {
    if n == 0 then c else CountdownSteps(CountdownStep(c), n - 1)
  }

  /** This variant's countdown is the main dashboard's engine with no current task and no
      session: the same timer and running flag, the tasks and the counter untouched, and the
      plain "focus session complete" notice exactly when this one alerts. */
  lemma CountdownIsEngineWithoutTask(c: Countdown, tasks: seq<PTask>, done: nat)
    ensures var e := Engine(tasks, done, c.timer, c.running, None, NoSession);
            var r := CountdownStep(c);
            && Step(e) == Engine(tasks, done, r.timer, r.running, None, NoSession)
            && StepNotice(e) == if Alerts(c) then FocusComplete else Silent
  {
  }

  /** Started at `n` seconds, the countdown reaches zero after `n` ticks, still running, and
      the next tick stops it at 25 minutes with the alert. */
  lemma {:induction false} CountdownRunsOut(n: nat)
    ensures CountdownSteps(Countdown(n, true), n) == Countdown(0, true)
    ensures Alerts(CountdownSteps(Countdown(n, true), n))
    ensures CountdownSteps(Countdown(n, true), n + 1) == Countdown(FocusSeconds, false)
    decreases n
  {
    if n > 0 {
      CountdownRunsOut(n - 1);
      CountdownStepsSplit(Countdown(n, true), n);
      CountdownStepsSplit(Countdown(n, true), n + 1);
      assert CountdownStep(Countdown(n, true)) == Countdown(n - 1, true);
    }
  }

  /** The first of `n` steps can be taken separately. */
  lemma CountdownStepsSplit(c: Countdown, n: nat)
    requires n > 0
    ensures CountdownSteps(c, n) == CountdownSteps(CountdownStep(c), n - 1)
  {
  }

  /** The notification pass of the reminder effect: with permission granted and at least
      one reminder, each reminder in turn raises a notification when it passes the test. */
  method Notifications(upcoming: seq<Reminder>, permission: Permission) returns (notified: seq<Reminder>)
    ensures notified == ToNotify(upcoming, permission)
  {
    notified := [];
    if |upcoming| > 0 && permission == Granted {
      var i := 0;
      while i < |upcoming|
        invariant 0 <= i <= |upcoming|
        invariant notified == Filter(upcoming[..i], Notifies)
      {
        FilterAppend(upcoming[..i], [upcoming[i]], Notifies);
        assert upcoming[..i + 1] == upcoming[..i] + [upcoming[i]];
        if Notifies(upcoming[i]) {
          notified := notified + [upcoming[i]];
        }
        i := i + 1;
      }
      assert upcoming[..i] == upcoming;
    }
  }

  class Planner {
    var tasks: seq<STask>
    var completedToday: nat
    var focusTimer: nat
    var isTimerRunning: bool
    var calendarEvents: Calendar
    var upcomingReminders: seq<Reminder>
    var reminderPermission: Permission

    ghost predicate Valid()
      reads this
    {
      && focusTimer <= FocusSeconds
      && UniqueIds(tasks) && UniqueLinks(tasks) && DistinctEventIds(calendarEvents)
      && forall i :: 0 <= i < |upcomingReminders| ==> 1 <= upcomingReminders[i].timeUntil <= 10
    }

    /** The countdown's cells as one value. */
    function Timer(): Countdown
      reads this
    {
      Countdown(focusTimer, isTimerRunning)
    }

    /** An empty planner: no tasks, no events, no reminders, a stopped 25-minute countdown
        and notification permission not yet asked for. */
    constructor ()
      ensures Valid()
      ensures tasks == [] && completedToday == 0 && calendarEvents == map[]
      ensures Timer() == Countdown(FocusSeconds, false)
      ensures upcomingReminders == [] && reminderPermission == Default
    {
      tasks := [];
      completedToday := 0;
      focusTimer := 25 * 60;
      isTimerRunning := false;
      calendarEvents := map[];
      upcomingReminders := [];
      reminderPermission := Default;
    }

    /** One run of the countdown effect; `alerted` is whether the break alert is shown. */
    method Tick() returns (alerted: bool)
      requires Valid()
      modifies this`focusTimer, this`isTimerRunning
      ensures Valid()
      ensures Timer() == CountdownStep(old(Timer()))
      ensures alerted == Alerts(old(Timer()))
    {
      alerted := false;
      if isTimerRunning && focusTimer > 0 {
        focusTimer := focusTimer - 1;
      } else if focusTimer == 0 {
        isTimerRunning := false;
        alerted := true;
        focusTimer := 25 * 60;
      }
    }

    /** The start/pause button. */
    method StartPause()
      requires Valid()
      modifies this`isTimerRunning
      ensures Valid()
      ensures isTimerRunning == !old(isTimerRunning)
    {
      isTimerRunning := !isTimerRunning;
    }

    /** The reset button: a full, stopped countdown from any state. */
    method ResetTimer()
      requires Valid()
      modifies this`focusTimer, this`isTimerRunning
      ensures Valid()
      ensures Timer() == Countdown(FocusSeconds, false)
    {
      focusTimer := 25 * 60;
      isTimerRunning := false;
    }

    /** The browser's answer to the permission request. */
    method SetPermission(permission: Permission)
      requires Valid()
      modifies this`reminderPermission
      ensures Valid()
      ensures reminderPermission == permission
    {
      reminderPermission := permission;
    }

    /** One scan of the reminder effect at `nowMs` milliseconds after midnight of the day
        `todayKey`: stores the upcoming reminders and gives back those that raise a desktop
        notification, in order. */
    method CheckReminders(todayKey: string, nowMs: int) returns (notified: seq<Reminder>)
      requires Valid()
      modifies this`upcomingReminders
      ensures Valid()
      ensures upcomingReminders == Upcoming(EventsOn(calendarEvents, todayKey), nowMs)
      ensures notified == ToNotify(upcomingReminders, reminderPermission)
    {
      var upcoming := Upcoming(EventsOn(calendarEvents, todayKey), nowMs);
      upcomingReminders := upcoming;
      notified := Notifications(upcoming, reminderPermission);
    }

    /** Adds an open task at the end of the list, unless the text is blank. */
    method AddTask(text: string, id: Id)
      requires Valid()
      requires !IsBlank(text) ==> forall i :: 0 <= i < |tasks| ==> tasks[i].id != id
      modifies this`tasks
      ensures Valid()
      ensures tasks == if IsBlank(text) then old(tasks)
                       else old(tasks) + [Task(id, text, false, false, None, ())]
    {
      if !IsBlank(text) {
        tasks := tasks + [Task(id, text, false, false, None, ())];
      }
    }

    /** Flips the tasks with `id` and moves the counter for each of them. */
    method ToggleTask(id: Id)
      requires Valid()
      modifies this`tasks, this`completedToday
      ensures Valid()
      ensures tasks == Toggled(old(tasks), id)
      ensures completedToday == ToggleCounter(old(completedToday), old(tasks), id)
    {
      completedToday := ToggleCounter(completedToday, tasks, id);
      assert forall i :: 0 <= i < |tasks| ==>
        Toggled(tasks, id)[i].id == tasks[i].id
        && Toggled(tasks, id)[i].calendarEventId == tasks[i].calendarEventId;
      tasks := Toggled(tasks, id);
    }

    /** Removes the tasks with `id`, lowering the counter when the first of them was done. */
    method DeleteTask(id: Id)
      requires Valid()
      modifies this`tasks, this`completedToday
      ensures Valid()
      ensures tasks == Deleted(old(tasks), id)
      ensures completedToday == DeleteCounter(old(completedToday), old(tasks), id)
    {
      completedToday := DeleteCounter(completedToday, tasks, id);
      FilterKeepsUniqueIds(tasks, (t: STask) => t.id != id);
      FilterKeepsUniqueLinks(tasks, (t: STask) => t.id != id);
      tasks := Deleted(tasks, id);
    }

    /** Adds an event under `dateKey` unless the title is blank, and its task at once when
        the date is `today` and the event is a work event marked "add to tasks". */
    method AddEvent(dateKey: string, today: string, title: string, time: string, kind: EventType,
                    addToTasks: Option<bool>, eventId: Id, taskId: Id)
      requires Valid()
      requires !IsBlank(title) ==> FreshEventId(calendarEvents, tasks, eventId)
      requires !IsBlank(title) && dateKey == today && StoredFlag(addToTasks) && kind == Work ==>
                 forall i :: 0 <= i < |tasks| ==> tasks[i].id != taskId
      modifies this`calendarEvents, this`tasks
      ensures Valid()
      ensures var e := Event(eventId, title, time, kind, StoredFlag(addToTasks));
              if IsBlank(title) then calendarEvents == old(calendarEvents) && tasks == old(tasks)
              else && calendarEvents == WithEvent(old(calendarEvents), dateKey, e)
                   && tasks == EagerTasks(old(tasks), dateKey, today, e, taskId, ())
    {
      if !IsBlank(title) {
        var e := Event(eventId, title, time, kind, StoredFlag(addToTasks));
        AddEventKeepsIdsDistinct(calendarEvents, tasks, dateKey, e);
        EagerTasksKeepLinksUnique(tasks, dateKey, today, e, taskId, ());
        calendarEvents := WithEvent(calendarEvents, dateKey, e);
        if dateKey == today && e.addToTasks && e.kind == Work {
          tasks := tasks + [AutoTask(e, taskId, ())];
        }
      }
    }

    /** Removes the events with `eventId` from the list of `dateKey` and every task linked to
        that id. The date must have a list, as the source reads it without a fallback. */
    method DeleteEvent(dateKey: string, eventId: Id)
      requires Valid()
      requires dateKey in calendarEvents
      modifies this`calendarEvents, this`tasks
      ensures Valid()
      ensures tasks == Unlinked(old(tasks), eventId)
      ensures calendarEvents == WithoutEvent(old(calendarEvents), dateKey, eventId)
      ensures forall k :: 0 <= k < |old(tasks)| && old(tasks)[k].calendarEventId == Some(eventId) ==>
                tasks == old(tasks)[..k] + old(tasks)[k + 1..]
    {
      FilterKeepsUniqueIds(tasks, (t: STask) => t.calendarEventId != Some(eventId));
      FilterKeepsUniqueLinks(tasks, (t: STask) => t.calendarEventId != Some(eventId));
      DeleteEventKeepsIdsDistinct(calendarEvents, dateKey, eventId);
      forall k | 0 <= k < |tasks| && tasks[k].calendarEventId == Some(eventId)
        ensures Unlinked(tasks, eventId) == tasks[..k] + tasks[k + 1..]
      {
        CascadeRemovesOne(tasks, eventId, k);
      }
      tasks := Unlinked(tasks, eventId);
      calendarEvents := WithoutEvent(calendarEvents, dateKey, eventId);
    }

    /** One run of the synchroniser effect for the date key `today`; `ids` are the new task
        ids, one per pending event. */
    method SyncToday(today: string, ids: seq<Id>)
      requires Valid()
      requires |ids| == |Pending(EventsOn(calendarEvents, today), tasks)|
      requires FreshIds(tasks, ids)
      modifies this`tasks
      ensures Valid()
      ensures tasks == Synced(old(tasks), EventsOn(calendarEvents, today), ids, ())
    {
      var todayEvents := EventsOn(calendarEvents, today);
      var pending := Pending(todayEvents, tasks);
      SyncKeepsIdsUnique(tasks, todayEvents, ids, ());
      SyncKeepsLinksUnique(tasks, todayEvents, ids, ());
      if |pending| > 0 {
        tasks := tasks + NewTasks(pending, ids, ());
      } else {
        assert tasks + NewTasks(pending, ids, ()) == tasks;
      }
    }
  }
}
