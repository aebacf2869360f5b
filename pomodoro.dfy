/** The pomodoro engine of the main dashboard: a countdown in whole seconds with a running
    flag, driven one tick at a time. When the countdown stands at zero the engine credits one
    pomodoro to the current task, moves the work session on (or suggests a break), resets the
    countdown to 25 minutes and stops. The functions here take the engine's state cells as one
    record; the notice is what the dashboard announces to the user. */
module Pomodoro {
  import opened Records
  import opened TaskList

  type PTask = Task<Progress>

  /** The length of one pomodoro, 25 minutes. */
  const FocusSeconds: nat := 25 * 60

  /** A work session: a snapshot of the tasks queued when it started, the position of the
      task being worked on, and whether a session is running at all. */
  datatype Session = Session(tasks: seq<PTask>, currentIndex: nat, isActive: bool)

  const NoSession: Session := Session([], 0, false)

  /** An active session points into its queue; an inactive one is the empty session. */
  predicate SessionValid(s: Session)
  {
    (s.isActive ==> s.currentIndex < |s.tasks|) && (!s.isActive ==> s == NoSession)
  }

  /** The state cells the countdown reads and writes. */
  datatype Engine = Engine(tasks: seq<PTask>, completedToday: nat, focusTimer: nat, running: bool,
                           currentTaskId: Option<Id>, session: Session)

  /** What the dashboard announces after a step. */
  datatype Notice =
    | Silent
    | FocusComplete                                // no session: a plain focus period ended
    | NextTask(text: string)                       // the session moves on to this task
    | SessionComplete                              // the last task of the session is done
    | TakeBreak(long: bool, current: Option<string>) // the session stays on its task

  /** The current-task cell counts as set when it holds a non-zero id (a number is falsy when
      it is zero). */
  predicate IsSet(id: Option<Id>)
    ensures IsSet(id) <==> id != None && id != Some(0)
  {
    id.Some? && id.value != 0
  }

  /** One more pomodoro brings the task to its target. */
  predicate Finishes(t: PTask)
  {
    t.progress.completedPomodoros + 1 >= t.progress.pomodoros
  }

  /** The task with one more pomodoro done; its completion flag is overwritten by whether the
      target is now reached. */
  function Credit(t: PTask): (r: PTask)
    ensures r.id == t.id && r.text == t.text && r.fromCalendar == t.fromCalendar
    ensures r.calendarEventId == t.calendarEventId
    ensures r.progress.pomodoros == t.progress.pomodoros
    ensures r.progress.completedPomodoros == t.progress.completedPomodoros + 1
    ensures r.completed <==> r.progress.completedPomodoros >= r.progress.pomodoros
  {
    t.(completed := Finishes(t),
       progress := t.progress.(completedPomodoros := t.progress.completedPomodoros + 1))
  }

  /** The task list with every task carrying `id` credited one pomodoro. */
  function Credited(tasks: seq<PTask>, id: Id): (r: seq<PTask>)
    ensures |r| == |tasks|
    ensures forall i :: 0 <= i < |tasks| && tasks[i].id == id ==> r[i] == Credit(tasks[i])
    ensures forall i :: 0 <= i < |tasks| && tasks[i].id != id ==> r[i] == tasks[i]
  {
    if tasks == [] then []
    else [if tasks[0].id == id then Credit(tasks[0]) else tasks[0]] + Credited(tasks[1..], id)
  }

  /** How many tasks carrying `id` reach their target with this pomodoro while not yet marked
      completed: each of them moves the "completed today" counter up by one. */
  function NewlyDone(tasks: seq<PTask>, id: Id): (r: nat)
    ensures r <= |tasks|
  {
    if tasks == [] then 0
    else (if tasks[0].id == id && Finishes(tasks[0]) && !tasks[0].completed then 1 else 0)
         + NewlyDone(tasks[1..], id)
  }

  /** The snapshot task the session is on, if its position is inside the queue. */
  function CurrentOf(s: Session): Option<PTask>
  {
    if s.currentIndex < |s.tasks| then Some(s.tasks[s.currentIndex]) else None
  }

  /** The session advances when the snapshot of its current task reaches its target. */
  predicate Advances(s: Session)
  {
    s.isActive && CurrentOf(s).Some? && Finishes(CurrentOf(s).value)
  }

  /** The session after an expiry. */
  function NextSession(s: Session): (r: Session)
    ensures SessionValid(s) ==> SessionValid(r)
    ensures r == s <==> !Advances(s)
    ensures Advances(s) ==> (r.isActive <==> s.currentIndex + 1 < |s.tasks|)
    ensures Advances(s) && r.isActive ==> r.tasks == s.tasks && r.currentIndex == s.currentIndex + 1
  {
    if !Advances(s) then s
    else if s.currentIndex + 1 < |s.tasks| then s.(currentIndex := s.currentIndex + 1)
    else NoSession
  }

  /** The current-task cell after an expiry. */
  function NextCurrent(s: Session, current: Option<Id>): (r: Option<Id>)
    ensures !Advances(s) ==> r == current
    ensures Advances(s) && NextSession(s).isActive ==>
              r == Some(NextSession(s).tasks[NextSession(s).currentIndex].id)
    ensures Advances(s) && !NextSession(s).isActive ==> r == None
  {
    if !Advances(s) then current
    else if s.currentIndex + 1 < |s.tasks| then Some(s.tasks[s.currentIndex + 1].id)
    else None
  }

  /** The notice announced at an expiry. */
  function ExpiryNotice(s: Session): (r: Notice)
    ensures r != Silent
    ensures r == FocusComplete <==> !s.isActive
    ensures r == SessionComplete <==> Advances(s) && s.currentIndex + 1 >= |s.tasks|
  {
    if !s.isActive then FocusComplete
    else if Advances(s) then
      if s.currentIndex + 1 < |s.tasks| then NextTask(s.tasks[s.currentIndex + 1].text)
      else SessionComplete
    else
      var cur := CurrentOf(s);
      TakeBreak(s.currentIndex % 4 == 3, if cur.Some? then Some(cur.value.text) else None)
  }

  /** The state after the countdown has reached zero. */
  function Expire(e: Engine): (r: Engine)
    ensures r.focusTimer == FocusSeconds && !r.running
    ensures |r.tasks| == |e.tasks| && r.completedToday >= e.completedToday
    ensures !IsSet(e.currentTaskId) ==> r.tasks == e.tasks && r.completedToday == e.completedToday
    ensures SessionValid(e.session) ==> SessionValid(r.session)
  {
    var credit := IsSet(e.currentTaskId);
    Engine(
      if credit then Credited(e.tasks, e.currentTaskId.value) else e.tasks,
      e.completedToday + (if credit then NewlyDone(e.tasks, e.currentTaskId.value) else 0),
      FocusSeconds,
      false,
      NextCurrent(e.session, e.currentTaskId),
      NextSession(e.session))
  }

  /** One step of the countdown: a running countdown above zero goes down by one second; one
      standing at zero expires, whether or not it is running; otherwise nothing happens. */
  function Step(e: Engine): (r: Engine)
    ensures e.focusTimer > 0 ==> && r.tasks == e.tasks && r.completedToday == e.completedToday
                                 && r.session == e.session && r.currentTaskId == e.currentTaskId
                                 && r.running == e.running && r.focusTimer <= e.focusTimer
    ensures e.focusTimer == 0 ==> r.focusTimer == FocusSeconds && !r.running
  {
    if e.running && e.focusTimer > 0 then e.(focusTimer := e.focusTimer - 1)
    else if e.focusTimer == 0 then Expire(e)
    else e
  }

  /** The notice of one step. */
  function StepNotice(e: Engine): (r: Notice)
    ensures r != Silent <==> e.focusTimer == 0
  {
    if e.running && e.focusTimer > 0 then Silent
    else if e.focusTimer == 0 then ExpiryNotice(e.session)
    else Silent
  }

  /** `n` expiries in a row (the countdown is run down to zero between two of them). */
  function ExpireTimes(e: Engine, n: nat): Engine
    decreases n
  {
    if n == 0 then e else ExpireTimes(Expire(e), n - 1)
  }

  /** The session a start request opens over `sessionTasks`: the open tasks in their order,
      positioned on the first; none when every task is already done. */
  function Started(sessionTasks: seq<PTask>): (r: Option<Session>)
    ensures r.None? <==> forall i :: 0 <= i < |sessionTasks| ==> sessionTasks[i].completed
    ensures r.Some? ==> SessionValid(r.value) && r.value.isActive && r.value.currentIndex == 0
    ensures r.Some? ==> r.value.tasks == Incomplete(sessionTasks)
  {
    var open := Incomplete(sessionTasks);
    if open == [] then None else Some(Session(open, 0, true))
  }

  // ---------------------------------------------------------------------------------------
  // Properties of the engine

  /** A tick of a running countdown lowers it by exactly one second and changes nothing else. */
  lemma TickCountsDown(e: Engine)
    requires e.running && e.focusTimer > 0
    ensures Step(e).focusTimer == e.focusTimer - 1
    ensures Step(e) == e.(focusTimer := Step(e).focusTimer)
    ensures StepNotice(e) == Silent
  {
  }

  /** A paused countdown above zero does not move. */
  lemma PausedStaysPut(e: Engine)
    requires !e.running && e.focusTimer > 0
    ensures Step(e) == e && StepNotice(e) == Silent
  {
  }

  /** At expiry the countdown is back at 25 minutes and stopped, whatever the tasks and the
      session hold. */
  lemma ExpiryResets(e: Engine)
    requires e.focusTimer == 0
    ensures Step(e).focusTimer == FocusSeconds && Step(e).focusTimer == 1500
    ensures !Step(e).running
  {
  }

  /** At expiry with a current task set, exactly the tasks carrying its id change: one more
      pomodoro, and the completion flag overwritten by whether the target is reached. The
      other tasks and the order stay as they were. */
  lemma ExpiryCreditsCurrentTask(e: Engine)
    requires e.focusTimer == 0 && IsSet(e.currentTaskId)
    ensures var r := Step(e).tasks;
      && |r| == |e.tasks|
      && (forall i :: 0 <= i < |r| && e.tasks[i].id != e.currentTaskId.value ==> r[i] == e.tasks[i])
      && (forall i :: 0 <= i < |r| && e.tasks[i].id == e.currentTaskId.value ==>
            && r[i].id == e.tasks[i].id && r[i].text == e.tasks[i].text
            && r[i].calendarEventId == e.tasks[i].calendarEventId
            && r[i].progress.pomodoros == e.tasks[i].progress.pomodoros
            && r[i].progress.completedPomodoros == e.tasks[i].progress.completedPomodoros + 1
            && r[i].completed == (r[i].progress.completedPomodoros >= r[i].progress.pomodoros))
  {
  }

  /** Without a current task (no id, or the id zero) expiry leaves the tasks and the counter
      alone. */
  lemma ExpiryWithoutTask(e: Engine)
    requires e.focusTimer == 0 && !IsSet(e.currentTaskId)
    ensures Step(e).tasks == e.tasks && Step(e).completedToday == e.completedToday
  {
  }

  /** No task carries the id, so no task moves the counter. */
  lemma {:induction false} NewlyDoneAbsent(tasks: seq<PTask>, id: Id)
    requires forall i :: 0 <= i < |tasks| ==> tasks[i].id != id
    ensures NewlyDone(tasks, id) == 0
  {
    if tasks != [] {
      assert forall i :: 0 <= i < |tasks[1..]| ==> tasks[1..][i] == tasks[i + 1];
      NewlyDoneAbsent(tasks[1..], id);
    }
  }

  /** With distinct task ids, at most the one task with the id counts towards the counter. */
  lemma {:induction false} NewlyDoneUnique(tasks: seq<PTask>, id: Id, k: nat)
    requires UniqueIds(tasks)
    requires k < |tasks| && tasks[k].id == id
    ensures NewlyDone(tasks, id) == if Finishes(tasks[k]) && !tasks[k].completed then 1 else 0
  {
    if k == 0 {
      assert forall i :: 0 <= i < |tasks[1..]| ==> tasks[1..][i].id != id by {
        forall i | 0 <= i < |tasks[1..]| ensures tasks[1..][i].id != id {
          assert tasks[1..][i] == tasks[i + 1];
        }
      }
      NewlyDoneAbsent(tasks[1..], id);
    } else {
      assert tasks[0].id != id;
      assert UniqueIds(tasks[1..]) by {
        forall i, j | 0 <= i < j < |tasks[1..]| ensures tasks[1..][i].id != tasks[1..][j].id {
          assert tasks[1..][i] == tasks[i + 1] && tasks[1..][j] == tasks[j + 1];
        }
      }
      assert tasks[1..][k - 1] == tasks[k];
      NewlyDoneUnique(tasks[1..], id, k - 1);
    }
  }

  /** With distinct task ids, the counter goes up by one at expiry exactly when the current
      task reaches its target and was not already completed; otherwise it stays. */
  lemma ExpiryCounter(e: Engine, k: nat)
    requires e.focusTimer == 0 && IsSet(e.currentTaskId)
    requires UniqueIds(e.tasks) && k < |e.tasks| && e.tasks[k].id == e.currentTaskId.value
    ensures Step(e).completedToday ==
              e.completedToday + (if Finishes(e.tasks[k]) && !e.tasks[k].completed then 1 else 0)
  {
    NewlyDoneUnique(e.tasks, e.currentTaskId.value, k);
  }

  /** A task marked done by hand whose pomodoro count is still short of its target is marked
      open again by the next expiry, and the counter is not lowered for it. */
  lemma ExpiryReopensManuallyCompleted(e: Engine, k: nat)
    requires e.focusTimer == 0 && IsSet(e.currentTaskId)
    requires UniqueIds(e.tasks) && k < |e.tasks| && e.tasks[k].id == e.currentTaskId.value
    requires e.tasks[k].completed && !Finishes(e.tasks[k])
    ensures !Step(e).tasks[k].completed
    ensures Step(e).completedToday == e.completedToday
  {
    NewlyDoneUnique(e.tasks, e.currentTaskId.value, k);
  }

  /** When the snapshot of the session's current task reaches its target, the session moves to
      the next queued task, or ends when there is none. */
  lemma ExpiryAdvancesSession(e: Engine)
    requires e.focusTimer == 0 && e.session.isActive
    requires e.session.currentIndex < |e.session.tasks| && Finishes(e.session.tasks[e.session.currentIndex])
    ensures var s := e.session; var next := s.currentIndex + 1;
      if next < |s.tasks| then
        && Step(e).session == s.(currentIndex := next)
        && Step(e).currentTaskId == Some(s.tasks[next].id)
        && StepNotice(e) == NextTask(s.tasks[next].text)
      else
        && Step(e).session == Session([], 0, false)
        && Step(e).currentTaskId == None
        && StepNotice(e) == SessionComplete
  {
  }

  /** When the snapshot task has not reached its target (or the position is outside the
      queue), the session and the current task stay, and the break suggested is the long one
      exactly on every fourth position. */
  lemma ExpiryKeepsSession(e: Engine)
    requires e.focusTimer == 0 && e.session.isActive && !Advances(e.session)
    ensures Step(e).session == e.session && Step(e).currentTaskId == e.currentTaskId
    ensures StepNotice(e).TakeBreak? && (StepNotice(e).long <==> e.session.currentIndex % 4 == 3)
  {
  }

  /** Outside a session, expiry keeps the current task and announces a plain focus period. */
  lemma ExpiryOutsideSession(e: Engine)
    requires e.focusTimer == 0 && !e.session.isActive
    ensures Step(e).session == e.session && Step(e).currentTaskId == e.currentTaskId
    ensures StepNotice(e) == FocusComplete
  {
  }

  /** Every step keeps the session invariant: an active session points into its queue. */
  lemma StepKeepsSessionValid(e: Engine)
    requires SessionValid(e.session)
    ensures SessionValid(Step(e).session)
  {
  }

  /** Every step keeps the countdown within one pomodoro. */
  lemma StepKeepsTimerBounded(e: Engine)
    requires e.focusTimer <= FocusSeconds
    ensures Step(e).focusTimer <= FocusSeconds
  {
  }

  /** The session reads the snapshot taken when it started, never the live task: a queued task
      whose snapshot is short of its target by more than one pomodoro holds the session on it
      forever, even after the live task has been credited `n` more pomodoros. */
  lemma {:induction false} StaleSnapshotNeverAdvances(e: Engine, n: nat)
    requires e.session.isActive && e.session.currentIndex < |e.session.tasks|
    requires !Finishes(e.session.tasks[e.session.currentIndex])
    ensures ExpireTimes(e, n).session == e.session
    ensures ExpireTimes(e, n).currentTaskId == e.currentTaskId
    decreases n
  {
    if n > 0 {
      StaleSnapshotNeverAdvances(Expire(e), n - 1);
    }
  }

  /** `after` holds the same number of tasks as `before`, and the task at position `k` keeps
      its id and has `n` more pomodoros done. */
  ghost predicate GainedPomodoros(before: Engine, after: Engine, k: nat, n: nat)
  {
    && k < |before.tasks| && |after.tasks| == |before.tasks|
    && after.tasks[k].id == before.tasks[k].id
    && after.tasks[k].progress.completedPomodoros == before.tasks[k].progress.completedPomodoros + n
  }

  /** The session is stuck on the live task at position `k`: its snapshot is short of the
      target by more than the next pomodoro. */
  ghost predicate StuckOn(e: Engine, k: nat)
  {
    && e.session.isActive && e.session.currentIndex < |e.session.tasks|
    && !Finishes(e.session.tasks[e.session.currentIndex])
    && IsSet(e.currentTaskId) && k < |e.tasks| && e.tasks[k].id == e.currentTaskId.value
  }

  /** While the session is stuck, the live task keeps being credited: after `n` expiries it has
      `n` more pomodoros done. */
  lemma {:induction false} StuckSessionKeepsCrediting(e: Engine, n: nat, k: nat)
    requires StuckOn(e, k)
    ensures GainedPomodoros(e, ExpireTimes(e, n), k, n)
    decreases n, 1
  {
    if n > 0 {
      StuckExpiry(e, k);
      StuckSessionStep(e, Expire(e), n, k);
    }
  }

  /** The inductive step of the lemma above: the remaining `n - 1` expiries start from the
      engine `next` that one stuck expiry left behind. */
  lemma {:induction false} StuckSessionStep(e: Engine, next: Engine, n: nat, k: nat)
    requires n > 0 && StuckOn(next, k) && GainedPomodoros(e, next, k, 1)
    ensures GainedPomodoros(e, ExpireTimes(next, n - 1), k, n)
    decreases n, 0
  {
    StuckSessionKeepsCrediting(next, n - 1, k);
    GainedAdds(e, next, ExpireTimes(next, n - 1), k, 1, n - 1);
  }

  /** Gains along two runs add up. */
  lemma GainedAdds(a: Engine, b: Engine, c: Engine, k: nat, m: nat, n: nat)
    requires GainedPomodoros(a, b, k, m) && GainedPomodoros(b, c, k, n)
    ensures GainedPomodoros(a, c, k, m + n)
  {
  }

  /** One expiry while the session is stuck: session and current task stay, and the live
      task gains one pomodoro in place. */
  lemma StuckExpiry(e: Engine, k: nat)
    requires StuckOn(e, k)
    ensures Expire(e).session == e.session && Expire(e).currentTaskId == e.currentTaskId
    ensures StuckOn(Expire(e), k) && GainedPomodoros(e, Expire(e), k, 1)
  {
    assert !Advances(e.session);
    assert Expire(e).tasks == Credited(e.tasks, e.currentTaskId.value);
  }

  // ---------------------------------------------------------------------------------------
  // Scenarios

  /** A one-pomodoro task started on its own: when the countdown runs out the task is done,
      the counter goes up by one, and the countdown is back at 25 minutes and stopped. */
  lemma IndividualTaskScenario(text: string, id: Id, c: nat)
    requires id != 0
    ensures var t := Task(id, text, false, false, None, Progress(1, 0));
            var e := Engine([t], c, 0, true, Some(id), NoSession);
            var r := Step(e);
            && r.tasks == [t.(completed := true, progress := Progress(1, 1))]
            && r.completedToday == c + 1
            && r.focusTimer == 1500 && !r.running
  {
  }

  /** A work session over three one-pomodoro tasks moves one position per expiry and ends
      after the third. */
  lemma ThreeTaskSessionScenario(a: PTask, b: PTask, c: PTask)
    requires a.progress == b.progress == c.progress == Progress(1, 0)
    requires a.id != 0
    ensures var s := Session([a, b, c], 0, true);
            var e0 := Engine([a, b, c], 0, 0, true, Some(a.id), s);
            var e1 := Expire(e0);
            var e2 := Expire(e1.(focusTimer := 0));
            var e3 := Expire(e2.(focusTimer := 0));
            && e1.session.currentIndex == 1 && e1.currentTaskId == Some(b.id)
            && e2.session.currentIndex == 2 && e2.currentTaskId == Some(c.id)
            && e3.session == Session([], 0, false) && e3.currentTaskId == None
  {
  }
}
