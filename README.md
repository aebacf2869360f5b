# Parent + Remote Worker Hub: a verified model of the dashboard state

This project models the in-memory state logic of the to-do, calendar and pomodoro dashboard.
It covers two variants:

- the main dashboard (`src/App.tsx` with its `DailyTasks`, `Calendar` and `FocusTimer`
  components), which tracks pomodoro counts and runs work sessions;
- the older single-file variant (`src/time-management.tsx`), which has a plain countdown and a
  reminder scanner for upcoming events.

The model covers:

- the task list and its separately kept "completed today" counter;
- the calendar store, a map from date key to that day's events;
- the synchroniser that turns today's work events marked "add to tasks" into tasks;
- the pomodoro engine, with its expiry rule and work-session queue;
- the `m:ss` display of the countdown;
- the reminder window of the single-file variant.

Module layout:

| module | file | what it holds |
|---|---|---|
| `Seqs` | seqs.dfy | `Filter`, the model of `Array.prototype.filter`, and its laws |
| `Records` | records.dfy | tasks, events, event types, `trim` blankness, task labels |
| `TaskList` | task_list.dfy | toggle, delete, the counter rules, the open-task filter, the pomodoro total |
| `CalendarStore` | calendar_store.dfy | adding and deleting events, the eager task, the delete cascade, the type symbols |
| `Sync` | sync.dfy | the calendar-to-task synchroniser shared by both variants |
| `Pomodoro` | pomodoro.dfy | the countdown and expiry engine of the main dashboard |
| `Decimal` | decimal.dfy | decimal printing and reading of whole numbers |
| `TimeFormat` | time_format.dfy | `formatTime` and its reading back |
| `Reminders` | reminders.dfy | the ten-minute reminder window and the notification filter |
| `App` | dashboard.dfy | class `Dashboard`: the main dashboard's state cells and handlers |
| `TimeManagement` | planner.dfy | class `Planner`: the single-file variant's state cells and handlers |

React state cells become the fields of the classes `App.Dashboard` and
`TimeManagement.Planner`. Each handler becomes a method whose `ensures` gives the new state
as a function of the old one. Those functions are stated and proved on values in the shared
modules.

Each class keeps an invariant, `Valid()`, that every handler preserves:

- task ids are distinct;
- no two tasks are linked to the same event;
- the events of one date have distinct ids;
- the countdown stays within one pomodoro;
- in the main dashboard, an active work session points inside its queue.

Because links stay unique, deleting an event that has a generated task removes exactly that
task (`App.Dashboard.DeleteEvent`, `CalendarStore.CascadeRemovesOne`).

A task is the generic record `Task<P>`. In the main dashboard `P` is `Progress`, the pomodoro
target and the number done. In the single-file variant `P` is `()`. Both variants share the
toggle, delete, cascade and sync rules, so those are written once.

Inputs the source takes from the browser become parameters:

- ids drawn from `Date.now()` and `Math.random()` are parameters, and fresh ids are required;
- the task generated when an event is added takes its id from a second clock reading, so it
  is a fresh parameter of its own, apart from the event id;
- "today" and date keys are opaque strings;
- "now" is milliseconds since local midnight;
- the notification permission is a field set by `SetPermission`;
- a countdown tick and a run of the sync effect or the reminder scan are explicit method calls;
- `alert` and `Notification` are returned values: a `Notice`, a boolean, or the list of
  reminders that would notify.

The model follows the code as written, including four quirks:

- at expiry the credited task's `completed` flag is overwritten by whether it reached its
  target, so a task ticked off by hand can be reopened
  (`Pomodoro.ExpiryReopensManuallyCompleted`);
- the session advances by reading the snapshot taken when it started, so a task that needs
  more than one pomodoro holds the session forever while its live count keeps rising
  (`Pomodoro.StaleSnapshotNeverAdvances`, `Pomodoro.StuckSessionKeepsCrediting`);
- the counter is kept apart from the task list. Toggle and delete keep it equal to the number
  of completed tasks when it starts out equal (`TaskList.ToggleCounterTracksCount`,
  `TaskList.DeleteCounterTracksCount`), but expiry does not;
- the event-type symbols in `Calendar.tsx` are emoji whose UTF-8 bytes were read back as
  Windows-1254 (Turkish) text, so the page shows garbled characters. The model returns the
  same code points the source spells (`CalendarStore.Emoji`).

`formatTime` appears three times in the source, in `App.tsx`, `FocusTimer.tsx` and
`time-management.tsx`, with the same body. It is modelled once, as `TimeFormat.FormatTime`.

## Model

| member | source | states |
|---|---|---|
| Records.Label | src/components/Calendar.tsx:68 | the generated task text is `title (time)`: the title, " (", the time and ")" in that order, or the title alone when the time is empty |
| Records.TypeName | src/components/Calendar.tsx:8 | each event type is stored as one of the five type strings the selector offers |
| Records.TypeNameInjective | src/components/Calendar.tsx:8 | different event types are stored as different strings |
| Records.TrimStart | src/components/Calendar.tsx:46 | removing leading white space leaves a suffix of the string after a dropped prefix made only of white space: nothing exactly when the string is blank, otherwise a string that starts with a kept character |
| Records.TrimEnd | src/components/Calendar.tsx:46 | removing trailing white space leaves a prefix of the string, before a dropped suffix made only of white space, that ends with a kept character, and never empties a string that starts with one |
| Records.Trim | src/components/DailyTasks.tsx:53 | `trim()` drops only white space, from the front and then from the back, and keeps a contiguous piece of the string whose first and last characters are not white space |
| Records.BlankIffTrimEmpty | src/components/DailyTasks.tsx:53 | `IsBlank`, the guard the handlers test, holds exactly when `trim()` gives the empty, falsy string |
| Seqs.Filter | src/components/DailyTasks.tsx:88 | `filter` keeps exactly the elements that pass the test, takes nothing from outside the list, and is never longer than it |
| Seqs.FilterAppend | src/components/Calendar.tsx:87 | filtering distributes over concatenation, so kept elements stay in their relative order |
| TaskList.Toggled | src/components/DailyTasks.tsx:68-80 | toggling flips `completed` on exactly the tasks with the id and changes no other field; all other tasks and the order are unchanged |
| TaskList.ToggleTwice | src/components/DailyTasks.tsx:68-80 | toggling the same id twice gives back the original list |
| TaskList.ToggleCounter | src/components/DailyTasks.tsx:72-76 | the counter after a toggle; an unknown id leaves it unchanged |
| TaskList.ToggleCounterUnique | src/components/DailyTasks.tsx:72-76 | with distinct ids the counter goes up by one when the task was open and down by one, floored at zero, when it was done |
| TaskList.ToggleCounterTracksCount | src/components/DailyTasks.tsx:68-80 | a counter equal to the number of completed tasks (plus any offset) stays equal after a toggle, even when several tasks share the id |
| TaskList.Deleted | src/components/DailyTasks.tsx:88 | deleting removes every task with the id and keeps every other task; an unknown id leaves the list as it was |
| TaskList.Find | src/components/DailyTasks.tsx:84 | `find` returns the first task with the id, and nothing exactly when no task has it |
| TaskList.CountAfterDelete | src/components/DailyTasks.tsx:83-89 | with distinct ids, deleting lowers the number of completed tasks by one exactly when the found task was completed |
| TaskList.DeleteCounter | src/components/DailyTasks.tsx:83-87 | the delete counter never rises and falls by at most one; it falls exactly when it is above zero and the first task with the id was completed |
| TaskList.DeleteCounterTracksCount | src/components/DailyTasks.tsx:84-88 | with distinct ids, the counter after a delete still equals the number of completed tasks when it did before |
| TaskList.Incomplete | src/components/DailyTasks.tsx:93 | the open tasks in list order: every open task and no completed one; empty exactly when all tasks are done |
| TaskList.TotalPomodorosAppend | src/components/DailyTasks.tsx:114-116 | the pomodoro total of two lists joined is the sum of their totals |
| TaskList.TotalPomodoros | src/components/DailyTasks.tsx:114-116 | the pomodoro total is zero for no tasks and never negative when no target is |
| TaskList.TotalPomodorosAtLeastCount | src/components/DailyTasks.tsx:114-116 | with every target at least one, the total is at least the number of tasks |
| TaskList.FilterKeepsUniqueIds | src/components/DailyTasks.tsx:88 | removing tasks never makes two task ids equal |
| CalendarStore.EventsOn | src/components/Calendar.tsx:60 | the stored list of a date when it has one, and the empty list when it has none |
| CalendarStore.Qualifies | src/components/Calendar.tsx:67 | an event becomes a task exactly when it is marked "add to tasks" and its type is stored as "work" |
| CalendarStore.StoredFlag | src/components/Calendar.tsx:54 | the stored "add to tasks" flag is true exactly when the flag was given as true; a missing flag is stored as false |
| CalendarStore.WithEvent | src/components/Calendar.tsx:57-63 | adding appends the event at the end of its date's list, creating the list when absent; every other date is unchanged |
| CalendarStore.WithoutEvent | src/components/Calendar.tsx:89-92 | deleting removes the events with the id from the given date only and keeps the other events of that date; other dates are unchanged |
| CalendarStore.DeleteEventKeepsOrder | src/components/Calendar.tsx:89-92 | deleting an event with a unique id from its date leaves the events before and after it in their order |
| CalendarStore.AutoTask | src/components/Calendar.tsx:68-79 | the generated task is open, marked as from the calendar, linked to the event, labelled from its title and time, and carries the given id and progress |
| CalendarStore.EagerTasks | src/components/Calendar.tsx:65-80 | the task list keeps its prefix and grows by one task, the event's generated task, exactly when the date is today and the event is a work event marked "add to tasks" |
| CalendarStore.Unlinked | src/components/Calendar.tsx:87 | the cascade removes every task linked to the deleted event and keeps every other task |
| CalendarStore.CascadeRemovesOne | src/components/Calendar.tsx:87 | when one task is linked to the event, the cascade removes exactly that task and keeps the others in order |
| CalendarStore.AddEventKeepsIdsDistinct | src/components/Calendar.tsx:47-63 | adding an event with a fresh id keeps the event ids of every date distinct |
| CalendarStore.DeleteEventKeepsIdsDistinct | src/components/Calendar.tsx:89-92 | deleting events keeps the event ids of every date distinct |
| CalendarStore.EagerTasksKeepLinksUnique | src/components/Calendar.tsx:65-80 | the eager task for an event with a fresh id never makes two tasks share a link |
| CalendarStore.FilterKeepsUniqueLinks | src/components/Calendar.tsx:87 | removing tasks, as the cascade and the task delete do, never makes two tasks share a link |
| CalendarStore.Emoji | src/components/Calendar.tsx:116-125 | each of the five type names gets its own symbol, code point for code point as the source spells it, and every other string gets the default symbol |
| CalendarStore.EmojiDistinguishesTypes | src/components/Calendar.tsx:116-125 | the five types have five different symbols, none of them the default |
| Sync.Linked | src/App.tsx:118 | `tasks.some` on the link: false on no tasks, and otherwise true when the first task links to the event or some later one does |
| Sync.Pending | src/App.tsx:114-119 | the events awaiting a task are exactly today's work events marked "add to tasks" that no task is linked to |
| Sync.NewTasks | src/App.tsx:122-132 | one generated task per pending event, in order, each with its new id |
| Sync.Synced | src/App.tsx:121-135 | the sync leaves the existing tasks untouched at the front and appends exactly `NewTasks` of the pending events: one generated task per pending event, in order |
| Sync.SyncCovers | src/App.tsx:107-136 | after a run every qualifying event of today has a linked task |
| Sync.SyncIdempotent | src/App.tsx:107-136 | a second run of the sync finds nothing to add |
| Sync.SyncKeepsLinksUnique | src/App.tsx:115-134 | the sync never gives an event a second task when links were unique and today's event ids distinct |
| Sync.SyncKeepsIdsUnique | src/App.tsx:122-134 | with fresh new ids the sync keeps task ids distinct |
| Sync.EagerAddNeedsNoSync | src/components/Calendar.tsx:65-80 | adding an event to a calendar whose today list is in sync leaves the sync nothing to add, so the eager task and the sync never double up |
| Pomodoro.IsSet | src/App.tsx:56 | the current-task cell counts as set exactly when it is neither empty nor the falsy id zero |
| Pomodoro.Credited | src/App.tsx:57-73 | expiry credits one pomodoro to exactly the tasks with the current id and leaves the others and the order unchanged |
| Pomodoro.Credit | src/App.tsx:58-70 | a credited task has one more pomodoro done, keeps its id, text, link and target, and is marked completed exactly when it has reached its target |
| Pomodoro.NextSession | src/App.tsx:77-90 | the session changes exactly when the snapshot of its current task reaches its target; it then stays active, one task on, exactly when a next task exists, and otherwise ends; the session invariant is kept |
| Pomodoro.NextCurrent | src/App.tsx:77-90 | the current task stays unless the session advances; it then names the task the session is now on, or none when the session ended |
| Pomodoro.ExpiryNotice | src/App.tsx:77-96 | an expiry is always announced; the plain focus notice exactly outside a session, and the session-complete notice exactly when the last task reaches its target |
| Pomodoro.Expire | src/App.tsx:52-98 | at zero the countdown stops at 1500 seconds; the task list keeps its length, the counter never falls, nothing is credited without a current task, and the session invariant is kept |
| Pomodoro.Step | src/App.tsx:46-99 | above zero a tick changes at most the timer, never raising it; at zero it resets to 1500 seconds, stopped |
| Pomodoro.StepNotice | src/App.tsx:52-96 | the user is told something exactly when the countdown stands at zero |
| Pomodoro.NewlyDone | src/App.tsx:60-64 | how many credited tasks move the counter; never more than the number of tasks |
| Pomodoro.NewlyDoneAbsent | src/App.tsx:58-64 | when no task has the current id, no task moves the counter |
| Pomodoro.Started | src/components/DailyTasks.tsx:92-106 | a session starts over the open tasks in order at position zero and satisfies the session invariant; none starts when every task is done |
| Pomodoro.TickCountsDown | src/App.tsx:47-51 | a tick while running above zero lowers the countdown by exactly one and changes nothing else |
| Pomodoro.PausedStaysPut | src/App.tsx:47-52 | a paused countdown above zero does not change |
| Pomodoro.ExpiryResets | src/App.tsx:52-53 | at zero the countdown stops and is back at 1500 seconds, whatever the tasks and the session hold |
| Pomodoro.ExpiryCreditsCurrentTask | src/App.tsx:56-73 | at expiry only the tasks with the current id change: one more pomodoro, `completed` overwritten by whether the target is reached; the others and the order stay |
| Pomodoro.ExpiryWithoutTask | src/App.tsx:56 | with no current task, or the id zero, expiry leaves tasks and counter alone |
| Pomodoro.NewlyDoneUnique | src/App.tsx:60-64 | with distinct ids only the task with the current id can move the counter |
| Pomodoro.ExpiryCounter | src/App.tsx:60-64 | the counter rises by one at expiry exactly when the credited task reaches its target and was not already completed, and is unchanged otherwise |
| Pomodoro.ExpiryReopensManuallyCompleted | src/App.tsx:66-70 | a task completed by hand but short of its target is reopened by expiry, and the counter is not lowered |
| Pomodoro.ExpiryAdvancesSession | src/App.tsx:79-90 | when the snapshot task reaches its target the session moves to the next task and makes it current, or ends with no current task after the last |
| Pomodoro.ExpiryKeepsSession | src/App.tsx:91-92 | when the snapshot task is short of its target, session and current task stay, and the break is the long one exactly at positions 3, 7, 11 and so on |
| Pomodoro.ExpiryOutsideSession | src/App.tsx:94-95 | outside a session expiry keeps the current task and announces a plain focus break |
| Pomodoro.StepKeepsSessionValid | src/App.tsx:81-88 | every step keeps an active session's position inside its queue |
| Pomodoro.StepKeepsTimerBounded | src/App.tsx:45-105 | every step keeps the countdown within one pomodoro |
| Pomodoro.StaleSnapshotNeverAdvances | src/App.tsx:78-79 | a snapshot task short of its target by more than one holds the session on it through any number of expiries |
| Pomodoro.StuckExpiry | src/App.tsx:56-93 | one expiry while the snapshot task is short of its target keeps the session and the current task, and gives the live task one more pomodoro in place |
| Pomodoro.StuckSessionKeepsCrediting | src/App.tsx:56-79 | while the session is stuck, the live task gains one pomodoro per expiry |
| Pomodoro.IndividualTaskScenario | src/components/DailyTasks.tsx:108-112 | a one-pomodoro task started on its own is done after its countdown runs out, the counter rises by one and the countdown is reset and stopped |
| Pomodoro.ThreeTaskSessionScenario | src/App.tsx:79-90 | a session over three one-pomodoro tasks moves one position per expiry and ends after the third |
| Decimal.Digits | src/components/FocusTimer.tsx:14 | a whole number prints as a non-empty string of digits, one digit exactly below ten, with no leading zero except for zero itself |
| Decimal.ValueOfDigits | src/components/FocusTimer.tsx:14 | reading a printed number back gives the number |
| Decimal.ValueLeadingZero | src/components/FocusTimer.tsx:14 | a padding zero does not change the value read |
| TimeFormat.PadTwo | src/components/FocusTimer.tsx:14 | padding makes a short string two characters, zeros followed by the original, and leaves longer ones alone |
| TimeFormat.FormatTime | src/components/FocusTimer.tsx:11-15 | the display is digits, a colon, and exactly two digits |
| TimeFormat.FormatTimeRoundTrip | src/components/FocusTimer.tsx:11-15 | the display reads back as minutes times sixty plus seconds below sixty, which is the number of seconds shown |
| TimeFormat.FormatFullPomodoro | src/App.tsx:138-142 | a full pomodoro displays as `25:00` |
| Reminders.ToNumber | src/time-management.tsx:73 | a field of digits reads as its value, the empty field as zero |
| Reminders.MinutesUntil | src/time-management.tsx:83 | the minutes until an event are the milliseconds left divided by a minute, rounded up |
| Reminders.SplitColon | src/time-management.tsx:73 | `split(':')` gives at least one field, no field holds a colon, and the fields joined with colons give back the string |
| Reminders.StartMs | src/time-management.tsx:73-75 | an event time has a start exactly when its first two colon-separated fields are numbers; the start is never negative |
| Reminders.IsUpcoming | src/time-management.tsx:70-80 | an upcoming event has a time, and its start lies in the ten minutes after now |
| Reminders.ReminderFor | src/time-management.tsx:81-84 | the reminder of an upcoming event carries that event and the whole minutes, rounded up, until its start, a count between one and ten |
| Reminders.ToReminders | src/time-management.tsx:81-84 | each upcoming event gets its reminder with the minutes left, in order |
| Reminders.Upcoming | src/time-management.tsx:68-84 | the reminders are exactly today's events now within the ten minutes before their start, each the `ReminderFor` of its event, so it carries the rounded-up minutes until the start, between one and ten |
| Reminders.TimeUntilWithinWindow | src/time-management.tsx:77-83 | an upcoming event is between one and ten whole minutes away |
| Reminders.UntimedNeverUpcoming | src/time-management.tsx:71 | an event without a time is never upcoming |
| Reminders.StartOfClockTime | src/time-management.tsx:73-75 | a time written `h:m` starts `h` hours and `m` minutes after midnight |
| Reminders.NineOClockStart | src/time-management.tsx:73-75 | the time `09:00` starts nine hours after midnight |
| Reminders.NineOClockScenario | src/time-management.tsx:70-84 | at 08:51 an event at 09:00 is upcoming and nine minutes away; at 09:00 it is not |
| Reminders.Notifies | src/time-management.tsx:91 | a reminder passes the notification test exactly when its event type is stored as "work" and it is between one and ten minutes away |
| Reminders.ToNotify | src/time-management.tsx:89-98 | a notification is raised only with permission granted, and then for exactly the work reminders between one and ten minutes away |
| Reminders.NotifyIsWorkReminders | src/time-management.tsx:89-98 | with permission granted the minute bounds never exclude an upcoming reminder: exactly the work reminders notify |
| TimeManagement.Alerts | src/time-management.tsx:51-53 | the completion alert fires exactly when the countdown is at zero; the running test before it never hides a zero |
| TimeManagement.CountdownStep | src/time-management.tsx:45-61 | at zero the countdown stops and is back at 1500 seconds; it never leaves the one-pomodoro bound |
| TimeManagement.CountdownIsEngineWithoutTask | src/time-management.tsx:45-61 | this variant's countdown behaves as the main engine with no current task and no session: same timer and flag, tasks and counter untouched |
| TimeManagement.CountdownRunsOut | src/time-management.tsx:47-55 | a running countdown from `n` reaches zero after `n` ticks, and the next tick alerts and resets it |
| TimeManagement.CountdownSteps | src/time-management.tsx:45-61 | any number of ticks keeps the one-pomodoro bound, and a paused countdown above zero stays put |
| TimeManagement.Notifications | src/time-management.tsx:89-98 | the notification loop raises one notification per passing reminder, in order, and equals the notification filter |
| TimeManagement.Planner.constructor | src/time-management.tsx:28-42 | the initial state: no tasks, no events, no reminders, a stopped 1500-second countdown, permission not asked |
| TimeManagement.Planner.Tick | src/time-management.tsx:45-61 | the countdown cells follow `CountdownStep`; the alert is shown exactly at zero; nothing else changes |
| TimeManagement.Planner.StartPause | src/time-management.tsx:591-592 | the button flips the running flag and keeps the planner's invariant |
| TimeManagement.Planner.ResetTimer | src/time-management.tsx:597-601 | the reset button stops the countdown at 1500 seconds from any state |
| TimeManagement.Planner.SetPermission | src/time-management.tsx:108-118 | the stored permission is the browser's answer, and the planner's invariant is kept |
| TimeManagement.Planner.CheckReminders | src/time-management.tsx:64-99 | stores today's upcoming reminders and returns exactly those that raise a notification |
| TimeManagement.Planner.AddTask | src/time-management.tsx:126-137 | blank text changes nothing; otherwise one open task is appended and the rest is unchanged |
| TimeManagement.Planner.ToggleTask | src/time-management.tsx:139-152 | the tasks and the counter follow `Toggled` and `ToggleCounter` |
| TimeManagement.Planner.DeleteTask | src/time-management.tsx:154-160 | the tasks and the counter follow `Deleted` and `DeleteCounter` |
| TimeManagement.Planner.AddEvent | src/time-management.tsx:167-204 | a blank title changes nothing; otherwise the event, with a fresh id, is appended to its date and the eager task, with its own fresh id, is added when it applies; event ids per date stay distinct and links unique |
| TimeManagement.Planner.DeleteEvent | src/time-management.tsx:231-239 | removes the event from its date and every linked task; with links kept unique, a linked task is the only one removed and the others keep their order |
| TimeManagement.Planner.SyncToday | src/time-management.tsx:206-229 | the task list follows `Synced` and keeps distinct ids and unique links |
| App.Dashboard.constructor | src/App.tsx:33-43 | the initial state: no tasks, no events, counter zero, a stopped 1500-second countdown, no current task, no session |
| App.Dashboard.Tick | src/App.tsx:45-105 | the state cells follow `Step` and the notice `StepNotice`; the session invariant, the timer bound, distinct ids and unique links are kept; the calendar is untouched |
| App.Dashboard.Expire | src/App.tsx:52-98 | at zero: stop, credit the current task, move the session on, reset to 1500 seconds |
| App.Dashboard.CreditCurrentTask | src/App.tsx:56-74 | with a current task, the tasks follow `Credited` and the counter rises by `NewlyDone`; otherwise both are unchanged |
| App.Dashboard.AdvanceSession | src/App.tsx:76-93 | session and current task follow `NextSession` and `NextCurrent`, keeping the session invariant |
| App.Dashboard.StartPause | src/components/FocusTimer.tsx:34 | the button flips the running flag and leaves the countdown and everything else unchanged |
| App.Dashboard.ResetTimer | src/components/FocusTimer.tsx:17-20 | the reset sets the countdown to 1500 seconds and stops it from any state; nothing else changes |
| App.Dashboard.AddTask | src/components/DailyTasks.tsx:52-66 | blank text changes nothing; otherwise one open task with the chosen target and no pomodoros done is appended, and the earlier tasks are unchanged |
| App.Dashboard.ToggleTask | src/components/DailyTasks.tsx:68-81 | the tasks and the counter follow `Toggled` and `ToggleCounter`; nothing else changes |
| App.Dashboard.DeleteTask | src/components/DailyTasks.tsx:83-89 | the tasks and the counter follow `Deleted` and `DeleteCounter`; nothing else changes |
| App.Dashboard.StartWorkSession | src/components/DailyTasks.tsx:92-106 | with an open task, the session becomes `Started`, the first queued task is current and the countdown runs; with none, nothing changes |
| App.Dashboard.StartIndividualTask | src/components/DailyTasks.tsx:108-112 | the task becomes current, the session is cleared and the countdown runs |
| App.Dashboard.AddEvent | src/components/Calendar.tsx:45-84 | a blank title changes nothing; otherwise the event, with a fresh id, goes at the end of its date's list and the eager task, with its own fresh id, is appended when the date is today and the event qualifies; event ids per date stay distinct and links unique |
| App.Dashboard.DeleteEvent | src/components/Calendar.tsx:86-93 | the tasks follow `Unlinked` and the calendar `WithoutEvent`; with links kept unique, a linked task is the only task removed and the others keep their order; nothing else changes |
| App.Dashboard.SyncToday | src/App.tsx:107-136 | the task list follows `Synced` with one-pomodoro tasks; distinct ids and unique links are kept; nothing else changes |

## Left out

- Rendering: JSX, CSS class choice, navigation and routing, and the tips panels and `ParentHacks` (static content).
- Scheduling: `setInterval`, `useEffect` teardown and React's batching and re-render order. A tick, a sync run and a reminder scan are explicit calls on the current state.
- `alert` and the browser `Notification` API, including the permission request. They appear only as returned notices, flags or the list of reminders that would notify.
- Id generation from `Date.now()` and `Math.random()`. Ids are parameters. A new task id must differ from the existing ones. A new event id must be carried by no stored event and no task link. The source relies on the clock for both and does not check them.
- Date handling: `toISOString` date keys, month navigation and the day helpers. "Today" and date keys are opaque strings, and "now" is milliseconds since local midnight.
- Daylight-saving shifts within a day are not modelled.
- The `Math.round` percentage and hour displays: floating-point display only.
- The `priority` and `timeEstimate` fields, which never affect behaviour.
- The reset of the input fields after adding a task or an event: this is form state outside the model.
- Reminders.ToNumber: accepts only digit strings and the empty string. Other strings `Number` would accept (surrounding white space, signs, decimals, exponents) count as not a number, so such a time is never upcoming.
- App.Dashboard.DeleteEvent: requires the date to have a list. In the source, deleting from a date with no list throws.
- TimeManagement.Planner.DeleteEvent: the same requirement as `App.Dashboard.DeleteEvent`; its only call site deletes from the list being shown.
- App.Dashboard.AddEvent: the event type is one of the five type names offered by the selector; other type strings are not modelled, though `CalendarStore.Emoji` handles any string.
- TimeManagement.Planner.AddEvent: the same restriction to the five selector type names as `App.Dashboard.AddEvent`.
