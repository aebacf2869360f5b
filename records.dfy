/** The records the dashboard keeps in memory: tasks, calendar events and the text helpers
    shared by the task list and the calendar. */
module Records {

  datatype Option<T> = None | Some(value: T)

  /** Task and event identifiers are clock-derived numbers; the model treats them as opaque. */
  type Id = int

  /** The five kinds of calendar event. */
  datatype EventType = Work | Kid | Family | Personal | Appointment

  /** The string the event-type selector stores for each kind. */
  function TypeName(t: EventType): (r: string)
    ensures r in TypeNames
  {
    match t
    case Work => "work"
    case Kid => "kid"
    case Family => "family"
    case Personal => "personal"
    case Appointment => "appointment"
  }

  /** The type strings the selector offers. */
  const TypeNames: set<string> := {"work", "kid", "family", "personal", "appointment"}

  /** Different kinds are stored as different strings. */
  lemma TypeNameInjective(a: EventType, b: EventType)
    ensures TypeName(a) == TypeName(b) <==> a == b
  {
  }

  /** A calendar event; `time` is the `HH:MM` text of a time input, or empty. */
  datatype Event = Event(id: Id, title: string, time: string, kind: EventType, addToTasks: bool)

  /** A task of the to-do list. `progress` holds what one variant of the dashboard tracks
      beyond the common fields: pomodoro counts in the main dashboard, nothing (`()`) in the
      single-file variant. `calendarEventId` is the join key back to the event a task was
      generated from. */
  datatype Task<P> = Task(id: Id, text: string, completed: bool, fromCalendar: bool,
                          calendarEventId: Option<Id>, progress: P)

  /** Pomodoro target and pomodoros done so far. */
  datatype Progress = Progress(pomodoros: int, completedPomodoros: nat)

  /** The characters `String.prototype.trim` removes: ASCII white space, no-break spaces,
      the byte-order mark, line and paragraph separators and the Unicode space separators. */
  predicate IsWhitespace(c: char)
  {
    c == ' ' || c == '\t' || c == '\n' || c == '\r' || c == '\U{000B}' || c == '\U{000C}'
    || c == '\U{00A0}' || c == '\U{1680}' || ('\U{2000}' <= c <= '\U{200A}')
    || c == '\U{2028}' || c == '\U{2029}' || c == '\U{202F}' || c == '\U{205F}'
    || c == '\U{3000}' || c == '\U{FEFF}'
  }

  /** True when trimming `s` leaves the empty string, the condition under which the
      dashboard ignores a new task or event. */
  predicate IsBlank(s: string)
  {
    forall i :: 0 <= i < |s| ==> IsWhitespace(s[i])
  }

  /** `s` without its leading white space. */
  function TrimStart(s: string): (r: string)
    ensures r == [] <==> IsBlank(s)
    ensures r != [] ==> !IsWhitespace(r[0])
    ensures |r| <= |s| && r == s[|s| - |r|..]
    ensures forall i :: 0 <= i < |s| - |r| ==> IsWhitespace(s[i])
    decreases |s|
  {
    if s != [] && IsWhitespace(s[0]) then TrimStart(s[1..]) else s
  }

  /** `s` without its trailing white space; a string that starts with a character kept by
      `trim` keeps it. */
  function TrimEnd(s: string): (r: string)
    ensures |r| <= |s| && r == s[..|r|]
    ensures s != [] && !IsWhitespace(s[0]) ==> r != []
    ensures r != [] ==> !IsWhitespace(r[|r| - 1])
    ensures forall i :: |r| <= i < |s| ==> IsWhitespace(s[i])
    decreases |s|
  {
    if s != [] && IsWhitespace(s[|s| - 1]) then TrimEnd(s[..|s| - 1]) else s
  }

  /** `String.prototype.trim`: white space removed from both ends. The result is a prefix of
      `TrimStart(s)`, itself a suffix of `s`, so trimming keeps a contiguous piece of `s`. */
  function Trim(s: string): (r: string)
    ensures |r| <= |TrimStart(s)| && r == TrimStart(s)[..|r|]
    ensures forall i :: 0 <= i < |s| - |TrimStart(s)| ==> IsWhitespace(s[i])
    ensures forall i :: |r| <= i < |TrimStart(s)| ==> IsWhitespace(TrimStart(s)[i])
    ensures r != [] ==> !IsWhitespace(r[0]) && !IsWhitespace(r[|r| - 1])
  {
    TrimEnd(TrimStart(s))
  }

  /** A string is blank exactly when trimming it leaves nothing, so the guard on `trim()`
      being truthy is the guard on not being blank. */
  lemma BlankIffTrimEmpty(s: string)
    ensures IsBlank(s) <==> Trim(s) == []
  {
  }

  /** The text of a task generated from an event: `title (time)`, or just the title when the
      event has no time. */
  function Label(title: string, time: string): (r: string)
    ensures time == [] ==> r == title
    ensures time != [] ==> |r| == |title| + |time| + 3 && r[..|title|] == title
                           && r[|title|..|title| + 2] == " (" && r[|r| - 1] == ')'
                           && r[|title| + 2..|r| - 1] == time
  {
    if time == [] then title else title + " (" + time + ")"
  }
}
