/** The reminder scanner of the single-file variant: which of today's events start within the
    next ten minutes, how many whole minutes remain until each, and which of them would raise
    a desktop notification. "Now" and event times are milliseconds since local midnight; the
    clock reading itself is a parameter. */
module Reminders {
  import opened Records
  import opened Seqs
  import opened Decimal

  const MinuteMs: int := 60 * 1000
  const HourMs: int := 60 * MinuteMs
  const WindowMs: int := 10 * MinuteMs

  /** Notification permission of the browser. */
  datatype Permission = Default | Granted | Denied

  /** An upcoming event with the whole minutes left until it starts. */
  datatype Reminder = Reminder(event: Event, timeUntil: int)

  /** Position of the first colon, or the length when there is none. */
  function ColonAt(s: string): (k: nat)
    ensures k <= |s| && (k < |s| ==> s[k] == ':')
    ensures forall i :: 0 <= i < k ==> s[i] != ':'
  {
    if s == [] then 0 else if s[0] == ':' then 0 else 1 + ColonAt(s[1..])
  }

  /** The fields written out again with a colon between each two. */
  function JoinColon(fields: seq<string>): (r: string)
    requires |fields| >= 1
    ensures |r| >= |fields[0]| && r[..|fields[0]|] == fields[0]
  {
    if |fields| == 1 then fields[0] else fields[0] + ":" + JoinColon(fields[1..])
  }

  /** `s.split(':')`: the colon-separated fields, none of which holds a colon, and which
      joined with colons give back `s`. */
  function SplitColon(s: string): (r: seq<string>)
    ensures |r| >= 1
    ensures forall i :: 0 <= i < |r| ==> ':' !in r[i]
    ensures JoinColon(r) == s
    decreases |s|
  {
    var k := ColonAt(s);
    if k == |s| then [s]
    else
      var rest := SplitColon(s[k + 1..]);
      assert s == s[..k] + ":" + s[k + 1..];
      assert ([s[..k]] + rest)[1..] == rest;
      [s[..k]] + rest
  }

  /** `Number(s)` on a field of a time string: the empty string is zero, a string of digits is
      its value, anything else is not a number. */
  function ToNumber(s: string): (r: Option<nat>)
    ensures AllDigits(s) ==> r == Some(Value(s))
  {
    if AllDigits(s) then Some(Value(s)) else None
  }

  /** The event's start in milliseconds since midnight, from the hours and minutes fields of
      its time; none when either field is not a number (the date would be invalid). */
  function StartMs(time: string): (r: Option<int>)
    ensures r.Some? <==> var f := SplitColon(time);
                         |f| >= 2 && AllDigits(f[0]) && AllDigits(f[1])
    ensures r.Some? ==> r.value >= 0
  {
    var fields := SplitColon(time);
    if |fields| < 2 then None
    else
      var h := ToNumber(fields[0]);
      var m := ToNumber(fields[1]);
      if h.Some? && m.Some? then Some(h.value * HourMs + m.value * MinuteMs) else None
  }

  /** An event is upcoming when it has a time and now lies in the ten minutes before it. */
  predicate IsUpcoming(e: Event, nowMs: int)
    ensures IsUpcoming(e, nowMs) ==>
              e.time != [] && StartMs(e.time).Some? && 0 < StartMs(e.time).value - nowMs <= WindowMs
  {
    e.time != [] && StartMs(e.time).Some?
    && StartMs(e.time).value - WindowMs <= nowMs < StartMs(e.time).value
  }

  /** Whole minutes, rounded up, in `ms` milliseconds. */
  function MinutesUntil(ms: int): (r: int)
    ensures (r - 1) * MinuteMs < ms <= r * MinuteMs
  {
    -((-ms) / MinuteMs)
  }

  /** The reminder for an upcoming event. */
  function ReminderFor(e: Event, nowMs: int): (r: Reminder)
    requires IsUpcoming(e, nowMs)
    ensures r.event == e && 1 <= r.timeUntil <= 10
    ensures r.timeUntil == MinutesUntil(StartMs(e.time).value - nowMs)
  {
    TimeUntilWithinWindow(e, nowMs);
    Reminder(e, MinutesUntil(StartMs(e.time).value - nowMs))
  }

  /** Reminders for a list of upcoming events. */
  function ToReminders(events: seq<Event>, nowMs: int): (r: seq<Reminder>)
    requires forall i :: 0 <= i < |events| ==> IsUpcoming(events[i], nowMs)
    ensures |r| == |events|
    ensures forall i :: 0 <= i < |events| ==> r[i] == ReminderFor(events[i], nowMs)
  {
    if events == [] then []
    else [ReminderFor(events[0], nowMs)] + ToReminders(events[1..], nowMs)
  }

  /** The reminders of one scan over today's events, in calendar order. */
  function Upcoming(todayEvents: seq<Event>, nowMs: int): (r: seq<Reminder>)
    ensures forall i :: 0 <= i < |r| ==>
              (r[i].event in todayEvents && IsUpcoming(r[i].event, nowMs)
               && r[i] == ReminderFor(r[i].event, nowMs))
    ensures forall i :: 0 <= i < |r| ==> 1 <= r[i].timeUntil <= 10
    ensures forall i :: 0 <= i < |todayEvents| && IsUpcoming(todayEvents[i], nowMs) ==>
              exists j :: 0 <= j < |r| && r[j].event == todayEvents[i]
  {
    var keep := (e: Event) => IsUpcoming(e, nowMs);
    var upcoming := Filter(todayEvents, keep);
    var r := ToReminders(upcoming, nowMs);
    RemindersCoverUpcoming(todayEvents, keep, upcoming, r);
    r
  }

  /** One reminder per kept event covers every event the filter keeps. */
  lemma RemindersCoverUpcoming(todayEvents: seq<Event>, keep: Event -> bool, upcoming: seq<Event>,
                               r: seq<Reminder>)
    requires upcoming == Filter(todayEvents, keep)
    requires |r| == |upcoming| && forall j :: 0 <= j < |r| ==> r[j].event == upcoming[j]
    ensures forall i :: 0 <= i < |todayEvents| && keep(todayEvents[i]) ==>
              exists j :: 0 <= j < |r| && r[j].event == todayEvents[i]
  {
    forall i | 0 <= i < |todayEvents| && keep(todayEvents[i])
      ensures exists j :: 0 <= j < |r| && r[j].event == todayEvents[i]
    {
      var j :| 0 <= j < |upcoming| && upcoming[j] == todayEvents[i];
      assert r[j].event == todayEvents[i];
    }
  }

  /** The test a reminder must pass to raise a notification: a work event between one and
      ten minutes away. */
  predicate Notifies(x: Reminder)
    ensures Notifies(x) <==> TypeName(x.event.kind) == "work" && 0 < x.timeUntil <= 10
  {
    x.event.kind == Work && x.timeUntil <= 10 && x.timeUntil > 0
  }

  /** The reminders that raise a desktop notification: only with permission granted, and only
      work events between one and ten minutes away. */
  function ToNotify(upcoming: seq<Reminder>, permission: Permission): (r: seq<Reminder>)
    ensures permission != Granted ==> r == []
    ensures forall i :: 0 <= i < |r| ==>
              r[i] in upcoming && r[i].event.kind == Work && 0 < r[i].timeUntil <= 10
    ensures permission == Granted ==>
              forall i :: 0 <= i < |upcoming| && Notifies(upcoming[i]) ==> upcoming[i] in r
  {
    if |upcoming| > 0 && permission == Granted then Filter(upcoming, Notifies) else []
  }

  // ---------------------------------------------------------------------------------------
  // Properties of the scanner

  /** An upcoming event is between one and ten whole minutes away. */
  lemma TimeUntilWithinWindow(e: Event, nowMs: int)
    requires IsUpcoming(e, nowMs)
    ensures 1 <= MinutesUntil(StartMs(e.time).value - nowMs) <= 10
  {
  }

  /** An event without a time is never upcoming. */
  lemma UntimedNeverUpcoming(e: Event, nowMs: int)
    requires e.time == []
    ensures !IsUpcoming(e, nowMs)
  {
  }

  /** With permission granted, the minute bounds of the notification filter never exclude an
      upcoming reminder: exactly the work events among them notify. */
  lemma NotifyIsWorkReminders(todayEvents: seq<Event>, nowMs: int)
    ensures var up := Upcoming(todayEvents, nowMs);
            ToNotify(up, Granted) == Filter(up, (x: Reminder) => x.event.kind == Work)
  {
    var up := Upcoming(todayEvents, nowMs);
    if |up| > 0 {
      FilterSameOn(up, Notifies, (x: Reminder) => x.event.kind == Work);
    }
  }

  /** Two filters agree on a sequence on whose elements the two tests agree. */
  lemma {:induction false} FilterSameOn<T>(s: seq<T>, p: T -> bool, q: T -> bool)
    requires forall i :: 0 <= i < |s| ==> p(s[i]) == q(s[i])
    ensures Filter(s, p) == Filter(s, q)
  {
    if s != [] {
      FilterSameOn(s[1..], p, q);
    }
  }

  /** A time written `h:m` in decimal starts `h` hours and `m` minutes after midnight. */
  lemma StartOfClockTime(h: nat, m: nat)
    ensures StartMs(Digits(h) + ":" + Digits(m)) == Some(h * HourMs + m * MinuteMs)
  {
    var hs, ms := Digits(h), Digits(m);
    SplitTwoFields(hs, ms);
    ValueOfDigits(h);
    ValueOfDigits(m);
    StartOfFields(hs + ":" + ms, hs, ms, h, m);
  }

  /** A time whose two fields are digit strings denoting `hv` and `mv` starts `hv` hours and
      `mv` minutes after midnight. */
  lemma StartOfFields(time: string, hs: string, ms: string, hv: nat, mv: nat)
    requires AllDigits(hs) && AllDigits(ms) && SplitColon(time) == [hs, ms]
    requires Value(hs) == hv && Value(ms) == mv
    ensures StartMs(time) == Some(hv * HourMs + mv * MinuteMs)
  {
  }

  /** Two digit fields joined by a colon split back into the two fields. */
  lemma SplitTwoFields(hs: string, ms: string)
    requires AllDigits(hs) && AllDigits(ms)
    ensures SplitColon(hs + ":" + ms) == [hs, ms]
  {
    var time := hs + ":" + ms;
    assert ColonAt(time) == |hs| by {
      assert time == hs + (":" + ms);
      ColonAtDigits(hs, ":" + ms);
    }
    assert time[..|hs|] == hs && time[|hs| + 1..] == ms;
    assert ColonAt(ms) == |ms| by {
      ColonAtDigits(ms, "");
      assert ms + "" == ms;
    }
  }

  /** In a string that starts with digits, the first colon comes after them. */
  lemma {:induction false} ColonAtDigits(d: string, rest: string)
    requires AllDigits(d)
    requires rest == [] || rest[0] == ':'
    ensures ColonAt(d + rest) == |d|
    decreases |d|
  {
    if d != [] {
      assert (d + rest)[1..] == d[1..] + rest;
      ColonAtDigits(d[1..], rest);
    } else {
      assert d + rest == rest;
    }
  }

  /** A scan at 08:51 finds an event at 09:00 nine minutes away; at 09:00 the event is no
      longer upcoming. */
  lemma NineOClockScenario(e: Event)
    requires e.time == "09:00"
    ensures IsUpcoming(e, 8 * HourMs + 51 * MinuteMs)
    ensures MinutesUntil(StartMs(e.time).value - (8 * HourMs + 51 * MinuteMs)) == 9
    ensures !IsUpcoming(e, 9 * HourMs)
  {
    NineOClockStart();
  }

  /** The time `09:00` starts nine hours after midnight. */
  lemma NineOClockStart()
    ensures StartMs("09:00") == Some(9 * HourMs)
  {
    assert "09:00" == "09" + ":" + "00";
    assert Value("09") == 9 && Value("00") == 0;
    SplitTwoFields("09", "00");
    StartOfFields("09:00", "09", "00", 9, 0);
  }
}
