/**
 * Daily schedules (controls.c): whether a minute lies in a window that may wrap
 * past midnight, and how long until the window's next edge.  An override is kept
 * that long, so that it ends at the schedule's next edge.
 */
module Schedule {
  const DAY_MIN: int := 1440
  const DAY_S: int := 86400

  /** C's division and remainder, which truncate toward zero. */
  function Quotient(a: int, b: int): int
    requires b > 0
  {
    if a >= 0 then a / b else -(-a / b)
  }

  function Remainder(a: int, b: int): int
    requires b > 0
  {
    a - Quotient(a, b) * b
  }

  /** in_window: inside [from, until), which may wrap past midnight; an empty window holds nothing. */
  predicate InWindow(now: int, from: int, until: int) {
    if from == until then false
    else if from < until then from <= now < until
    else now >= from || now < until
  }

  /** The minutes of the window are those from its start up to its end around the clock. */
  lemma WindowIsArc(now: int, from: int, until: int)
    requires 0 <= now < DAY_MIN && 0 <= from < DAY_MIN && 0 <= until < DAY_MIN
    ensures InWindow(now, from, until) <==> (now - from) % DAY_MIN < (until - from) % DAY_MIN
  {
  }

  /** local_minutes, at wall time t with the zone's offset in minutes. */
  function LocalMinutes(t: int, offset: int): (m: int)
    ensures 0 <= m < DAY_MIN
  {
    var m := Remainder(Quotient(t, 60) + offset, DAY_MIN);
    if m < 0 then m + DAY_MIN else m
  }

  function SecondsToday(t: int, offset: int): (s: int)
    ensures 0 <= s < DAY_S
    ensures s == (t + offset * 60) % DAY_S
  {
    var s := Remainder(t + offset * 60, DAY_S);
    if s < 0 then s + DAY_S else s
  }

  /** Seconds from a second of the day to an edge, always some. */
  function Wait(seconds: int, edge: int): int {
    if edge * 60 - seconds <= 0 then edge * 60 - seconds + DAY_S else edge * 60 - seconds
  }

  function NextBoundary(t: int, offset: int, from: int, until: int): int {
    var a, b := Wait(SecondsToday(t, offset), from), Wait(SecondsToday(t, offset), until);
    if a < b then a else b
  }

  /** Whether the schedule is on. */
  predicate On(t: int, offset: int, from: int, until: int) {
    InWindow(LocalMinutes(t, offset), from, until)
  }

  /** The schedule stays as it is for that many seconds, and flips exactly then. */
  ghost predicate FlipsAfter(t: int, wait: int, offset: int, from: int, until: int) {
    && (forall u :: t <= u < t + wait ==> On(u, offset, from, until) == On(t, offset, from, until))
    && On(t + wait, offset, from, until) != On(t, offset, from, until)
  }

  /** The schedule as the calendar has it, minutes rounded down. */
  predicate Calendar(t: int, offset: int, from: int, until: int) {
    InWindow((t / 60 + offset) % DAY_MIN, from, until)
  }

  /** From 1970 on the code agrees with the calendar; before, truncation puts every minute's start 59 s early. */
  lemma OnCalendar(t: int, offset: int, from: int, until: int)
    ensures On(t, offset, from, until) == Calendar(if t >= 0 then t else t + 59, offset, from, until)
  {
  }

  lemma MinuteOfSecond(t: int, offset: int)
    ensures (t / 60 + offset) % DAY_MIN == SecondsToday(t, offset) / 60
  {
    var minutes := t / 60 + offset;
    var days := minutes / DAY_MIN;
    assert t + offset * 60 == days * DAY_S + (minutes % DAY_MIN) * 60 + t % 60;
    assert SecondsToday(t, offset) == (minutes % DAY_MIN) * 60 + t % 60;
  }

  predicate OnAt(seconds: int, from: int, until: int) {
    InWindow(seconds / 60, from, until)
  }

  lemma MinuteBelow(seconds: int, edge: int)
    ensures seconds / 60 < edge <==> seconds < edge * 60
  {
  }

  /** Within a day the schedule keeps until the next edge and flips there. */
  lemma DayFlips(seconds: int, k: int, from: int, until: int)
    requires 0 <= seconds < DAY_S && 0 <= from < DAY_MIN && 0 <= until < DAY_MIN && from != until
    requires 0 <= k <= Wait(seconds, from) && k <= Wait(seconds, until)
    ensures OnAt((seconds + k) % DAY_S, from, until) == OnAt(seconds, from, until) <==>
            k < Wait(seconds, from) && k < Wait(seconds, until)
  {
    var later := (seconds + k) % DAY_S;
    assert later == if seconds + k < DAY_S then seconds + k else seconds + k - DAY_S;
    MinuteBelow(seconds, from);
    MinuteBelow(seconds, until);
    MinuteBelow(later, from);
    MinuteBelow(later, until);
    var m, n := seconds / 60, later / 60;
    assert OnAt(seconds, from, until) == InWindow(m, from, until) && OnAt(later, from, until) == InWindow(n, from, until);
  }

  lemma SecondShift(t: int, u: int, offset: int)
    ensures SecondsToday(u, offset) == (SecondsToday(t, offset) + (u - t)) % DAY_S
  {
    hide SecondsToday;
  }

  lemma EdgeMinute(t: int, offset: int, wait: int)
    ensures (t + wait) % 60 == (SecondsToday(t, offset) + wait) % 60
  {
    var d := (t + offset * 60) / DAY_S;
    assert t + offset * 60 == d * DAY_S + SecondsToday(t, offset);
    hide SecondsToday;
    assert t + wait == (d * 1440 - offset) * 60 + (SecondsToday(t, offset) + wait);
  }

  lemma CalendarFlips(t: int, u: int, offset: int, from: int, until: int)
    requires 0 <= from < DAY_MIN && 0 <= until < DAY_MIN && from != until
    requires t <= u <= t + NextBoundary(t, offset, from, until)
    ensures Calendar(u, offset, from, until) == Calendar(t, offset, from, until) <==>
            u < t + NextBoundary(t, offset, from, until)
  {
    MinuteOfSecond(t, offset);
    MinuteOfSecond(u, offset);
    SecondShift(t, u, offset);
    DayFlips(SecondsToday(t, offset), u - t, from, until);
    hide SecondsToday, InWindow, Wait;
  }

  lemma EdgeWhole(t: int, offset: int, from: int, until: int)
    requires 0 <= from < DAY_MIN && 0 <= until < DAY_MIN
    ensures (t + NextBoundary(t, offset, from, until)) % 60 == 0 && NextBoundary(t, offset, from, until) > 0
  {
    EdgeMinute(t, offset, NextBoundary(t, offset, from, until));
    hide SecondsToday;
  }

  /**
   * For every wall time, zone and window with two different edges, the schedule
   * holds still until next_boundary_s has elapsed and flips exactly then, if and
   * only if that edge lies after the epoch: before it, C rounds minutes the other
   * way.
   */
  lemma EdgeExact(t: int, offset: int, from: int, until: int)
    requires 0 <= from < DAY_MIN && 0 <= until < DAY_MIN && from != until
    ensures var w := NextBoundary(t, offset, from, until);
            FlipsAfter(t, w, offset, from, until) <==> t + w > 0
  {
    var w := NextBoundary(t, offset, from, until);
    var edge := t + w;
    EdgeWhole(t, offset, from, until);
    CalendarFlips(t, edge, offset, from, until);
    OnCalendar(t, offset, from, until);
    OnCalendar(edge, offset, from, until);
    hide NextBoundary, On, Calendar;
    if edge > 0 {
      assert edge >= 60;
      forall u | t <= u < edge
        ensures On(u, offset, from, until) == Calendar(t, offset, from, until)
      {
        OnCalendar(u, offset, from, until);
        CalendarFlips(t, if u >= 0 then u else u + 59, offset, from, until);
      }
    } else {
      EarlyFlip(t, offset, from, until);
    }
  }

  lemma EarlyFlip(t: int, offset: int, from: int, until: int)
    requires 0 <= from < DAY_MIN && 0 <= until < DAY_MIN && from != until
    requires t + NextBoundary(t, offset, from, until) <= 0
    ensures !FlipsAfter(t, NextBoundary(t, offset, from, until), offset, from, until)
  {
    hide NextBoundary, On, Calendar;
    var w := NextBoundary(t, offset, from, until);
    var edge := t + w;
    EdgeWhole(t, offset, from, until);
    CalendarFlips(t, edge, offset, from, until);
    OnCalendar(t, offset, from, until);
    OnCalendar(edge, offset, from, until);
    OnCalendar(edge - 1, offset, from, until);
    SameMinute(edge, edge + 58, offset, from, until);
    SameMinute(edge, edge + 59, offset, from, until);
    if w <= 59 {
      SameMinute(edge, t + 59, offset, from, until);
    } else {
      CalendarFlips(t, t + 59, offset, from, until);
    }
  }

  lemma SameMinute(edge: int, u: int, offset: int, from: int, until: int)
    requires edge % 60 == 0 && edge <= u < edge + 60
    ensures Calendar(u, offset, from, until) == Calendar(edge, offset, from, until)
  {
    assert u / 60 == edge / 60;
  }

  /** A camera whose clock has not been set: the window 00:00-00:01 at 23:59:30 on the day before the epoch. */
  lemma EdgeBeforeEpoch()
    ensures NextBoundary(-30, 0, 0, 1) == 30 && !FlipsAfter(-30, 30, 0, 0, 1)
  {
    EdgeExact(-30, 0, 0, 1);
  }

  // ----- overrides

  /** privacy_wanted, now being the monotonic clock in microseconds and t the wall clock in seconds. */
  predicate Wanted(now: nat, t: int, override: bool, overrideUntil: nat, scheduled: bool, offset: int, from: int, until: int, on: bool) {
    if overrideUntil > 0 && now < overrideUntil then override
    else if scheduled then On(t, offset, from, until)
    else on
  }

  /** Without an override the schedule rules, and without a schedule the switch. */
  lemma WantedWithout(now: nat, t: int, override: bool, scheduled: bool, offset: int, from: int, until: int, on: bool)
    ensures Wanted(now, t, override, 0, scheduled, offset, from, until, on) <==> if scheduled then On(t, offset, from, until) else on
  {
  }

  /** How long a change by hand is kept. */
  function OverrideUntil(now: nat, t: int, offset: int, from: int, until: int): (end: nat)
    requires 0 <= from < DAY_MIN && 0 <= until < DAY_MIN
  {
    EdgeWhole(t, offset, from, until);
    now + NextBoundary(t, offset, from, until) * 1_000_000
  }

  /** The wall clock's second when it leads the monotonic clock by that many microseconds. */
  function WallSecond(now: int, lead: int): int {
    (now + lead) / 1_000_000
  }

  /**
   * With a schedule set and the wall clock not stepped, a change by hand at now
   * holds until some moment and the schedule rules from there on; that moment
   * lies in the very second e at which the schedule next flips, if and only if e
   * lies after the epoch.
   */
  lemma OverrideEnds(now: nat, lead: int, later: nat, override: bool, offset: int, from: int, until: int, on: bool)
    requires 0 <= from < DAY_MIN && 0 <= until < DAY_MIN && from != until && now <= later
    ensures var t := WallSecond(now, lead);
            var end, e := OverrideUntil(now, t, offset, from, until), t + NextBoundary(t, offset, from, until);
            && Wanted(later, WallSecond(later, lead), override, end, true, offset, from, until, on)
               == (if later < end then override else On(WallSecond(later, lead), offset, from, until))
            && WallSecond(end, lead) == e
            && (FlipsAfter(t, e - t, offset, from, until) <==> e > 0)
  {
    hide On, NextBoundary, FlipsAfter;
    var t := WallSecond(now, lead);
    EdgeWhole(t, offset, from, until);
    EdgeExact(t, offset, from, until);
  }

  /** next_boundary_s */
  method NextBoundaryS(t: int, offset: int, from: int, until: int) returns (best: int)
    requires 0 <= from < DAY_MIN && 0 <= until < DAY_MIN
    ensures best == NextBoundary(t, offset, from, until) && 0 < best <= DAY_S
  {
    var today := Remainder(t + offset * 60, DAY_S);
    if today < 0 {
      today := today + DAY_S;
    }
    best := DAY_S;
    var i := 0;
    while i < 2
      invariant 0 <= i <= 2 && 0 < best <= DAY_S
      invariant i == 0 ==> best == DAY_S
      invariant i == 1 ==> best == Wait(today, from)
      invariant i == 2 ==> best == NextBoundary(t, offset, from, until)
    {
      var edge := (if i != 0 then until else from) * 60;
      var wait := edge - today;
      if wait <= 0 {
        wait := wait + DAY_S;
      }
      if wait < best {
        best := wait;
      }
      i := i + 1;
    }
  }
}
