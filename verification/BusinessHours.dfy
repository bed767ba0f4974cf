/**
 The weekly schedule of app/services/business_hours.py: which period starts on a
 day, whether the store is open at an instant, and when that answer next flips.

 Instants are integer microseconds. Instant 0 is the UTC midnight that begins
 some Monday; local time is UTC plus a fixed offset, so local day `d` is the
 interval [d * DAY, (d + 1) * DAY) of local instants and its weekday is `d % 7`.
 */
module BusinessHours {
  import opened Options
  import opened Timeline

  const MINUTE: int := 60_000_000
  const DAY: int := 86_400_000_000
  const WEEK: int := 604_800_000_000
  /** Asia/Dhaka, UTC+6. */
  const LOCAL_OFFSET: int := 21_600_000_000

  /** Minutes past midnight; an unreadable or absent time is `None`. */
  type Clock = m: int | 0 <= m < 1440

  datatype DayEntry = DayEntry(isOpen: bool, opensAt: Option<Clock>, closesAt: Option<Clock>)

  /** Keyed by weekday, 0 for Monday. A weekday may be absent. */
  type Hours = map<int, DayEntry>

  datatype Span = Span(start: int, end: int)

  function ToLocal(at: int): int { at + LOCAL_OFFSET }

  function DayOf(local: int): int { local / DAY }

  predicate Configured(hours: Option<Hours>) { hours.Some? && hours.value != map[] }

  /** The day's entry says open and both its times are readable. */
  predicate TradesOn(hours: Option<Hours>, day: int)
  {
    && hours.Some? && day % 7 in hours.value
    && var entry := hours.value[day % 7];
       entry.isOpen && entry.opensAt.Some? && entry.closesAt.Some?
  }

  /** The open period that begins on `day`: none or one, and never longer than a
      day even when it runs past midnight. */
  function SpansStarting(hours: Option<Hours>, day: int): (spans: seq<Span>)
    ensures |spans| == if TradesOn(hours, day) then 1 else 0
    ensures forall s :: s in spans ==>
      day * DAY <= s.start < (day + 1) * DAY && s.start < s.end <= s.start + DAY && s.end < (day + 2) * DAY
  {
    if hours.None? || day % 7 !in hours.value then []
    else
      var entry := hours.value[day % 7];
      if !entry.isOpen || entry.opensAt.None? || entry.closesAt.None? then []
      else
        var start := day * DAY + entry.opensAt.value * MINUTE;
        var end := day * DAY + entry.closesAt.value * MINUTE;
        [Span(start, if end <= start then end + DAY else end)]
  }

  /** The instant's wall-clock time is `clock`. */
  predicate ClockShows(local: int, clock: Clock) { local % DAY == clock * MINUTE }

  lemma WallClock(day: int, x: int)
    requires 0 <= x < DAY
    ensures (day * DAY + x) / DAY == day && (day * DAY + x) % DAY == x
  {
  }

  /** A period starts on its own day when the clock shows the opening time, and
      ends the next time the clock shows the closing time. */
  lemma SpanRunsFromOpeningToClosing(hours: Option<Hours>, day: int, t: int)
    requires TradesOn(hours, day)
    ensures
      var entry, span := hours.value[day % 7], SpansStarting(hours, day)[0];
      && DayOf(span.start) == day && ClockShows(span.start, entry.opensAt.value)
      && ClockShows(span.end, entry.closesAt.value)
      && (span.start < t < span.end ==> !ClockShows(t, entry.closesAt.value))
  {
    var entry, span := hours.value[day % 7], SpansStarting(hours, day)[0];
    WallClock(day, entry.opensAt.value * MINUTE);
    WallClock(day, entry.closesAt.value * MINUTE);
    WallClock(day + 1, entry.closesAt.value * MINUTE);
    if span.start < t < span.end {
      var into := t - day * DAY;
      if into < DAY { WallClock(day, into); } else { WallClock(day + 1, into - DAY); }
    }
  }

  /** Whether the period that begins on `day` contains the local instant `t`. */
  predicate Covers(hours: Option<Hours>, day: int, t: int)
  {
    exists s :: s in SpansStarting(hours, day) && s.start <= t < s.end
  }

  predicate OpenLocal(hours: Option<Hours>, t: int)
  {
    Covers(hours, DayOf(t) - 1, t) || Covers(hours, DayOf(t), t)
  }

  /** Whether the schedule says open at the UTC instant `at`. */
  predicate IsOpenAt(hours: Option<Hours>, at: int)
  {
    OpenLocal(hours, ToLocal(at))
  }

  // --- What the two-day check means ---------------------------------------

  /** The two-day check is exact: looking at every day there is, past or
      future, would give the same answer. */
  lemma OpenIffSomeDayCovers(hours: Option<Hours>, t: int)
    ensures OpenLocal(hours, t) <==> exists day :: Covers(hours, day, t)
  {
  }

  /** Day `d`'s entry says open from `o` to `c`, and `at`, which is UTC, lies between
      the two on Dhaka's clock; a closing time at or before the opening time is the
      next day's. */
  predicate EntryCovers(hours: Option<Hours>, at: int, d: int, o: Clock, c: Clock)
  {
    && hours.Some? && d % 7 in hours.value && hours.value[d % 7] == DayEntry(true, Some(o), Some(c))
    && d * 86_400_000_000 + o * 60_000_000 <= at + 21_600_000_000
    && at + 21_600_000_000 < d * 86_400_000_000 + (if c <= o then c + 1440 else c) * 60_000_000
  }

  /** The schedule says open at an instant if and only if the entry of some day covers
      it, whichever day that is. */
  lemma OpenIffEntryCovers(hours: Option<Hours>, at: int)
    ensures IsOpenAt(hours, at) <==> exists d, o, c :: EntryCovers(hours, at, d, o, c)
  {
    var t := ToLocal(at);
    OpenIffSomeDayCovers(hours, t);
    if IsOpenAt(hours, at) {
      var d :| Covers(hours, d, t);
      var entry := hours.value[d % 7];
      assert EntryCovers(hours, at, d, entry.opensAt.value, entry.closesAt.value);
    }
    if d, o, c :| EntryCovers(hours, at, d, o, c) {
      assert SpansStarting(hours, d)[0] in SpansStarting(hours, d);
      assert Covers(hours, d, t);
    }
  }

  lemma SpansShiftByWeek(hours: Option<Hours>, day: int)
    ensures |SpansStarting(hours, day + 7)| == |SpansStarting(hours, day)|
    ensures |SpansStarting(hours, day)| == 1 ==>
      var s := SpansStarting(hours, day)[0];
      SpansStarting(hours, day + 7)[0] == Span(s.start + WEEK, s.end + WEEK)
  {
    assert (day + 7) % 7 == day % 7;
    assert (day + 7) * DAY == day * DAY + WEEK;
  }

  lemma CoversShiftsByWeek(hours: Option<Hours>, day: int, t: int)
    ensures Covers(hours, day + 7, t + WEEK) <==> Covers(hours, day, t)
  {
    SpansShiftByWeek(hours, day);
    var now, later := SpansStarting(hours, day), SpansStarting(hours, day + 7);
    if |now| == 1 {
      assert now[0] in now && later[0] in later;
    }
  }

  /** The schedule repeats every seven days. */
  lemma OpenIsWeekly(hours: Option<Hours>, t: int)
    ensures OpenLocal(hours, t + WEEK) <==> OpenLocal(hours, t)
  {
    assert DayOf(t + WEEK) == DayOf(t) + 7;
    CoversShiftsByWeek(hours, DayOf(t) - 1, t);
    CoversShiftsByWeek(hours, DayOf(t), t);
  }

  // --- Where the answer can flip ------------------------------------------

  predicate EndpointOn(hours: Option<Hours>, day: int, t: int)
  {
    exists s :: s in SpansStarting(hours, day) && (s.start == t || s.end == t)
  }

  /** A flip between two neighbouring instants happens only where some day's
      period starts or ends. */
  lemma FlipIsEndpoint(hours: Option<Hours>, t: int) returns (day: int)
    requires OpenLocal(hours, t - 1) != OpenLocal(hours, t)
    ensures EndpointOn(hours, day, t)
  {
    OpenIffSomeDayCovers(hours, t - 1);
    OpenIffSomeDayCovers(hours, t);
    if OpenLocal(hours, t) {
      day :| Covers(hours, day, t);
      assert !Covers(hours, day, t - 1);
    } else {
      day :| Covers(hours, day, t - 1);
      assert !Covers(hours, day, t);
    }
  }

  /** The window of days -1 to 7 holds every endpoint of the coming week. */
  lemma EndpointInWindow(hours: Option<Hours>, local: int, day: int, t: int)
    requires EndpointOn(hours, day, t)
    requires local < t <= local + WEEK
    ensures -1 <= day - DayOf(local) <= 7
  {
  }

  // --- next_change -----------------------------------------------------------

  function Insert(x: int, s: seq<int>): (r: seq<int>)
    requires Ascending(s)
    ensures Ascending(r)
    ensures forall y :: y in r <==> y == x || y in s
  {
    if s == [] then [x]
    else if x <= s[0] then [x] + s
    else
      assert forall y :: y in s <==> y == s[0] || y in s[1..];
      var rest := Insert(x, s[1..]);
      assert forall y :: y in s[1..] ==> s[0] <= y;
      assert forall k :: 0 <= k < |rest| ==> rest[k] in rest;
      [s[0]] + rest
  }

  /** Python's `sorted`. How often a moment occurs does not matter here. */
  function Sorted(s: seq<int>): (r: seq<int>)
    ensures Ascending(r)
    ensures forall y :: y in r <==> y in s
  {
    if s == [] then []
    else
      assert forall y :: y in s <==> y == s[0] || y in s[1..];
      Insert(s[0], Sorted(s[1..]))
  }

  predicate InWindow(hours: Option<Hours>, local: int, upTo: int, moment: int)
  {
    moment > local && exists day :: DayOf(local) - 1 <= day < upTo && EndpointOn(hours, day, moment)
  }

  /** The moments after `local` at which a period of days -1 to 7 starts or ends. */
  method Candidates(hours: Option<Hours>, local: int) returns (moments: seq<int>)
    ensures forall m :: m in moments <==> InWindow(hours, local, DayOf(local) + 8, m)
  {
    moments := [];
    for offset := -1 to 8
      invariant forall m :: m in moments <==> InWindow(hours, local, DayOf(local) + offset, m)
    {
      var day := DayOf(local) + offset;
      var spans := SpansStarting(hours, day);
      ghost var before := moments;
      if |spans| == 1 {
        var span := spans[0];
        if span.start > local { moments := moments + [span.start]; }
        if span.end > local { moments := moments + [span.end]; }
      }
      forall m
        ensures m in moments <==> InWindow(hours, local, day + 1, m)
      {
        assert EndpointOn(hours, day, m) <==> |spans| == 1 && (spans[0].start == m || spans[0].end == m);
        assert m in moments <==> m in before || (m > local && EndpointOn(hours, day, m));
      }
    }
  }

  /** The schedule as an answer over all local time. */
  function Schedule(hours: Option<Hours>): int -> bool
  {
    t => OpenLocal(hours, t)
  }

  /** The window of days -1 to 7 suffices: the schedule repeats, and every flip
      of the coming week is among the candidates. */
  lemma CandidatesSuffice(hours: Option<Hours>, local: int, candidates: seq<int>)
    requires Ascending(candidates)
    requires forall m :: m in candidates <==> InWindow(hours, local, DayOf(local) + 8, m)
    ensures Repeats(Schedule(hours), WEEK)
    ensures CoversFlips(Schedule(hours), WEEK, local, candidates)
  {
    ScheduleRepeats(hours);
    forall f | local < f <= local + WEEK && OpenLocal(hours, f - 1) != OpenLocal(hours, f)
      ensures f in candidates
    {
      FlipIsInWindow(hours, local, f);
    }
  }

  lemma ScheduleRepeats(hours: Option<Hours>)
    ensures Repeats(Schedule(hours), WEEK)
  {
    forall t
      ensures OpenLocal(hours, t + WEEK) == OpenLocal(hours, t)
    {
      OpenIsWeekly(hours, t);
    }
  }

  lemma FlipIsInWindow(hours: Option<Hours>, local: int, f: int)
    requires local < f <= local + WEEK && OpenLocal(hours, f - 1) != OpenLocal(hours, f)
    ensures InWindow(hours, local, DayOf(local) + 8, f)
  {
    var day := FlipIsEndpoint(hours, f);
    EndpointInWindow(hours, local, day, f);
  }

  /** When the schedule next flips after the UTC instant `at`, as a local
      instant; `None` when it never does. */
  method NextChange(hours: Option<Hours>, at: int) returns (flip: Option<int>)
    ensures NextFlip(Schedule(hours), ToLocal(at), flip)
  {
    var local := ToLocal(at);
    var nowOpen := IsOpenAt(hours, at);
    var found := Candidates(hours, local);
    var candidates := Sorted(found);
    CandidatesSuffice(hours, local, candidates);
    flip := FirstFlipAmong(Schedule(hours), nowOpen, candidates, WEEK, local);
  }
}
