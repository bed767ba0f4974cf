/**
 How the schedule drives a store's `status`: saving hours (`apply`), the
 worker's minute (`sync_all`), and the vendor's own toggle in between.
 */
module StoreSync {
  import opened Options
  import opened Timeline
  import opened BusinessHours

  datatype Status = OPEN | CLOSED

  function Wanted(open: bool): Status { if open then OPEN else CLOSED }

  /** The three columns of `restaurants` that business hours read and write. */
  datatype Store = Store(hours: Option<Hours>, status: Status, scheduledOpen: Option<bool>)

  /** One row as a pass read it. */
  datatype Reading = Reading(hours: Option<Hours>, last: Option<bool>)

  // --- The operations as functions on a store -------------------------------

  function Applied(s: Store, at: int): Store
  {
    if !Configured(s.hours) then s
    else
      var scheduled := IsOpenAt(s.hours, at);
      s.(status := Wanted(scheduled), scheduledOpen := Some(scheduled))
  }

  function Saved(s: Store, hours: Option<Hours>, at: int): Store
  {
    Applied(s.(hours := hours), at)
  }

  function Toggled(s: Store, status: Status): Store { s.(status := status) }

  function Read(s: Store): Reading { Reading(s.hours, s.scheduledOpen) }

  /** A pass wants to write: the row has hours and its answer moved. */
  predicate Due(r: Reading, at: int)
  {
    Configured(r.hours) && Some(IsOpenAt(r.hours, at)) != r.last
  }

  /** The conditional UPDATE: it lands only where `scheduled_open` still holds
      the value the pass read. */
  predicate Lands(s: Store, r: Reading, at: int)
  {
    Due(r, at) && s.scheduledOpen == r.last
  }

  function Written(s: Store, r: Reading, at: int): Store
  {
    if Lands(s, r, at) then
      var scheduled := IsOpenAt(r.hours, at);
      s.(status := Wanted(scheduled), scheduledOpen := Some(scheduled))
    else s
  }

  /** A whole pass over one store, nothing intervening. */
  function Swept(s: Store, at: int): Store { Written(s, Read(s), at) }

  // --- The mutable row and the methods that write it ------------------------

  class Restaurant {
    var businessHours: Option<Hours>
    var status: Status
    var scheduledOpen: Option<bool>

    function Row(): Store
      reads this
    {
      Store(businessHours, status, scheduledOpen)
    }

    constructor (row: Store)
      ensures Row() == row
    {
      businessHours, status, scheduledOpen := row.hours, row.status, row.scheduledOpen;
    }

    /** Sets the store to what its hours say now, whatever its toggle says. */
    method Apply(at: int) returns (changed: bool)
      modifies this
      ensures Row() == Applied(old(Row()), at)
      ensures changed <==> status != old(status)
    {
      if !Configured(businessHours) { return false; }
      var scheduled := IsOpenAt(businessHours, at);
      var wanted := Wanted(scheduled);
      changed := status != wanted;
      status := wanted;
      scheduledOpen := Some(scheduled);
    }

    /** The conditional write of one pass. */
    method WriteIfUnmoved(last: Option<bool>, scheduled: bool) returns (updated: bool)
      modifies this
      ensures updated <==> old(scheduledOpen) == last
      ensures Row() == if updated
                       then old(Row()).(status := Wanted(scheduled), scheduledOpen := Some(scheduled))
                       else old(Row())
    {
      updated := scheduledOpen == last;
      if updated {
        status, scheduledOpen := Wanted(scheduled), Some(scheduled);
      }
    }
  }

  predicate Distinct(stores: seq<Restaurant>)
  {
    forall i, j :: 0 <= i < j < |stores| ==> stores[i] != stores[j]
  }

  /** How many of these rows a pass at `at` rewrites. */
  function CountDue(rows: seq<Reading>, at: int): nat
  {
    if rows == [] then 0
    else CountDue(rows[..|rows| - 1], at) + if Due(rows[|rows| - 1], at) then 1 else 0
  }

  /** The stores, by their place, that a whole pass over these rows changes. */
  function Changed(rows: seq<Store>, at: int): set<nat>
  {
    set i: nat | i < |rows| && Swept(rows[i], at) != rows[i]
  }

  lemma {:induction false} CountsTheChanged(rows: seq<Store>, at: int)
    ensures CountDue(seq(|rows|, i requires 0 <= i < |rows| => Read(rows[i])), at) == |Changed(rows, at)|
  {
    if rows != [] {
      var n := |rows| - 1;
      CountsTheChanged(rows[..n], at);
      var all := seq(|rows|, i requires 0 <= i < |rows| => Read(rows[i]));
      assert all[..n] == seq(n, i requires 0 <= i < n => Read(rows[..n][i]));
      assert Changed(rows, at) == Changed(rows[..n], at) + if Due(Read(rows[n]), at) then {n} else {};
    }
  }

  function Rows(stores: seq<Restaurant>): seq<Store>
    reads stores
  {
    seq(|stores|, i requires 0 <= i < |stores| reads stores => stores[i].Row())
  }

  function Readings(stores: seq<Restaurant>): seq<Reading>
    reads stores
  {
    seq(|stores|, i requires 0 <= i < |stores| reads stores => Read(stores[i].Row()))
  }

  /** The worker's minute: one read of every row, then the writes. */
  method SyncAll(stores: seq<Restaurant>, at: int) returns (changed: nat)
    requires Distinct(stores)
    modifies stores
    ensures forall i :: 0 <= i < |stores| ==> stores[i].Row() == Swept(old(stores[i].Row()), at)
    ensures changed == |Changed(old(Rows(stores)), at)|
  {
    var rows := Readings(stores);
    changed := 0;
    for i := 0 to |rows|
      invariant forall k :: 0 <= k < i ==> stores[k].Row() == Swept(old(stores[k].Row()), at)
      invariant forall k :: i <= k < |rows| ==> stores[k].Row() == old(stores[k].Row())
      invariant changed == CountDue(rows[..i], at)
    {
      var hours, last := rows[i].hours, rows[i].last;
      assert rows[..i + 1][..i] == rows[..i];
      if Configured(hours) {
        var scheduled := IsOpenAt(hours, at);
        if Some(scheduled) != last {
          var updated := stores[i].WriteIfUnmoved(last, scheduled);
          if updated { changed := changed + 1; }
        }
      }
    }
    assert rows[..|rows|] == rows;
    ghost var was := old(Rows(stores));
    CountsTheChanged(was, at);
    assert rows == seq(|was|, i requires 0 <= i < |was| => Read(was[i]));
  }

  // --- Runs ------------------------------------------------------------------

  datatype Event =
    | Pass(at: int)
    | Toggle(status: Status)
    | Save(hours: Option<Hours>, at: int)

  function Step(s: Store, e: Event): Store
  {
    match e
    case Pass(at) => Swept(s, at)
    case Toggle(status) => Toggled(s, status)
    case Save(hours, at) => Saved(s, hours, at)
  }

  function Run(s: Store, events: seq<Event>): Store
  {
    if events == [] then s else Step(Run(s, events[..|events| - 1]), events[|events| - 1])
  }

  /** The answer the schedule last gave, read off the history alone: the last
      pass over, or save of, a week of hours. */
  function LastAnswer(s: Store, events: seq<Event>): Option<bool>
  {
    if events == [] then s.scheduledOpen
    else
      var before := events[..|events| - 1];
      match events[|events| - 1]
      case Pass(at) =>
        if Configured(HoursAfter(s, before)) then Some(IsOpenAt(HoursAfter(s, before), at)) else LastAnswer(s, before)
      case Save(hours, at) =>
        if Configured(hours) then Some(IsOpenAt(hours, at)) else LastAnswer(s, before)
      case Toggle(_) => LastAnswer(s, before)
  }

  /** The hours in force: those last saved. */
  function HoursAfter(s: Store, events: seq<Event>): Option<Hours>
  {
    if events == [] then s.hours
    else match events[|events| - 1]
      case Save(hours, _) => hours
      case _ => HoursAfter(s, events[..|events| - 1])
  }

  /** In every reachable state `scheduled_open` is the last answer the schedule gave. */
  lemma {:induction false} ScheduledOpenIsLastAnswer(s: Store, events: seq<Event>)
    ensures Run(s, events).hours == HoursAfter(s, events)
    ensures Run(s, events).scheduledOpen == LastAnswer(s, events)
  {
    if events != [] {
      ScheduledOpenIsLastAnswer(s, events[..|events| - 1]);
    }
  }

  /** Every pass, however many were missed before it, leaves `scheduled_open` at
      what the hours say, and moves `status` exactly when that is not what the
      schedule last said. A store without hours is left alone. */
  lemma PassFollowsSchedule(s: Store, events: seq<Event>, at: int)
    ensures
      var before, after := Run(s, events), Run(s, events + [Pass(at)]);
      var hours := HoursAfter(s, events);
      && after.hours == before.hours
      && (Configured(hours) ==>
            && after.scheduledOpen == Some(IsOpenAt(hours, at))
            && after.status == if LastAnswer(s, events) == Some(IsOpenAt(hours, at))
                               then before.status else Wanted(IsOpenAt(hours, at)))
      && (!Configured(hours) ==> after == before)
  {
    assert (events + [Pass(at)])[..|events|] == events;
    ScheduledOpenIsLastAnswer(s, events);
  }

  /** Saving hours opens or closes the store at once, whichever days they name. Where
      there are none, neither a save nor any pass moves anything. */
  lemma SaveTakesEffect(s: Store, events: seq<Event>, hours: Option<Hours>, at: int, later: int)
    ensures
      var before, after := Run(s, events), Run(s, events + [Save(hours, at)]);
      && (hours.Some? && hours.value != map[] ==>
            && after.status == (if IsOpenAt(hours, at) then OPEN else CLOSED)
            && after.scheduledOpen == Some(IsOpenAt(hours, at)) && after.hours == hours)
      && (hours == None || hours == Some(map[]) ==> after == before.(hours := hours) && Swept(after, later) == after)
  {
  }

  /** Only toggles, and passes at instants from `from` up to (not including) the
      next flip after it. */
  ghost predicate Quiet(hours: Option<Hours>, from: int, events: seq<Event>)
  {
    forall e :: e in events ==>
      match e
      case Toggle(_) => true
      case Save(_, _) => false
      case Pass(at) =>
        && from <= at
        && (forall flip :: NextFlip(Schedule(hours), ToLocal(from), Some(flip)) ==> ToLocal(at) < flip)
  }

  /** What the vendor last chose, or `initial` when the vendor chose nothing. */
  function LastToggle(initial: Status, events: seq<Event>): Status
  {
    if events == [] then initial
    else match events[|events| - 1]
      case Toggle(status) => status
      case _ => LastToggle(initial, events[..|events| - 1])
  }

  /** The vendor's toggle wins until the next scheduled change: after a pass, no
      pass earlier than the next flip of the hours touches `status`. */
  lemma {:induction false} ToggleHoldsUntilNextChange(s: Store, from: int, events: seq<Event>)
    requires Configured(s.hours) && s.scheduledOpen == Some(IsOpenAt(s.hours, from))
    requires Quiet(s.hours, from, events)
    ensures Run(s, events) == s.(status := LastToggle(s.status, events))
  {
    if events != [] {
      var before, e := events[..|events| - 1], events[|events| - 1];
      assert e in events && forall f :: f in before ==> f in events;
      ToggleHoldsUntilNextChange(s, from, before);
      if e.Pass? {
        ConstantUntilFlip(Schedule(s.hours), ToLocal(from), ToLocal(e.at));
      }
    }
  }

  /** From the flip to the one after it, a pass takes the store back. */
  lemma ToggleEndsAtFlip(s: Store, from: int, flip: int, at: int)
    requires Configured(s.hours) && s.scheduledOpen == Some(IsOpenAt(s.hours, from))
    requires NextFlip(Schedule(s.hours), ToLocal(from), Some(flip)) && flip <= ToLocal(at)
    requires forall later :: NextFlip(Schedule(s.hours), flip, Some(later)) ==> ToLocal(at) < later
    ensures Swept(s, at) == Store(s.hours, Wanted(!IsOpenAt(s.hours, from)), Some(!IsOpenAt(s.hours, from)))
  {
    ConstantUntilFlip(Schedule(s.hours), flip, ToLocal(at));
    assert Schedule(s.hours)(ToLocal(at)) == IsOpenAt(s.hours, at);
    assert Schedule(s.hours)(ToLocal(from)) == IsOpenAt(s.hours, from);
  }

  // --- A save between a pass's read and its write ----------------------------

  /** A pass reads the row, the vendor saves new hours, then the pass writes. */
  function Raced(s: Store, hours: Option<Hours>, savedAt: int, passAt: int): Store
  {
    Written(Saved(s, hours, savedAt), Read(s), passAt)
  }

  /** `sync_all` says a concurrent save is never overwritten with an answer
      computed from the old hours. It is overwritten exactly when the old hours
      called for a write and the save left `scheduled_open` at the value the
      pass had read. */
  lemma RacedWriteLandsIff(s: Store, hours: Option<Hours>, savedAt: int, passAt: int)
    requires Configured(hours)
    ensures Raced(s, hours, savedAt, passAt) != Saved(s, hours, savedAt)
       <==> && Configured(s.hours)
            && Some(IsOpenAt(s.hours, passAt)) != s.scheduledOpen
            && Some(IsOpenAt(hours, savedAt)) == s.scheduledOpen
  {
  }

  /** The case is real: closed by the old hours' last answer, a save at 05:00
      local of hours that are closed then, while the old hours open at 05:00. */
  lemma RacedWriteCanLand()
    ensures
      var opensAtFive := Some(map[0 := DayEntry(true, Some(300), Some(600))]);
      var opensAtNine := Some(map[0 := DayEntry(true, Some(540), Some(600))]);
      var fiveLocal := 300 * MINUTE - LOCAL_OFFSET;
      var s := Store(opensAtFive, CLOSED, Some(false));
      && Saved(s, opensAtNine, fiveLocal).status == CLOSED
      && Raced(s, opensAtNine, fiveLocal, fiveLocal).status == OPEN
      && !IsOpenAt(opensAtNine, fiveLocal)
  {
    FiveAndNine();
  }

  /** At 05:00 local on a Monday the one schedule is open and the other is not. */
  lemma FiveAndNine()
    ensures
      var fiveLocal := 300 * MINUTE - LOCAL_OFFSET;
      && IsOpenAt(Some(map[0 := DayEntry(true, Some(300), Some(600))]), fiveLocal)
      && !IsOpenAt(Some(map[0 := DayEntry(true, Some(540), Some(600))]), fiveLocal)
  {
    var opensAtFive := Some(map[0 := DayEntry(true, Some(300), Some(600))]);
    var opensAtNine := Some(map[0 := DayEntry(true, Some(540), Some(600))]);
    var t := 300 * MINUTE;
    assert DayOf(t) == 0 && -1 % 7 == 6;
    assert SpansStarting(opensAtFive, 0) == [Span(t, 600 * MINUTE)];
    assert SpansStarting(opensAtNine, 0) == [Span(540 * MINUTE, 600 * MINUTE)];
    var five := SpansStarting(opensAtFive, 0)[0];
    assert five in SpansStarting(opensAtFive, 0) && Covers(opensAtFive, 0, t);
  }

  /** Whatever landed, the next pass leaves the store as the new hours say. */
  lemma NextPassCorrectsRace(s: Store, hours: Option<Hours>, savedAt: int, passAt: int, next: int)
    requires Configured(hours)
    ensures
      Swept(Raced(s, hours, savedAt, passAt), next)
        == Store(hours, Wanted(IsOpenAt(hours, next)), Some(IsOpenAt(hours, next)))
  {
  }

  // --- A pass between a save's load and its write ------------------------------

  /** The save's UPDATE, over a row that may have moved since it was loaded: it sets
      the columns that the save left different from what it had loaded. */
  function SavedOver(loaded: Store, current: Store, hours: Option<Hours>, at: int): Store
  {
    var saved := Saved(loaded, hours, at);
    Store(if saved.hours != loaded.hours then saved.hours else current.hours,
          if saved.status != loaded.status then saved.status else current.status,
          if saved.scheduledOpen != loaded.scheduledOpen then saved.scheduledOpen else current.scheduledOpen)
  }

  /** With nothing in between that is the save. */
  lemma SavedOverItself(s: Store, hours: Option<Hours>, at: int)
    ensures SavedOver(s, s, hours, at) == Saved(s, hours, at)
  {
  }

  /** Whatever came between: the save takes effect if and only if each of its two
      answers was news to the row it loaded, or is what the row holds anyway. */
  lemma SaveTakesEffectIff(loaded: Store, current: Store, hours: Option<Hours>, at: int)
    requires Configured(hours) && current.hours == loaded.hours
    ensures
      var open := IsOpenAt(hours, at);
      SavedOver(loaded, current, hours, at) == Saved(loaded, hours, at) <==>
        && (loaded.status != Wanted(open) || current.status == Wanted(open))
        && (loaded.scheduledOpen != Some(open) || current.scheduledOpen == Some(open))
  {
  }

  /** Where a pass came between and wrote, that is: the new hours say now what the
      pass said, or neither answer of the save was what it had loaded. */
  lemma SaveOverPassIff(s: Store, hours: Option<Hours>, at: int, passAt: int)
    requires Configured(hours) && Due(Read(s), passAt)
    ensures SavedOver(s, Swept(s, passAt), hours, at) == Saved(s, hours, at) <==>
      || IsOpenAt(hours, at) == IsOpenAt(s.hours, passAt)
      || (s.status != Wanted(IsOpenAt(hours, at)) && s.scheduledOpen.None?)
  {
    var passed := IsOpenAt(s.hours, passAt);
    assert Swept(s, passAt) == Store(s.hours, Wanted(passed), Some(passed));
    SaveTakesEffectIff(s, Swept(s, passAt), hours, at);
    assert s.scheduledOpen.Some? ==> s.scheduledOpen.value == !passed;
  }

  /** For a store that stood as the schedule last said, the first of those. */
  lemma SaveOverPassInStepIff(s: Store, hours: Option<Hours>, at: int, passAt: int)
    requires Configured(hours) && Due(Read(s), passAt)
    requires s.scheduledOpen.Some? && s.status == Wanted(s.scheduledOpen.value)
    ensures SavedOver(s, Swept(s, passAt), hours, at) == Saved(s, hours, at) <==>
      IsOpenAt(hours, at) == IsOpenAt(s.hours, passAt)
  {
    SaveOverPassIff(s, hours, at, passAt);
  }

  /** Such a store: closed, its old hours open at 05:00 local and a pass opens it;
      the save, loaded before that, of hours closed at 05:00 leaves it open. */
  lemma SaveCanBeLost()
    ensures
      var opensAtFive := Some(map[0 := DayEntry(true, Some(300), Some(600))]);
      var opensAtNine := Some(map[0 := DayEntry(true, Some(540), Some(600))]);
      var fiveLocal := 300 * MINUTE - LOCAL_OFFSET;
      var s := Store(opensAtFive, CLOSED, Some(false));
      && !IsOpenAt(opensAtNine, fiveLocal)
      && SavedOver(s, Swept(s, fiveLocal), opensAtNine, fiveLocal) == Store(opensAtNine, OPEN, Some(true))
  {
    FiveAndNine();
  }

  /** The next pass puts it right, whatever came between, unless the row was left with
      a status the schedule does not account for and the hours still say so. */
  lemma NextPassCorrectsSaveIff(loaded: Store, current: Store, hours: Option<Hours>, at: int, next: int)
    requires Configured(hours) && current.hours == loaded.hours
    ensures
      var left := SavedOver(loaded, current, hours, at);
      Swept(left, next) == Store(hours, Wanted(IsOpenAt(hours, next)), Some(IsOpenAt(hours, next))) <==>
        left.status == Wanted(IsOpenAt(hours, next)) || left.scheduledOpen != Some(IsOpenAt(hours, next))
  {
  }

  /** For a store that stood as the schedule last said, and a pass in between, it
      always does. */
  lemma NextPassCorrectsSave(s: Store, hours: Option<Hours>, at: int, passAt: int, next: int)
    requires Configured(hours) && s.scheduledOpen.Some? && s.status == Wanted(s.scheduledOpen.value)
    ensures
      Swept(SavedOver(s, Swept(s, passAt), hours, at), next)
        == Store(hours, Wanted(IsOpenAt(hours, next)), Some(IsOpenAt(hours, next)))
  {
    NextPassCorrectsSaveIff(s, Swept(s, passAt), hours, at, next);
  }
}
