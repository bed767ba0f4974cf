/**
 When codes of one identifier are a cooldown apart although sends overlap, and what
 that and the attempt budget bound over a stretch of time
 (app/services/otp_service.py, app/core/config.py:86-94).
 */
module OtpSends {
  import opened Options
  import opened OtpService
  import opened OtpBudget
  import opened OtpRuns

  /** When a row was issued, and what its send had seen. */
  datatype Timing = Timing(issued: int, checked: nat, checkedAt: int)

  function Times(entries: seq<Entry>): seq<Timing>
  {
    seq(|entries|, k requires 0 <= k < |entries| =>
      Timing(entries[k].code.issued, entries[k].checked, entries[k].checkedAt))
  }

  /** Row `k`'s send checked after the row before it, a cooldown on, or before one of
      the rows below `k` was issued. */
  predicate SentInv(times: seq<Timing>, k: nat)
    requires k < |times|
  {
    var t := times[k];
    && t.checked <= k && t.checkedAt <= t.issued
    && (0 < k == t.checked ==> t.checkedAt >= times[k - 1].issued + COOLDOWN)
    && (t.checked < k ==> t.checkedAt <= times[t.checked].issued)
  }

  predicate TimesInv(times: seq<Timing>, cooldown: Option<int>, now: int)
  {
    && (forall k :: 0 <= k < |times| ==> SentInv(times, k))
    && (forall k :: 0 <= k < |times| ==> times[k].issued <= now)
    && (forall j, k :: 0 <= j < k < |times| ==> times[j].issued <= times[k].issued)
    && (times != [] ==> cooldown == Some(times[|times| - 1].issued + COOLDOWN))
  }

  /** What a send knows that passed the cooldown. */
  predicate ClearInv(times: seq<Timing>, r: Request, now: int)
    requires r.Cleared?
  {
    && r.rows <= |times| && r.at <= now
    && (r.rows < |times| ==> r.at <= times[r.rows].issued)
    && (0 < r.rows == |times| ==> r.at >= times[r.rows - 1].issued + COOLDOWN)
  }

  ghost predicate SendsInv(w: World)
  {
    && TimesInv(Times(w.entries), w.cooldown, w.now)
    && forall q :: q in w.requests && w.requests[q].Cleared? ==> ClearInv(Times(w.entries), w.requests[q], w.now)
  }

  predicate Issues(w: World, a: Action) { a.Issue? && Enabled(w, a) }

  predicate ClearedBefore(w: World, q: nat, r: Request)
  {
    (q in w.requests && r == w.requests[q]) || (!CoolingDown(w) && r == Cleared(w.now, |w.entries|))
  }

  lemma StepTimes(w: World, a: Action)
    ensures w.now <= Next(w, a).now
    ensures !Issues(w, a) ==> Times(Next(w, a).entries) == Times(w.entries) && Next(w, a).cooldown == w.cooldown
    ensures Issues(w, a) ==>
      && Times(Next(w, a).entries) == Times(w.entries) + [Timing(w.now, w.requests[a.req].rows, w.requests[a.req].at)]
      && Next(w, a).cooldown == Some(w.now + COOLDOWN)
    ensures forall q :: q in Next(w, a).requests && Next(w, a).requests[q].Cleared? ==>
      ClearedBefore(w, q, Next(w, a).requests[q])
  {
  }

  lemma TimesGrow(times: seq<Timing>, cooldown: Option<int>, now: int, r: Request)
    requires TimesInv(times, cooldown, now) && r.Cleared? && ClearInv(times, r, now)
    ensures TimesInv(times + [Timing(now, r.rows, r.at)], Some(now + COOLDOWN), now)
  {
    var after := times + [Timing(now, r.rows, r.at)];
    forall k | 0 <= k < |times|
      ensures SentInv(after, k)
    {
      assert SentInv(times, k);
    }
    assert SentInv(after, |times|);
  }

  lemma TimesWait(times: seq<Timing>, cooldown: Option<int>, now: int, later: int)
    requires TimesInv(times, cooldown, now) && now <= later
    ensures TimesInv(times, cooldown, later)
  {
  }

  lemma ClearedNow(times: seq<Timing>, cooldown: Option<int>, now: int)
    requires TimesInv(times, cooldown, now) && (cooldown.Some? ==> cooldown.value <= now)
    ensures ClearInv(times, Cleared(now, |times|), now)
  {
  }

  lemma ClearedStays(times: seq<Timing>, more: seq<Timing>, r: Request, now: int, later: int)
    requires r.Cleared? && ClearInv(times, r, now) && now <= later
    requires more == [] || (|more| == 1 && more[0].issued == now)
    ensures ClearInv(times + more, r, later)
  {
  }

  lemma NextKeepsSends(w: World, a: Action)
    requires SendsInv(w)
    ensures SendsInv(Next(w, a))
  {
    StepTimes(w, a);
    var after := Next(w, a);
    var times := Times(w.entries);
    var more := if Issues(w, a) then [Timing(w.now, w.requests[a.req].rows, w.requests[a.req].at)] else [];
    assert Times(after.entries) == times + more;
    if Issues(w, a) {
      TimesGrow(times, w.cooldown, w.now, w.requests[a.req]);
    } else {
      TimesWait(times, w.cooldown, w.now, after.now);
    }
    forall q | q in after.requests && after.requests[q].Cleared?
      ensures ClearInv(times + more, after.requests[q], after.now)
    {
      NowCleared(w, q, after.requests[q]);
      ClearedStays(times, more, after.requests[q], w.now, after.now);
    }
  }

  lemma NowCleared(w: World, q: nat, r: Request)
    requires SendsInv(w) && r.Cleared? && ClearedBefore(w, q, r)
    ensures ClearInv(Times(w.entries), r, w.now)
  {
    if !(q in w.requests && r == w.requests[q]) { ClearedNow(Times(w.entries), w.cooldown, w.now); }
  }

  lemma {:induction false} PlayKeepsSends(w: World, actions: seq<Action>)
    requires SendsInv(w)
    ensures SendsInv(Play(w, actions))
    decreases actions
  {
    if actions != [] {
      NextKeepsSends(w, actions[0]);
      PlayKeepsSends(Next(w, actions[0]), actions[1..]);
    }
  }

  lemma SpacedByTimes(times: seq<Timing>, cooldown: Option<int>, now: int, k: nat)
    requires TimesInv(times, cooldown, now) && 0 < k < |times|
    ensures times[k].checked <= k && (times[k].checked == k ==> times[k].issued >= times[k - 1].issued + COOLDOWN)
    ensures times[k].checked < k ==> times[k].checkedAt <= times[k - 1].issued
  {
    assert SentInv(times, k);
    var c := times[k].checked;
    assert c < k - 1 ==> times[c].issued <= times[k - 1].issued;
  }

  /** Two neighbouring codes are a cooldown apart whenever the second send checked
      after the first was issued; and only then, if a send issues its code within a
      cooldown of its check. */
  lemma SpacedIff(w: World, actions: seq<Action>, k: nat)
    requires Fresh(w) && 0 < k < |Play(w, actions).entries|
    ensures
      var a, b := Play(w, actions).entries[k - 1], Play(w, actions).entries[k];
      var spaced := b.code.issued >= a.code.issued + COOLDOWN;
      && b.checked <= k && (b.checked == k ==> spaced)
      && (b.code.issued < b.checkedAt + COOLDOWN ==> (spaced <==> b.checked == k))
  {
    PlayKeepsSends(w, actions);
    var end := Play(w, actions);
    SpacedByTimes(Times(end.entries), end.cooldown, end.now, k);
  }

  /** Two sends that both found no cooldown key both issue a code, from any state. */
  lemma OverlapSendsTwice(w: World, a: nat, b: nat, first: string, second: string)
    requires a in w.requests && b in w.requests && a != b && w.requests[a].Cleared? && w.requests[b].Cleared?
    ensures
      var end := Next(Next(w, Issue(a, first)), Issue(b, second));
      var n := |w.entries|;
      |end.entries| == n + 2 && end.entries[n].code.issued == end.entries[n + 1].code.issued
  {
  }

  /** No two sends overlapped, and no two writes to a row. */
  predicate NothingOverlapped(w: World)
  {
    && (forall k :: 0 <= k < |w.entries| ==> w.entries[k].checked >= k)
    && (forall k :: 0 <= k < |w.entries| ==> w.entries[k].asRead)
  }

  /** Then in any stretch of `until - from` seconds guesses are limited by the codes
      that could be sent and still be alive in it. */
  lemma BudgetOverWindow(w: World, actions: seq<Action>, from: int, until: int)
    requires Fresh(w) && from <= until && NothingOverlapped(Play(w, actions))
    ensures HitsIn(Play(w, actions).hits, from, until) <= MAX_ATTEMPTS * ((until - from + TTL) / COOLDOWN + 1)
  {
    FreshHasInv(w);
    PlayKeepsAll(w, actions);
    var end := Play(w, actions);
    forall c: nat
      ensures HitsOn(end.hits, c) <= MAX_ATTEMPTS
    {
      if c < |end.entries| { EachCodeIsBounded(w, actions, c); }
    }
    var codes := Codes(end.entries);
    forall k | 0 < k < |codes|
      ensures codes[k].issued >= codes[k - 1].issued + COOLDOWN
    {
      SpacedIff(w, actions, k);
    }
    forall h | h in end.hits
      ensures InLifetime(codes, h)
    {
      assert HitInLife(end, h);
    }
    FewHits(codes, end.hits, MAX_ATTEMPTS, from, until);
  }
}
