/**
 Counting comparisons over a stretch of time: codes sent a cooldown apart, each
 compared a limited number of times while it lives.
 */
module OtpBudget {
  import opened OtpService

  /** A comparison: the row and the time. */
  datatype Hit = Hit(row: nat, now: int)

  function HitsOn(hits: seq<Hit>, c: nat): nat
  {
    if hits == [] then 0
    else HitsOn(hits[..|hits| - 1], c) + if hits[|hits| - 1].row == c then 1 else 0
  }

  lemma HitsOneMore(hits: seq<Hit>, last: Hit, c: nat)
    ensures HitsOn(hits + [last], c) == HitsOn(hits, c) + if last.row == c then 1 else 0
  {
    assert (hits + [last])[..|hits|] == hits;
  }

  predicate Within(now: int, from: int, until: int) { from <= now <= until }

  /** Comparisons in [from, until] against rows below `n`. */
  function HitsBelow(hits: seq<Hit>, n: nat, from: int, until: int): nat
  {
    if hits == [] then 0
    else
      var last := hits[|hits| - 1];
      HitsBelow(hits[..|hits| - 1], n, from, until) + if last.row < n && Within(last.now, from, until) then 1 else 0
  }

  /** All comparisons in [from, until]. */
  function HitsIn(hits: seq<Hit>, from: int, until: int): nat
  {
    if hits == [] then 0
    else HitsIn(hits[..|hits| - 1], from, until) + if Within(hits[|hits| - 1].now, from, until) then 1 else 0
  }

  lemma {:induction false} EveryHitIsBelow(hits: seq<Hit>, n: nat, from: int, until: int)
    requires forall h :: h in hits ==> h.row < n
    ensures HitsIn(hits, from, until) == HitsBelow(hits, n, from, until)
  {
    if hits != [] {
      assert hits[|hits| - 1] in hits;
      EveryHitIsBelow(hits[..|hits| - 1], n, from, until);
    }
  }

  /** One more row adds at most its own budget. */
  lemma {:induction false} OneMoreRow(hits: seq<Hit>, c: nat, from: int, until: int)
    ensures HitsBelow(hits, c + 1, from, until) <= HitsBelow(hits, c, from, until) + HitsOn(hits, c)
  {
    if hits != [] { OneMoreRow(hits[..|hits| - 1], c, from, until); }
  }

  /** A row compared in a window was sent at most TTL before it, and by its end. */
  predicate Reachable(issued: int, from: int, until: int) { from - TTL < issued <= until }

  lemma {:induction false} UnreachableRowAddsNothing(hits: seq<Hit>, issued: int, c: nat, from: int, until: int)
    requires !Reachable(issued, from, until)
    requires forall h :: h in hits && h.row == c ==> issued <= h.now < issued + TTL
    ensures HitsBelow(hits, c + 1, from, until) == HitsBelow(hits, c, from, until)
  {
    if hits != [] {
      assert hits[|hits| - 1] in hits;
      UnreachableRowAddsNothing(hits[..|hits| - 1], issued, c, from, until);
    }
  }

  lemma {:induction false} NoRowsNoHits(hits: seq<Hit>, from: int, until: int)
    ensures HitsBelow(hits, 0, from, until) == 0
  {
    if hits != [] { NoRowsNoHits(hits[..|hits| - 1], from, until); }
  }

  predicate InLifetime(codes: seq<Code>, h: Hit)
  {
    h.row < |codes| && codes[h.row].issued <= h.now < codes[h.row].issued + TTL
  }

  lemma {:induction false} IssueTimesSpread(codes: seq<Code>, a: nat, b: nat)
    requires a <= b < |codes| && forall c :: 0 < c < |codes| ==> codes[c].issued >= codes[c - 1].issued + COOLDOWN
    ensures codes[b].issued >= codes[a].issued + (b - a) * COOLDOWN
    decreases b
  {
    if a < b { IssueTimesSpread(codes, a, b - 1); }
  }

  /** Rows below `n` that a window can reach. */
  function ReachableBelow(codes: seq<Code>, n: nat, from: int, until: int): nat
    requires n <= |codes|
  {
    if n == 0 then 0
    else ReachableBelow(codes, n - 1, from, until) + if Reachable(codes[n - 1].issued, from, until) then 1 else 0
  }

  lemma OneMoreTime(most: nat, times: nat)
    ensures most * (times + 1) == most * times + most
  {
  }

  lemma {:induction false} HitsByReachable(codes: seq<Code>, hits: seq<Hit>, most: nat, n: nat, from: int, until: int)
    requires n <= |codes|
    requires forall h :: h in hits ==> InLifetime(codes, h)
    requires forall c: nat :: HitsOn(hits, c) <= most
    ensures HitsBelow(hits, n, from, until) <= most * ReachableBelow(codes, n, from, until)
  {
    if n == 0 {
      NoRowsNoHits(hits, from, until);
    } else {
      HitsByReachable(codes, hits, most, n - 1, from, until);
      if Reachable(codes[n - 1].issued, from, until) {
        OneMoreTime(most, ReachableBelow(codes, n - 1, from, until));
        OneMoreRow(hits, n - 1, from, until);
      } else {
        UnreachableRowAddsNothing(hits, codes[n - 1].issued, n - 1, from, until);
      }
    }
  }

  /** The first of `m` reachable rows is `m - 1` cooldowns before the last. */
  lemma {:induction false} ReachableRowsSpread(codes: seq<Code>, n: nat, from: int, until: int)
    returns (first: nat, last: nat)
    requires n <= |codes| && ReachableBelow(codes, n, from, until) > 0
    requires forall c :: 0 < c < |codes| ==> codes[c].issued >= codes[c - 1].issued + COOLDOWN
    ensures first <= last < n && Reachable(codes[first].issued, from, until)
    ensures Reachable(codes[last].issued, from, until)
    ensures ReachableBelow(codes, n, from, until) <= last - first + 1
    decreases n
  {
    if !Reachable(codes[n - 1].issued, from, until) {
      first, last := ReachableRowsSpread(codes, n - 1, from, until);
    } else if ReachableBelow(codes, n - 1, from, until) == 0 {
      first, last := n - 1, n - 1;
    } else {
      first, last := ReachableRowsSpread(codes, n - 1, from, until);
      last := n - 1;
    }
  }

  lemma FewReachable(codes: seq<Code>, from: int, until: int)
    requires from <= until
    requires forall c :: 0 < c < |codes| ==> codes[c].issued >= codes[c - 1].issued + COOLDOWN
    ensures ReachableBelow(codes, |codes|, from, until) <= (until - from + TTL) / COOLDOWN + 1
  {
    if ReachableBelow(codes, |codes|, from, until) > 0 {
      var first, last := ReachableRowsSpread(codes, |codes|, from, until);
      IssueTimesSpread(codes, first, last);
    }
  }

  /** In [from, until], comparisons are limited by the codes that could be sent and
      still be alive in it. */
  lemma FewHits(codes: seq<Code>, hits: seq<Hit>, most: nat, from: int, until: int)
    requires from <= until
    requires forall c :: 0 < c < |codes| ==> codes[c].issued >= codes[c - 1].issued + COOLDOWN
    requires forall h :: h in hits ==> InLifetime(codes, h)
    requires forall c: nat :: HitsOn(hits, c) <= most
    ensures HitsIn(hits, from, until) <= most * ((until - from + TTL) / COOLDOWN + 1)
  {
    EveryHitIsBelow(hits, |codes|, from, until);
    HitsByReachable(codes, hits, most, |codes|, from, until);
    FewReachable(codes, from, until);
    MoreAllowance(most, ReachableBelow(codes, |codes|, from, until), (until - from + TTL) / COOLDOWN + 1);
  }

  lemma MoreAllowance(most: nat, a: int, b: int)
    requires a <= b
    ensures most * a <= most * b
  {
  }
}
