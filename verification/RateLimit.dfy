/**
 The fixed-window limiter: a Redis counter whose expiry is set by the hit that
 creates it (app/core/rate_limit.py). Times are integer seconds.
 */
module RateLimit {
  import opened Options

  /** A stored key: its value, and when it expires, if ever. */
  datatype Counter = Counter(count: nat, expires: Option<int>)

  datatype Answer =
    | Admitted(hits: nat, remaining: nat, retryAfter: int)
    | Limited(retryAfter: int)
    | Crashed

  /** What the server still has at `now`. */
  function Live(k: Option<Counter>, now: int): Option<Counter>
  {
    if k.Some? && k.value.expires.Some? && k.value.expires.value <= now then None else k
  }

  /** The wait to report: TTL answers -1 for a key that never expires. */
  function Wait(c: Counter, now: int): int
  {
    if c.expires.Some? && c.expires.value - now > 1 then c.expires.value - now else 1
  }

  function Counted(k: Option<Counter>, now: int): Counter
  {
    match Live(k, now)
    case None => Counter(1, None)
    case Some(c) => Counter(c.count + 1, c.expires)
  }

  /** One hit. `crash` ends the process between INCR and EXPIRE. */
  function Struck(k: Option<Counter>, limit: int, window: int, crash: bool, now: int): (Counter, Answer)
  {
    var counted := Counted(k, now);
    if crash then (counted, Crashed)
    else
      var c := if counted.count == 1 then Counter(1, Some(now + window)) else counted;
      (c, if c.count > limit then Limited(Wait(c, now)) else Admitted(c.count, limit - c.count, Wait(c, now)))
  }

  // --- The server and the service ------------------------------------------------

  class Limiter {
    var keys: map<string, Counter>

    function At(key: string, now: int): Option<Counter>
      reads this
    {
      Live(if key in keys then Some(keys[key]) else None, now)
    }

    constructor ()
      ensures keys == map[]
    {
      keys := map[];
    }

    method Incr(key: string, now: int) returns (count: nat)
      modifies this
      ensures keys == old(keys)[key := Counted(old(At(key, now)), now)] && count == keys[key].count
    {
      var live := At(key, now);
      var c := match live case None => Counter(1, None) case Some(c) => Counter(c.count + 1, c.expires);
      keys := keys[key := c];
      return c.count;
    }

    method Expire(key: string, seconds: int, now: int)
      modifies this
      ensures keys ==
        if key in old(keys) then old(keys)[key := old(keys)[key].(expires := Some(now + seconds))] else old(keys)
    {
      if key in keys { keys := keys[key := keys[key].(expires := Some(now + seconds))]; }
    }

    /** Seconds left; -1 without an expiry, -2 without the key. */
    method Ttl(key: string, now: int) returns (ttl: int)
      ensures ttl == match At(key, now)
        case None => -2
        case Some(c) => if c.expires.Some? then c.expires.value - now else -1
    {
      var live := At(key, now);
      if live.None? { return -2; }
      return if live.value.expires.Some? then live.value.expires.value - now else -1;
    }

    method Hit(key: string, limit: int, window: int, crash: bool, now: int) returns (answer: Answer)
      requires window > 0
      modifies this
      ensures
        var struck := Struck(old(At(key, now)), limit, window, crash, now);
        keys == old(keys)[key := struck.0] && answer == struck.1
    {
      var count := Incr(key, now);
      if crash { return Crashed; }
      if count == 1 { Expire(key, window, now); }
      var ttl := Ttl(key, now);
      var retryAfter := if ttl > 1 then ttl else 1;
      if count > limit { return Limited(retryAfter); }
      return Admitted(count, limit - count, retryAfter);
    }

    method Reset(key: string)
      modifies this
      ensures keys == old(keys) - {key}
    {
      keys := keys - {key};
    }
  }

  // --- Runs of hits on one key ------------------------------------------------------

  /** A hit, and whether its process dies between INCR and EXPIRE. */
  datatype Strike = Strike(at: int, crash: bool)

  predicate Clocked(hits: seq<Strike>)
  {
    forall i, j :: 0 <= i < j < |hits| ==> hits[i].at <= hits[j].at
  }

  /** The key after the first `i` hits, the run beginning without it. */
  function KeyAt(hits: seq<Strike>, limit: int, window: int, i: nat): Option<Counter>
    requires i <= |hits|
  {
    if i == 0 then None
    else Some(Struck(KeyAt(hits, limit, window, i - 1), limit, window, hits[i - 1].crash, hits[i - 1].at).0)
  }

  function AnswerAt(hits: seq<Strike>, limit: int, window: int, i: nat): Answer
    requires i < |hits|
  {
    Struck(KeyAt(hits, limit, window, i), limit, window, hits[i].crash, hits[i].at).1
  }

  /** The hit that opened the window hit `i` falls in, from the hits alone: the first
      of all, and then the first at least a window after the last opening. A window
      whose opening hit crashed never closes. */
  function Opening(hits: seq<Strike>, window: int, i: nat): (o: nat)
    requires i < |hits|
    ensures o <= i
  {
    if i == 0 then 0
    else
      var o := Opening(hits, window, i - 1);
      if hits[o].crash || hits[i].at < hits[o].at + window then o else i
  }

  function ExpiryOf(hit: Strike, window: int): Option<int>
  {
    if hit.crash then None else Some(hit.at + window)
  }

  /** The stored counter is the hit's place in its window, and expires a window after
      the opening hit, which no later hit moves: over any run, the key is permanent if
      and only if the hit that opened its window crashed. */
  lemma {:induction false} KeyCountsWindow(hits: seq<Strike>, limit: int, window: int, i: nat)
    requires i < |hits| && window > 0
    ensures
      var o := Opening(hits, window, i);
      KeyAt(hits, limit, window, i + 1) == Some(Counter(i - o + 1, ExpiryOf(hits[o], window)))
  {
    if i > 0 { KeyCountsWindow(hits, limit, window, i - 1); }
  }

  /** Seconds to the end of the window, or one where it has none. */
  function Left(hits: seq<Strike>, window: int, i: nat): int
    requires i < |hits|
  {
    var o := Opening(hits, window, i);
    if hits[o].crash then 1 else hits[o].at + window - hits[i].at
  }

  /** What the hit at `i` is told. */
  lemma AnswerIsPlaceInWindow(hits: seq<Strike>, limit: int, window: int, i: nat)
    requires Clocked(hits) && window > 0 && i < |hits|
    ensures
      var place := i - Opening(hits, window, i) + 1;
      AnswerAt(hits, limit, window, i) ==
        if hits[i].crash then Crashed
        else if place > limit then Limited(Left(hits, window, i))
        else Admitted(place, limit - place, Left(hits, window, i))
  {
    KeyCountsWindow(hits, limit, window, i);
    InsideWindow(hits, window, i);
    var struck := Struck(KeyAt(hits, limit, window, i), limit, window, hits[i].crash, hits[i].at);
    assert KeyAt(hits, limit, window, i + 1) == Some(struck.0);
  }

  /** A hit that does not crash is admitted exactly when fewer than `limit` came
      before it in its window. */
  lemma AdmittedIffEarlyInWindow(hits: seq<Strike>, limit: int, window: int, i: nat)
    requires Clocked(hits) && i < |hits| && window > 0
    ensures AnswerAt(hits, limit, window, i).Admitted? <==> !hits[i].crash && i - Opening(hits, window, i) < limit
  {
    AnswerIsPlaceInWindow(hits, limit, window, i);
  }

  lemma {:induction false} InsideWindow(hits: seq<Strike>, window: int, i: nat)
    requires i < |hits| && Clocked(hits) && window > 0
    ensures
      var o := Opening(hits, window, i);
      hits[o].at <= hits[i].at && (!hits[o].crash ==> hits[i].at < hits[o].at + window)
  {
    if i > 0 { InsideWindow(hits, window, i - 1); }
  }

  lemma {:induction false} OpeningStays(hits: seq<Strike>, window: int, i: nat, j: nat)
    requires i <= j < |hits| && Clocked(hits)
    requires
      var o := Opening(hits, window, i);
      hits[o].crash || hits[j].at < hits[o].at + window
    ensures Opening(hits, window, j) == Opening(hits, window, i)
    decreases j
  {
    if i < j { OpeningStays(hits, window, i, j - 1); }
  }

  /** A later window opens at least a window later, and only after one that ends. */
  lemma {:induction false} OpeningMoves(hits: seq<Strike>, window: int, i: nat, j: nat)
    requires i <= j < |hits| && Clocked(hits) && window > 0
    ensures
      var a, b := Opening(hits, window, i), Opening(hits, window, j);
      a == b || (!hits[a].crash && hits[b].at >= hits[a].at + window)
    decreases j
  {
    if i < j { OpeningMoves(hits, window, i, j - 1); }
  }

  // --- The budget --------------------------------------------------------------------

  function AdmittedIn(hits: seq<Strike>, limit: int, window: int, from: int, until: int): set<int>
  {
    set i | 0 <= i < |hits| && AnswerAt(hits, limit, window, i).Admitted? && from <= hits[i].at <= until
  }

  function AdmittedInWindow(hits: seq<Strike>, limit: int, window: int, o: nat): set<int>
  {
    set i | 0 <= i < |hits| && AnswerAt(hits, limit, window, i).Admitted? && Opening(hits, window, i) == o
  }

  function Range(lo: int, n: nat): set<int> { if n == 0 then {} else Range(lo, n - 1) + {lo + n - 1} }

  lemma {:induction false} RangeSize(lo: int, n: nat)
    ensures |Range(lo, n)| == n && forall i :: i in Range(lo, n) <==> lo <= i < lo + n
  {
    if n > 0 { RangeSize(lo, n - 1); }
  }

  lemma SubsetSize(a: set<int>, b: set<int>)
    requires a <= b
    ensures |a| <= |b|
  {
    assert b == a + (b - a);
  }

  /** At most `limit` hits are admitted per window, whichever hits crash. */
  lemma WindowBudget(hits: seq<Strike>, limit: nat, window: int, o: nat)
    requires Clocked(hits) && o < |hits| && window > 0
    ensures |AdmittedInWindow(hits, limit, window, o)| <= limit
  {
    var admitted := AdmittedInWindow(hits, limit, window, o);
    RangeSize(o, limit);
    forall i | i in admitted
      ensures i in Range(o, limit)
    {
      AdmittedIffEarlyInWindow(hits, limit, window, i);
    }
    SubsetSize(admitted, Range(o, limit));
  }

  /** And at most twice that in any stretch as long as a window. */
  lemma StretchBudget(hits: seq<Strike>, limit: nat, window: int, from: int)
    requires Clocked(hits) && window > 0
    ensures |AdmittedIn(hits, limit, window, from, from + window)| <= 2 * limit
  {
    var admitted := AdmittedIn(hits, limit, window, from, from + window);
    if admitted != {} {
      var a, b := FirstAndLastOpening(hits, limit, window, from);
      RangeSize(a, limit);
      RangeSize(b, limit);
      SubsetSize(admitted, Range(a, limit) + Range(b, limit));
      SubsetSize(Range(b, limit) - Range(a, limit), Range(b, limit));
      assert Range(a, limit) + Range(b, limit) == Range(a, limit) + (Range(b, limit) - Range(a, limit));
    }
  }

  /** No stretch that long meets three windows. */
  lemma FirstAndLastOpening(hits: seq<Strike>, limit: nat, window: int, from: int) returns (a: nat, b: nat)
    requires Clocked(hits) && window > 0 && AdmittedIn(hits, limit, window, from, from + window) != {}
    ensures AdmittedIn(hits, limit, window, from, from + window) <= Range(a, limit) + Range(b, limit)
  {
    var admitted := AdmittedIn(hits, limit, window, from, from + window);
    var first := Least(admitted);
    a, b := Opening(hits, window, first), Opening(hits, window, first);
    if i :| i in admitted && Opening(hits, window, i) != a { b := Opening(hits, window, i); }
    RangeSize(a, limit);
    RangeSize(b, limit);
    forall i | i in admitted
      ensures i in Range(a, limit) + Range(b, limit)
    {
      AdmittedIffEarlyInWindow(hits, limit, window, i);
      if Opening(hits, window, i) != a {
        var j :| j in admitted && Opening(hits, window, j) == b != a;
        TwoWindowsOnly(hits, window, from, first, i, j);
      }
    }
  }

  lemma TwoWindowsOnly(hits: seq<Strike>, window: int, from: int, first: nat, i: nat, j: nat)
    requires Clocked(hits) && window > 0 && first <= i < |hits| && first <= j < |hits| && from <= hits[first].at
    requires hits[i].at <= from + window && hits[j].at <= from + window
    requires Opening(hits, window, first) != Opening(hits, window, i)
    requires Opening(hits, window, first) != Opening(hits, window, j)
    ensures Opening(hits, window, i) == Opening(hits, window, j)
  {
    InsideWindow(hits, window, first);
    OpeningMoves(hits, window, first, i);
    OpeningMoves(hits, window, first, j);
    if i <= j { OpeningMoves(hits, window, i, j); } else { OpeningMoves(hits, window, j, i); }
    InsideWindow(hits, window, i);
    InsideWindow(hits, window, j);
  }

  lemma {:induction false} Least(s: set<int>) returns (m: int)
    requires exists x :: x in s
    ensures m in s && forall x :: x in s ==> m <= x
    decreases s
  {
    m :| m in s;
    if x :| x in s && x < m {
      var rest := s - {m};
      assert x in rest;
      var least := Least(rest);
      assert forall y :: y in s ==> y == m || y in rest;
      m := least;
    }
  }

  // --- Waiting ---------------------------------------------------------------------------

  /** Where its window ends, `Retry-After` is exact: no hit before it has passed is
      admitted, however many there are, and the first one after it opens a window. */
  lemma RetryAfterIsExact(hits: seq<Strike>, limit: int, window: int, i: nat, j: nat)
    requires Clocked(hits) && window > 0 && i < j < |hits| && AnswerAt(hits, limit, window, i).Limited?
    requires !hits[Opening(hits, window, i)].crash && !hits[j].crash
    ensures
      var ready := hits[i].at + AnswerAt(hits, limit, window, i).retryAfter;
      && (hits[j].at < ready ==> AnswerAt(hits, limit, window, j) == Limited(ready - hits[j].at))
      && (hits[j].at >= ready && (forall k :: i < k < j ==> hits[k].at < ready) && limit >= 1 ==>
            AnswerAt(hits, limit, window, j) == Admitted(1, limit - 1, window))
  {
    AnswerIsPlaceInWindow(hits, limit, window, i);
    AnswerIsPlaceInWindow(hits, limit, window, j);
    var ready := hits[i].at + AnswerAt(hits, limit, window, i).retryAfter;
    if hits[j].at < ready {
      OpeningStays(hits, window, i, j);
    } else if forall k :: i < k < j ==> hits[k].at < ready {
      OpeningStays(hits, window, i, j - 1);
    }
  }

  // --- The interleaving that matters ----------------------------------------------------------

  /** The hit is refused, and so is every hit after it, whenever it comes. */
  ghost predicate LockedOut(hits: seq<Strike>, limit: int, window: int)
    requires hits != []
  {
    forall later: seq<Strike>, k: nat ::
      Clocked(hits + later) && |hits| <= k < |hits| + |later| && !(hits + later)[k].crash ==>
        AnswerAt(hits + later, limit, window, k) == Limited(1)
  }

  lemma {:induction false} OpeningOfPrefix(hits: seq<Strike>, later: seq<Strike>, window: int, i: nat)
    requires i < |hits|
    ensures Opening(hits + later, window, i) == Opening(hits, window, i)
  {
    if i > 0 { OpeningOfPrefix(hits, later, window, i - 1); }
  }

  /** After a run that used up its window, every later hit at whatever time is refused
      if and only if the hit that opened the window crashed before its EXPIRE. */
  lemma LockedOutIff(hits: seq<Strike>, limit: nat, window: int)
    requires Clocked(hits) && window > 0 && hits != [] && limit >= 1
    requires |hits| - Opening(hits, window, |hits| - 1) >= limit
    ensures LockedOut(hits, limit, window) <==> hits[Opening(hits, window, |hits| - 1)].crash
  {
    var n := |hits| - 1;
    var o := Opening(hits, window, n);
    if hits[o].crash {
      forall later: seq<Strike>, k: nat
        | Clocked(hits + later) && |hits| <= k < |hits| + |later| && !(hits + later)[k].crash
        ensures AnswerAt(hits + later, limit, window, k) == Limited(1)
      {
        OpeningOfPrefix(hits, later, window, n);
        OpeningStays(hits + later, window, n, k);
        AnswerIsPlaceInWindow(hits + later, limit, window, k);
      }
    } else {
      InsideWindow(hits, window, n);
      var later := [Strike(hits[o].at + window, false)];
      OpeningOfPrefix(hits, later, window, n);
      assert Clocked(hits + later);
      AnswerIsPlaceInWindow(hits + later, limit, window, |hits|);
      assert Opening(hits + later, window, |hits|) == |hits|;
      assert AnswerAt(hits + later, limit, window, |hits|).Admitted?;
    }
  }
}
