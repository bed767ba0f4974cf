/**
 Answers that vary over integer time: the first flip after an instant, and why
 one period of a repeating answer, scanned at the right moments, decides it.
 */
module Timeline {
  import opened Options

  predicate Ascending(s: seq<int>)
  {
    forall i, j :: 0 <= i < j < |s| ==> s[i] <= s[j]
  }

  ghost predicate ConstantOver(open: int -> bool, from: int, until: int)
  {
    forall t :: from <= t < until ==> open(t) == open(from)
  }

  /** The least instant after `from` with a different answer, or the fact that
      there is none, over all time. */
  ghost predicate NextFlip(open: int -> bool, from: int, flip: Option<int>)
  {
    match flip
    case Some(m) => from < m && open(m) != open(from) && ConstantOver(open, from, m)
    case None => forall t :: from <= t ==> open(t) == open(from)
  }

  lemma NextFlipIsUnique(open: int -> bool, from: int, a: Option<int>, b: Option<int>)
    requires NextFlip(open, from, a) && NextFlip(open, from, b)
    ensures a == b
  {
  }

  /** An instant with a different answer has a first one at or before it. */
  lemma FirstDifference(open: int -> bool, from: int, until: int) returns (first: int)
    requires from < until && open(until) != open(from)
    ensures first <= until && NextFlip(open, from, Some(first))
    decreases until - from
  {
    if t :| from < t < until && open(t) != open(from) {
      first := FirstDifference(open, from, t);
    } else {
      first := until;
    }
  }

  lemma ConstantUntilFlip(open: int -> bool, from: int, at: int)
    requires from <= at
    requires forall flip :: NextFlip(open, from, Some(flip)) ==> at < flip
    ensures open(at) == open(from)
  {
    if open(at) != open(from) {
      var first := FirstDifference(open, from, at);
    }
  }

  ghost predicate Repeats(open: int -> bool, period: nat)
  {
    forall t :: open(t + period) == open(t)
  }

  /** An answer that holds for one whole period holds for ever. */
  lemma {:induction false} ConstantForAPeriodIsForever(open: int -> bool, period: nat, from: int, t: int)
    requires period > 0 && Repeats(open, period)
    requires ConstantOver(open, from, from + period + 1) && from <= t
    ensures open(t) == open(from)
    decreases t - from
  {
    if t > from + period {
      ConstantForAPeriodIsForever(open, period, from, t - period);
      assert open(t - period + period) == open(t - period);
    }
  }

  /** `moments` lists, in order, every flip of the period after `from`. */
  ghost predicate CoversFlips(open: int -> bool, period: nat, from: int, moments: seq<int>)
  {
    && Ascending(moments)
    && (forall m :: m in moments ==> from < m)
    && (forall f :: from < f <= from + period && open(f - 1) != open(f) ==> f in moments)
  }

  /** A later instant that answers differently, however far off, is preceded or
      met by a listed moment that answers differently. */
  lemma DifferenceIsListed(open: int -> bool, period: nat, from: int, moments: seq<int>, t: int) returns (k: nat)
    requires period > 0 && Repeats(open, period) && CoversFlips(open, period, from, moments)
    requires from < t && open(t) != open(from)
    ensures k < |moments| && moments[k] <= t && open(moments[k]) != open(from)
  {
    var early := t;
    if t > from + period {
      if ConstantOver(open, from, from + period + 1) {
        ConstantForAPeriodIsForever(open, period, from, t);
      }
      early :| from <= early < from + period + 1 && open(early) != open(from);
    }
    var first := FirstDifference(open, from, early);
    assert open(first - 1) == open(from);
    assert first in moments;
    k :| k < |moments| && moments[k] == first;
  }

  /** A scan of the moments that has passed over the first `i` has missed nothing. */
  lemma ScanMissesNothing(open: int -> bool, period: nat, from: int, moments: seq<int>, i: nat)
    requires period > 0 && Repeats(open, period) && CoversFlips(open, period, from, moments)
    requires i <= |moments| && forall k :: 0 <= k < i ==> open(moments[k]) == open(from)
    ensures i == |moments| ==> NextFlip(open, from, None)
    ensures i < |moments| && open(moments[i]) != open(from) ==> NextFlip(open, from, Some(moments[i]))
  {
    forall t | from < t && open(t) != open(from)
      ensures i < |moments| && moments[i] <= t
    {
      var k := DifferenceIsListed(open, period, from, moments, t);
    }
    if i < |moments| {
      assert moments[i] in moments;
    }
  }

  /** The first moment with a different answer, scanning in order. */
  method FirstFlipAmong(open: int -> bool, now: bool, moments: seq<int>, ghost period: nat, ghost from: int)
    returns (flip: Option<int>)
    requires now == open(from)
    requires period > 0 && Repeats(open, period) && CoversFlips(open, period, from, moments)
    ensures NextFlip(open, from, flip)
  {
    for i := 0 to |moments|
      invariant forall k :: 0 <= k < i ==> open(moments[k]) == now
    {
      if open(moments[i]) != now {
        ScanMissesNothing(open, period, from, moments, i);
        return Some(moments[i]);
      }
    }
    ScanMissesNothing(open, period, from, moments, |moments|);
    return None;
  }
}
