/**
 The nightly pruner is invisible to everyone who redeems a token: with or
 without it, every redemption of a run is answered the same.
 */
module TokenPruning {
  import opened Options
  import opened TokenService
  import opened TokenChains

  /** `slim` is `full` less some rows whose tokens have expired by `now`. */
  ghost predicate PrunedFrom(full: Table, slim: Table, now: int)
  {
    && slim.next == full.next
    && (forall id :: id in slim.rows ==> id in full.rows && slim.rows[id] == full.rows[id])
    && (forall id :: id in full.rows && id !in slim.rows ==> full.rows[id].token.exp <= now)
  }

  /** A prunable row's token expired a retention period ago, or more. */
  lemma PruneDropsOnlyExpired(t: Table, now: int)
    requires Valid(t, now)
    ensures PrunedFrom(t, Pruned(t, now), now)
  {
  }

  function AnswerTo(t: Table, e: Event): seq<Answer>
  {
    match e
    case SignIn(user, now) => [Granted(Issued(t, user, now, None).1)]
    case Redeem(presented, active, now) => [Rotated(t, presented, active, now).1]
    case _ => []
  }

  /** What the run's sign-ins and redemptions were answered, in order. */
  function Answers(t: Table, events: seq<Event>): seq<Answer>
    decreases events
  {
    if events == [] then [] else AnswerTo(t, events[0]) + Answers(Step(t, events[0]), events[1..])
  }

  function WithoutPruning(events: seq<Event>): seq<Event>
  {
    if events == [] then []
    else (if events[0].PruneJob? then [] else [events[0]]) + WithoutPruning(events[1..])
  }

  /** One redemption: same answer, and the tables stay related. */
  lemma RedeemAgrees(full: Table, slim: Table, presented: Option<Jwt>, active: bool, now: int)
    requires PrunedFrom(full, slim, now) && Valid(full, now)
    ensures Rotated(full, presented, active, now).1 == Rotated(slim, presented, active, now).1
    ensures PrunedFrom(Rotated(full, presented, active, now).0, Rotated(slim, presented, active, now).0, now)
  {
  }

  lemma LogoutAgrees(full: Table, slim: Table, presented: Option<Jwt>, user: nat, now: int)
    requires PrunedFrom(full, slim, now)
    ensures PrunedFrom(RevokedOne(full, presented, user, now).0, RevokedOne(slim, presented, user, now).0, now)
  {
  }

  lemma PruneAgrees(full: Table, slim: Table, now: int)
    requires PrunedFrom(full, slim, now) && Valid(slim, now)
    ensures PrunedFrom(full, Pruned(slim, now), now)
  {
  }

  lemma StepAgrees(full: Table, slim: Table, e: Event, from: int)
    requires PrunedFrom(full, slim, from) && Valid(full, from) && Valid(slim, from) && from <= e.now
    ensures !e.PruneJob? ==> AnswerTo(full, e) == AnswerTo(slim, e) && PrunedFrom(Step(full, e), Step(slim, e), e.now)
    ensures e.PruneJob? ==> PrunedFrom(full, Step(slim, e), e.now)
  {
    TimePasses(full, from, e.now);
    TimePasses(slim, from, e.now);
    match e
    case Redeem(presented, active, now) => RedeemAgrees(full, slim, presented, active, now);
    case PruneJob(now) => PruneAgrees(full, slim, now);
    case Logout(presented, user, now) => LogoutAgrees(full, slim, presented, user, now);
    case SignIn(_, _) =>
    case LogoutAll(_, _) =>
  }

  lemma {:induction false} AnswersAgree(full: Table, slim: Table, events: seq<Event>, from: int)
    requires PrunedFrom(full, slim, from) && Valid(full, from) && Valid(slim, from) && Clocked(events, from)
    ensures Answers(slim, events) == Answers(full, WithoutPruning(events))
    decreases events
  {
    if events != [] {
      var e, rest := events[0], events[1..];
      StepAgrees(full, slim, e, from);
      StepKeepsValid(slim, e, from);
      if e.PruneJob? {
        TimePasses(full, from, e.now);
        AnswersAgree(full, Step(slim, e), rest, e.now);
        assert WithoutPruning(events) == WithoutPruning(rest);
      } else {
        StepKeepsValid(full, e, from);
        AnswersAgree(Step(full, e), Step(slim, e), rest, e.now);
        assert WithoutPruning(events) == [e] + WithoutPruning(rest);
        assert WithoutPruning(events)[1..] == WithoutPruning(rest);
      }
    }
  }

  /** Taking every pruning job out of a run changes no answer of it. */
  lemma PruningIsInvisible(t: Table, events: seq<Event>, from: int)
    requires Valid(t, from) && Clocked(events, from)
    ensures Answers(t, events) == Answers(t, WithoutPruning(events))
  {
    AnswersAgree(t, t, events, from);
  }

  /** Logout is the one place it shows: ending a session whose token has expired
      reports success only while the row is still there. */
  lemma PruningShowsOnlyOnExpiredLogout(t: Table, jwt: Jwt, user: nat, now: int)
    requires Valid(t, now)
    ensures RevokedOne(Pruned(t, now), Some(jwt), user, now).1 != RevokedOne(t, Some(jwt), user, now).1
       <==> && Lookup(t.rows, jwt).Some?
            && t.rows[jwt.jti].user == user && t.rows[jwt.jti].revokedAt.None?
            && t.rows[jwt.jti].expiresAt < now - RETENTION
  {
  }

  /** It does show: a sign-in, and a logout with its token 61 days later. */
  lemma PruningCanShow(user: nat)
    ensures
      var signedIn := [SignIn(user, 0)];
      var t := Run(EMPTY, signedIn);
      var jwt := Issued(EMPTY, user, 0, None).1.refresh;
      var later := 61 * 86_400 * SECOND;
      && Clocked(signedIn, 0)
      && RevokedOne(t, Some(jwt), user, later).1 && !RevokedOne(Pruned(t, later), Some(jwt), user, later).1
  {
    var t := Issued(EMPTY, user, 0, None).0;
    assert Run(EMPTY, [SignIn(user, 0)]) == Run(t, []);
    assert Prunable(t.rows[0], 61 * 86_400 * SECOND);
  }
}
