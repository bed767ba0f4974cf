/**
 What holds of the refresh-token table in every reachable state: rotation
 chains, single acceptance, and what a reuse or a mass revocation puts an end to.
 */
module TokenChains {
  import opened Options
  import opened TokenService

  /** What every operation keeps, at time `now`. */
  ghost predicate Valid(t: Table, now: int)
  {
    && (forall id :: id in t.rows ==> RowValid(t, id, now))
    && (forall a, b | a in t.rows && b in t.rows && t.rows[a].replacedBy.Some? ::
          t.rows[a].replacedBy == t.rows[b].replacedBy ==> a == b)
  }

  ghost predicate RowValid(t: Table, id: nat, now: int)
    requires id in t.rows
  {
    var row := t.rows[id];
    && id < t.next
    && row.token.jti == id && row.token.sub == row.user && row.token.kind == Refresh
    && row.token.exp <= row.expiresAt <= now + REFRESH_TTL
    && (row.revokedAt.Some? ==> row.revokedAt.value <= now)
    && (row.replacedBy.Some? ==> LinkValid(t, id, row.replacedBy.value))
  }

  /** A link goes to a later row of the same user, and its source was revoked at
      the instant its target was issued. */
  ghost predicate LinkValid(t: Table, id: nat, successor: nat)
    requires id in t.rows
  {
    && successor in t.rows && id < successor
    && t.rows[successor].user == t.rows[id].user
    && t.rows[id].revokedAt == Some(t.rows[successor].expiresAt - REFRESH_TTL)
    && t.rows[id].expiresAt <= t.rows[successor].expiresAt
  }

  lemma IssueKeepsValid(t: Table, user: nat, now: int, spent: Option<nat>)
    requires Valid(t, now)
    requires spent.Some? ==>
      spent.value in t.rows && t.rows[spent.value].user == user && t.rows[spent.value].revokedAt.None?
    ensures Valid(Issued(t, user, now, spent).0, now)
  {
    var t' := Issued(t, user, now, spent).0;
    forall id | id in t'.rows
      ensures RowValid(t', id, now)
    {
      if id in t.rows { assert RowValid(t, id, now); }
    }
  }

  lemma RevokeKeepsValid(t: Table, user: nat, now: int)
    requires Valid(t, now)
    ensures Valid(RevokedAll(t, user, now), now)
  {
    var t' := RevokedAll(t, user, now);
    forall id | id in t'.rows
      ensures RowValid(t', id, now)
    {
      assert RowValid(t, id, now);
    }
  }

  /** Pruning deletes only prefixes of chains: a surviving row's successor
      survives, so the foreign key's SET NULL never fires. */
  lemma PruneKeepsSuccessors(t: Table, now: int, id: nat)
    requires Valid(t, now) && id in t.rows && !Prunable(t.rows[id], now) && t.rows[id].replacedBy.Some?
    ensures t.rows[id].replacedBy.value in t.rows
    ensures !Prunable(t.rows[t.rows[id].replacedBy.value], now)
  {
  }

  lemma PruneOnlyDeletes(t: Table, now: int)
    requires Valid(t, now)
    ensures Pruned(t, now) == t.(rows := map id | id in t.rows && !Prunable(t.rows[id], now) :: t.rows[id])
  {
  }

  lemma PruneKeepsValid(t: Table, now: int)
    requires Valid(t, now)
    ensures Valid(Pruned(t, now), now)
  {
    PruneOnlyDeletes(t, now);
    var t' := Pruned(t, now);
    forall id | id in t'.rows
      ensures RowValid(t', id, now)
    {
      assert RowValid(t, id, now);
      if t.rows[id].replacedBy.Some? { PruneKeepsSuccessors(t, now, id); }
    }
  }

  lemma TimePasses(t: Table, now: int, later: int)
    requires Valid(t, now) && now <= later
    ensures Valid(t, later)
  {
  }

  lemma StepKeepsValid(t: Table, e: Event, from: int)
    requires Valid(t, from) && from <= e.now
    ensures Valid(Step(t, e), e.now)
  {
    TimePasses(t, from, e.now);
    match e
    case SignIn(user, now) => IssueKeepsValid(t, user, now, None);
    case LogoutAll(user, now) => RevokeKeepsValid(t, user, now);
    case PruneJob(now) => PruneKeepsValid(t, now);
    case Redeem(presented, active, now) =>
      if DecodeProblem(presented, Refresh, now).None? {
        var found := Lookup(t.rows, presented.value);
        if found.Some? {
          assert RowValid(t, found.value, now);
          if t.rows[found.value].revokedAt.Some? {
            RevokeKeepsValid(t, t.rows[found.value].user, now);
          } else {
            IssueKeepsValid(t, presented.value.sub, now, found);
          }
        }
      }
    case Logout(presented, user, now) =>
      var t' := Step(t, e);
      forall id | id in t'.rows
        ensures RowValid(t', id, now)
      {
        assert RowValid(t, id, now);
      }
  }

  lemma {:induction false} RunKeepsValid(t: Table, events: seq<Event>, from: int)
    requires Valid(t, from) && Clocked(events, from)
    ensures Valid(Run(t, events), LastTime(events, from))
    decreases events
  {
    if events != [] {
      StepKeepsValid(t, events[0], from);
      RunKeepsValid(Step(t, events[0]), events[1..], events[0].now);
    }
  }

  // --- Chains -----------------------------------------------------------------

  /** Following `replaced_by_id` `n` times from `a` arrives at `b`. */
  predicate Path(t: Table, a: nat, b: nat, n: nat)
    decreases n
  {
    if n == 0 then a == b
    else a in t.rows && t.rows[a].replacedBy.Some? && Path(t, t.rows[a].replacedBy.value, b, n - 1)
  }

  lemma {:induction false} PathGoesUp(t: Table, now: int, a: nat, b: nat, n: nat)
    requires Valid(t, now) && Path(t, a, b, n) && n > 0
    ensures a < b && a in t.rows && b in t.rows && t.rows[a].revokedAt.Some? && t.rows[a].user == t.rows[b].user
    decreases n
  {
    assert RowValid(t, a, now);
    if n > 1 { PathGoesUp(t, now, t.rows[a].replacedBy.value, b, n - 1); }
  }

  /** The last link of a path that has one. */
  lemma {:induction false} LastLink(t: Table, a: nat, b: nat, n: nat) returns (p: nat)
    requires Path(t, a, b, n) && n > 0
    ensures p in t.rows && t.rows[p].replacedBy == Some(b) && Path(t, a, p, n - 1)
    decreases n
  {
    if n == 1 {
      p := a;
    } else {
      p := LastLink(t, t.rows[a].replacedBy.value, b, n - 1);
    }
  }

  /** Chains are disjoint: of two paths that meet, the longer passes through the
      start of the shorter. */
  lemma {:induction false} ChainsDisjoint(t: Table, now: int, a: nat, b: nat, end: nat, m: nat, n: nat)
    requires Valid(t, now) && n <= m && Path(t, a, end, m) && Path(t, b, end, n)
    ensures Path(t, a, b, m - n)
    decreases n
  {
    if n > 0 {
      var p := LastLink(t, a, end, m);
      var q := LastLink(t, b, end, n);
      ChainsDisjoint(t, now, a, b, p, m - 1, n - 1);
    }
  }

  predicate Live(t: Table, id: nat) { id in t.rows && t.rows[id].revokedAt.None? }

  /** Every reachable table: following links never comes back, chains are
      disjoint, every linked row is revoked, and no chain holds two live rows. */
  lemma ReachableChains(events: seq<Event>, from: int, a: nat, b: nat, end: nat, m: nat, n: nat)
    requires Clocked(events, from)
    ensures
      var t := Run(EMPTY, events);
      && (a in t.rows && t.rows[a].replacedBy.Some? ==>
            a < t.rows[a].replacedBy.value && t.rows[a].replacedBy.value in t.rows && t.rows[a].revokedAt.Some?)
      && (Path(t, a, a, n) ==> n == 0)
      && (n <= m && Path(t, a, end, m) && Path(t, b, end, n) ==> Path(t, a, b, m - n))
      && (n <= m && Path(t, a, end, m) && Path(t, b, end, n) && Live(t, a) && Live(t, b) ==> a == b)
  {
    RunKeepsValid(EMPTY, events, from);
    var t, now := Run(EMPTY, events), LastTime(events, from);
    if a in t.rows { assert RowValid(t, a, now); }
    if n > 0 && Path(t, a, a, n) { PathGoesUp(t, now, a, a, n); }
    if n <= m && Path(t, a, end, m) && Path(t, b, end, n) {
      ChainsDisjoint(t, now, a, b, end, m, n);
      if n < m { PathGoesUp(t, now, a, b, m - n); }
    }
  }

  // --- Acceptance over a run --------------------------------------------------

  predicate Accepts(t: Table, e: Event, jwt: Jwt)
  {
    e.Redeem? && e.presented == Some(jwt) && Rotated(t, e.presented, e.active, e.now).1.Granted?
  }

  /** The token was issued before this state and can no longer be redeemed. */
  predicate Dead(t: Table, jwt: Jwt)
  {
    jwt.jti < t.next && (Lookup(t.rows, jwt).Some? ==> t.rows[jwt.jti].revokedAt.Some?)
  }

  lemma {:induction false} DeadStaysDead(t: Table, events: seq<Event>, jwt: Jwt, k: nat)
    requires Dead(t, jwt) && k < |events|
    ensures !Accepts(Run(t, events[..k]), events[k], jwt)
    decreases k
  {
    if k == 0 {
      assert events[..0] == [];
    } else {
      assert events[..k] == [events[0]] + events[1..][..k - 1];
      DeadStaysDead(Step(t, events[0]), events[1..], jwt, k - 1);
    }
  }

  lemma RunSplits(t: Table, events: seq<Event>, k: nat)
    requires k <= |events|
    ensures Run(t, events) == Run(Run(t, events[..k]), events[k..])
    decreases k
  {
    if k == 0 {
      assert events[..0] == [] && events[0..] == events;
    } else {
      assert events[..k] == [events[0]] + events[1..][..k - 1];
      assert events[1..][k - 1..] == events[k..];
      RunSplits(Step(t, events[0]), events[1..], k - 1);
    }
  }

  /** From the state after `events[..j]`, where the token is dead, no later
      event accepts it. */
  lemma DeadAt(t: Table, events: seq<Event>, jwt: Jwt, j: nat, k: nat)
    requires j <= k < |events| && Dead(Run(t, events[..j]), jwt)
    ensures !Accepts(Run(t, events[..k]), events[k], jwt)
  {
    var rest := events[j..];
    DeadStaysDead(Run(t, events[..j]), rest, jwt, k - j);
    RunSplits(t, events[..k], j);
    assert events[..k][..j] == events[..j];
    assert events[..k][j..] == rest[..k - j];
  }

  lemma RunOne(t: Table, events: seq<Event>, k: nat)
    requires k < |events|
    ensures Run(t, events[..k + 1]) == Step(Run(t, events[..k]), events[k])
  {
    RunSplits(t, events[..k + 1], k);
    assert events[..k + 1][..k] == events[..k];
    assert events[..k + 1][k..] == [events[k]];
    var s := Run(t, events[..k]);
    assert Run(s, [events[k]]) == Run(Step(s, events[k]), []);
  }

  /** No token is redeemed twice. */
  lemma AcceptedAtMostOnce(t: Table, events: seq<Event>, jwt: Jwt, i: nat, k: nat, from: int)
    requires Valid(t, from) && Clocked(events, from)
    requires i < k < |events| && Accepts(Run(t, events[..i]), events[i], jwt)
    ensures !Accepts(Run(t, events[..k]), events[k], jwt)
  {
    PrefixClocked(events, from, i);
    RunKeepsValid(t, events[..i], from);
    var s := Run(t, events[..i]);
    assert RowValid(s, jwt.jti, LastTime(events[..i], from));
    RunOne(t, events, i);
    DeadAt(t, events, jwt, i + 1, k);
  }

  lemma {:induction false} PrefixClocked(events: seq<Event>, from: int, k: nat)
    requires Clocked(events, from) && k <= |events|
    ensures Clocked(events[..k], from)
  {
    if k > 0 {
      PrefixClocked(events[1..], events[0].now, k - 1);
      assert events[..k] == [events[0]] + events[1..][..k - 1];
    }
  }

  /** The event revoked every session of `user`: a mass revocation, or the
      presentation of a token of theirs that was already revoked. */
  predicate EndsSessions(t: Table, e: Event, user: nat)
  {
    || (e.LogoutAll? && e.user == user)
    || (e.Redeem? && e.presented.Some? && e.presented.value.sub == user
        && Rotated(t, e.presented, e.active, e.now).1 == Refused(SessionRevoked))
  }

  /** After it, no token the user held before is ever accepted again. */
  lemma NothingSurvivesRevocation(t: Table, events: seq<Event>, user: nat, i: nat, k: nat, jwt: Jwt, from: int)
    requires Valid(t, from) && Clocked(events, from)
    requires i < k < |events| && EndsSessions(Run(t, events[..i]), events[i], user)
    requires jwt.sub == user && jwt.jti < Run(t, events[..i]).next
    ensures !Accepts(Run(t, events[..k]), events[k], jwt)
  {
    PrefixClocked(events, from, i);
    RunKeepsValid(t, events[..i], from);
    var s, now := Run(t, events[..i]), LastTime(events[..i], from);
    if jwt.jti in s.rows { assert RowValid(s, jwt.jti, now); }
    if events[i].Redeem? { assert RowValid(s, events[i].presented.value.jti, now); }
    RunOne(t, events, i);
    DeadAt(t, events, jwt, i + 1, k);
  }

  /** What a redemption is told, reason by reason, and what it does to the rows: a grant
      revokes and links the row presented, and adds the next; a reuse stamps the live
      rows of that user and no one else's; any other refusal changes nothing. */
  lemma RotatedRowByRow(t: Table, presented: Option<Jwt>, active: bool, now: int)
    requires Valid(t, now)
    ensures
      var (after, answer) := Rotated(t, presented, active, now);
      match answer
      case Refused(InvalidToken) => presented == None && after == t
      case Refused(TokenExpired) => presented.Some? && presented.value.exp <= now && after == t
      case Refused(WrongType) => Fresh(presented, now) && presented.value.kind == Access && after == t
      case Refused(NotRecognised) => Fresh(presented, now) && !Known(t, presented.value) && after == t
      case Refused(AccountInactive) =>
        && Fresh(presented, now) && Held(t, presented.value, presented.value.sub) && !active && after == t
      case Refused(RowExpired) => false
      case Refused(SessionRevoked) =>
        && Fresh(presented, now) && Known(t, presented.value) && t.rows[presented.value.jti].revokedAt != None
        && after.rows.Keys == t.rows.Keys && after.next == t.next
        && forall id :: id in t.rows ==>
             after.rows[id] == if t.rows[id].user == presented.value.sub && t.rows[id].revokedAt == None
                               then t.rows[id].(revokedAt := Some(now)) else t.rows[id]
      case Granted(pair) =>
        && Fresh(presented, now) && Held(t, presented.value, presented.value.sub) && active
        && Held(after, pair.refresh, presented.value.sub) && pair.refresh.jti == t.next
        && after.rows.Keys == t.rows.Keys + {t.next} && after.next == t.next + 1
        && forall id :: id in t.rows ==>
             after.rows[id] == if id == presented.value.jti
                               then t.rows[id].(revokedAt := Some(now), replacedBy := Some(t.next)) else t.rows[id]
  {
    if presented.Some? && presented.value.jti in t.rows { assert RowValid(t, presented.value.jti, now); }
  }

  predicate Fresh(presented: Option<Jwt>, now: int) { presented.Some? && now < presented.value.exp }

  predicate Known(t: Table, jwt: Jwt) { jwt.jti in t.rows && t.rows[jwt.jti].token == jwt }

  // --- When a session ends -----------------------------------------------------

  /** The token's row is there, that user's and live. */
  predicate Held(t: Table, jwt: Jwt, user: nat)
  {
    && jwt.jti in t.rows && t.rows[jwt.jti].token == jwt
    && t.rows[jwt.jti].user == user && t.rows[jwt.jti].revokedAt == None
  }

  /** A logout answers true if and only if it presents a live token of that user. It
      then stamps that row, and nothing else in the table changes. */
  lemma LogoutEndsPresented(t: Table, presented: Option<Jwt>, user: nat, now: int)
    ensures
      var (after, ended) := RevokedOne(t, presented, user, now);
      && (ended <==> presented.Some? && Held(t, presented.value, user))
      && after.next == t.next && after.rows.Keys == t.rows.Keys
      && forall id :: id in t.rows ==>
           after.rows[id] == if presented.Some? && presented.value.jti == id && Held(t, presented.value, user)
                             then t.rows[id].(revokedAt := Some(now)) else t.rows[id]
  {
  }

  /** Over any run after such a logout the token is never accepted. */
  lemma LoggedOutForGood(t: Table, events: seq<Event>, jwt: Jwt, i: nat, k: nat, from: int)
    requires Valid(t, from) && Clocked(events, from) && i < k < |events|
    requires events[i].Logout? && events[i].presented == Some(jwt)
    requires RevokedOne(Run(t, events[..i]), events[i].presented, events[i].user, events[i].now).1
    ensures
      var rows := Run(t, events[..i + 1]).rows;
      jwt.jti in rows && rows[jwt.jti].token == jwt && rows[jwt.jti].revokedAt == Some(events[i].now)
    ensures !Accepts(Run(t, events[..k]), events[k], jwt)
  {
    PrefixClocked(events, from, i);
    RunKeepsValid(t, events[..i], from);
    var s := Run(t, events[..i]);
    LogoutEndsPresented(s, events[i].presented, events[i].user, events[i].now);
    assert RowValid(s, jwt.jti, LastTime(events[..i], from));
    RunOne(t, events, i);
    DeadAt(t, events, jwt, i + 1, k);
  }

  /** What ends the session of a live token: its user is logged out everywhere; it is
      logged out; it is redeemed; or a token of its user that was already revoked is
      presented as if it were good. */
  predicate Ends(t: Table, e: Event, jwt: Jwt)
  {
    match e
    case SignIn(_, _) => false
    case PruneJob(_) => false
    case LogoutAll(user, _) => user == jwt.sub
    case Logout(presented, user, _) => presented == Some(jwt) && user == jwt.sub
    case Redeem(presented, active, now) =>
      && presented.Some? && now < presented.value.exp && presented.value.kind == Refresh
      && presented.value.jti in t.rows && t.rows[presented.value.jti].token == presented.value
      && if presented.value == jwt then active
         else presented.value.sub == jwt.sub && t.rows[presented.value.jti].revokedAt != None
  }

  predicate EndedIn(t: Table, events: seq<Event>, jwt: Jwt)
    decreases events
  {
    events != [] && (Ends(t, events[0], jwt) || EndedIn(Step(t, events[0]), events[1..], jwt))
  }

  lemma StepEndsIff(t: Table, e: Event, jwt: Jwt, from: int)
    requires Valid(t, from) && from <= e.now && Held(t, jwt, jwt.sub)
    ensures Ends(t, e, jwt) ==> Dead(Step(t, e), jwt)
    ensures !Ends(t, e, jwt) ==> Held(Step(t, e), jwt, jwt.sub) || jwt.exp <= e.now
  {
    assert RowValid(t, jwt.jti, from);
    if e.Redeem? && e.presented.Some? && e.presented.value.jti in t.rows {
      assert RowValid(t, e.presented.value.jti, from);
    }
  }

  lemma {:induction false} DeadAfter(t: Table, events: seq<Event>, jwt: Jwt)
    requires Dead(t, jwt)
    ensures Dead(Run(t, events), jwt)
    decreases events
  {
    if events != [] { DeadAfter(Step(t, events[0]), events[1..], jwt); }
  }

  /** Nothing else ends it: after any run, a token that was live is accepted exactly
      while it has not expired, its account is active, and none of those has happened. */
  lemma {:induction false} AcceptedUntilEndedIff(t: Table, events: seq<Event>, jwt: Jwt, active: bool, later: int,
                                                 from: int)
    requires Valid(t, from) && Clocked(events, from) && LastTime(events, from) <= later
    requires Held(t, jwt, jwt.sub)
    ensures Rotated(Run(t, events), Some(jwt), active, later).1.Granted? <==>
      active && later < jwt.exp && !EndedIn(t, events, jwt)
    decreases events
  {
    if events == [] {
      assert RowValid(t, jwt.jti, from);
    } else {
      var e, t' := events[0], Step(t, events[0]);
      StepKeepsValid(t, e, from);
      StepEndsIff(t, e, jwt, from);
      LastIsLate(events[1..], e.now);
      if Ends(t, e, jwt) {
        DeadAfter(t', events[1..], jwt);
      } else if Held(t', jwt, jwt.sub) {
        AcceptedUntilEndedIff(t', events[1..], jwt, active, later, e.now);
      }
    }
  }

  lemma {:induction false} LastIsLate(events: seq<Event>, from: int)
    requires Clocked(events, from)
    ensures from <= LastTime(events, from)
  {
    if events != [] { LastIsLate(events[1..], events[0].now); }
  }

  /** The JWT expires no later than its row, so the row's own expiry check never
      decides an answer. */
  lemma RowExpiryNeverDecides(t: Table, presented: Option<Jwt>, active: bool, now: int)
    requires Valid(t, now)
    ensures Rotated(t, presented, active, now).1 != Refused(RowExpired)
  {
  }

  /** A pair just issued works: its refresh token is redeemed exactly until it
      expires, 30 days away to the second; its access token lasts 30
      minutes and is never taken for a refresh token. */
  lemma NewPairWorks(t: Table, user: nat, now: int, spent: Option<nat>, active: bool, later: int)
    requires Valid(t, now) && now <= later
    requires spent.Some? ==> spent.value in t.rows
    ensures
      var (t', pair) := Issued(t, user, now, spent);
      && (Rotated(t', Some(pair.refresh), active, later).1.Granted? <==> active && later < pair.refresh.exp)
      && now + 30 * 86_400_000_000 - 1_000_000 < pair.refresh.exp <= now + 30 * 86_400_000_000
      && Held(t', pair.refresh, user) && pair.refresh.sub == user == pair.access.sub
      && (DecodeProblem(Some(pair.access), Access, later).None? <==> later < pair.access.exp)
      && now + 30 * 60_000_000 - 1_000_000 < pair.access.exp <= now + 30 * 60_000_000
      && Rotated(t', Some(pair.access), active, later).1.Refused?
  {
  }
}
