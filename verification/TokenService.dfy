/**
 Refresh tokens: issuing, rotating on every use, reuse detection, revocation and
 pruning (app/services/token_service.py and the pruner in app/workers/tasks.py).

 Times are integer microseconds. SHA-256 is injective here, so a row keeps the
 token itself. Row ids and token identifiers are drawn from one counter.
 */
module TokenService {
  import opened Options

  const SECOND: int := 1_000_000
  const REFRESH_TTL: int := 30 * 86_400 * SECOND
  const ACCESS_TTL: int := 30 * 60 * SECOND
  const RETENTION: int := 30 * 86_400 * SECOND

  datatype Kind = Access | Refresh
  datatype Jwt = Jwt(sub: nat, kind: Kind, exp: int, jti: nat)
  datatype TokenPair = TokenPair(access: Jwt, refresh: Jwt)

  datatype Row = Row(user: nat, token: Jwt, expiresAt: int, revokedAt: Option<int>, replacedBy: Option<nat>)
  datatype Table = Table(rows: map<nat, Row>, next: nat)

  datatype Refusal =
    | TokenExpired | InvalidToken | WrongType | NotRecognised
    | SessionRevoked | RowExpired | AccountInactive
  datatype Answer = Granted(pair: TokenPair) | Refused(reason: Refusal)

  /** A JWT's `exp` claim holds whole seconds. */
  function Mint(user: nat, kind: Kind, ttl: int, now: int, jti: nat): Jwt
  {
    Jwt(user, kind, (now + ttl) / SECOND * SECOND, jti)
  }

  /** `decode_token`: None when the presented text is acceptable as `kind`. An
      undecodable presentation is `None` on the way in. */
  function DecodeProblem(presented: Option<Jwt>, kind: Kind, now: int): Option<Refusal>
  {
    match presented
    case None => Some(InvalidToken)
    case Some(jwt) =>
      if jwt.exp <= now then Some(TokenExpired)
      else if jwt.kind != kind then Some(WrongType)
      else None
  }

  /** The row whose hash is the presented token's. */
  function Lookup(rows: map<nat, Row>, jwt: Jwt): Option<nat>
  {
    if jwt.jti in rows && rows[jwt.jti].token == jwt then Some(jwt.jti) else None
  }

  // --- The operations as functions on the table -----------------------------

  function Issued(t: Table, user: nat, now: int, spent: Option<nat>): (r: (Table, TokenPair))
    requires spent.Some? ==> spent.value in t.rows
  {
    var refresh := Mint(user, Refresh, REFRESH_TTL, now, t.next);
    var row := Row(user, refresh, now + REFRESH_TTL, None, None);
    var rows := t.rows[t.next := row];
    var linked :=
      match spent
      case None => rows
      case Some(id) => rows[id := rows[id].(revokedAt := Some(now), replacedBy := Some(t.next))];
    (Table(linked, t.next + 1), TokenPair(Mint(user, Access, ACCESS_TTL, now, t.next), refresh))
  }

  /** UPDATE ... SET revoked_at = now WHERE user_id = user AND revoked_at IS NULL. */
  function RevokedAll(t: Table, user: nat, now: int): Table
  {
    t.(rows := map id | id in t.rows ::
         if t.rows[id].user == user && t.rows[id].revokedAt.None? then t.rows[id].(revokedAt := Some(now))
         else t.rows[id])
  }

  function LiveOf(t: Table, user: nat): set<nat>
  {
    set id | id in t.rows && t.rows[id].user == user && t.rows[id].revokedAt.None?
  }

  function Rotated(t: Table, presented: Option<Jwt>, active: bool, now: int): (Table, Answer)
  {
    var problem := DecodeProblem(presented, Refresh, now);
    if problem.Some? then (t, Refused(problem.value))
    else
      var found := Lookup(t.rows, presented.value);
      if found.None? then (t, Refused(NotRecognised))
      else
        var row := t.rows[found.value];
        if row.revokedAt.Some? then (RevokedAll(t, row.user, now), Refused(SessionRevoked))
        else if row.expiresAt <= now then (t, Refused(RowExpired))
        else if !active then (t, Refused(AccountInactive))
        else
          var (t', pair) := Issued(t, presented.value.sub, now, found);
          (t', Granted(pair))
  }

  function RevokedOne(t: Table, presented: Option<Jwt>, user: nat, now: int): (Table, bool)
  {
    if presented.None? || Lookup(t.rows, presented.value).None? then (t, false)
    else
      var id := presented.value.jti;
      var row := t.rows[id];
      if row.user != user || row.revokedAt.Some? then (t, false)
      else (t.(rows := t.rows[id := row.(revokedAt := Some(now))]), true)
  }

  predicate Prunable(row: Row, now: int)
  {
    var cutoff := now - RETENTION;
    row.expiresAt < cutoff && (row.revokedAt.None? || row.revokedAt.value < cutoff)
  }

  /** `replaced_by_id` is ON DELETE SET NULL. */
  function Unlinked(row: Row, left: set<nat>): Row
  {
    if row.replacedBy.Some? && row.replacedBy.value !in left then row.(replacedBy := None) else row
  }

  /** The DELETE. */
  function Pruned(t: Table, now: int): Table
  {
    var kept := map id | id in t.rows && !Prunable(t.rows[id], now) :: t.rows[id];
    t.(rows := map id | id in kept :: Unlinked(kept[id], kept.Keys))
  }

  /** The table after a prune, row by row: that description has one solution. */
  lemma PrunedRowByRow(t: Table, after: map<nat, Row>, now: int)
    requires forall id :: id in after <==> id in t.rows && !Prunable(t.rows[id], now)
    requires forall id :: id in after ==> after[id] == Unlinked(t.rows[id], after.Keys)
    ensures after == Pruned(t, now).rows
  {
    assert after.Keys == (map id | id in t.rows && !Prunable(t.rows[id], now) :: t.rows[id]).Keys;
  }

  // --- The mutable table -----------------------------------------------------

  class TokenStore {
    var rows: map<nat, Row>
    var next: nat

    function State(): Table
      reads this
    {
      Table(rows, next)
    }

    constructor ()
      ensures State() == Table(map[], 0)
    {
      rows, next := map[], 0;
    }

    method IssueTokenPair(user: nat, now: int, spent: Option<nat>) returns (pair: TokenPair)
      requires spent.Some? ==> spent.value in rows
      modifies this
      ensures (State(), pair) == Issued(old(State()), user, now, spent)
    {
      var access := Mint(user, Access, ACCESS_TTL, now, next);
      var refresh := Mint(user, Refresh, REFRESH_TTL, now, next);
      var id := next;
      rows, next := rows[id := Row(user, refresh, now + REFRESH_TTL, None, None)], next + 1;
      if spent.Some? {
        var parent := spent.value;
        rows := rows[parent := rows[parent].(revokedAt := Some(now), replacedBy := Some(id))];
      }
      pair := TokenPair(access, refresh);
    }

    method RevokeAllForUser(user: nat, now: int) returns (revoked: nat)
      modifies this`rows
      ensures rows.Keys == old(rows).Keys && LiveOf(State(), user) == {}
      ensures forall id :: id in rows && id in LiveOf(old(State()), user) ==>
        rows[id] == old(rows)[id].(revokedAt := Some(now))
      ensures forall id :: id in rows && id !in LiveOf(old(State()), user) ==> rows[id] == old(rows)[id]
      ensures revoked == |LiveOf(old(State()), user)|
    {
      var returning := set id | id in rows && rows[id].user == user && rows[id].revokedAt.None?;
      assert returning == LiveOf(State(), user);
      rows := map id | id in rows :: if id in returning then rows[id].(revokedAt := Some(now)) else rows[id];
      revoked := |returning|;
    }

    method Rotate(presented: Option<Jwt>, active: bool, now: int) returns (answer: Answer)
      modifies this
      ensures (State(), answer) == Rotated(old(State()), presented, active, now)
    {
      var problem := DecodeProblem(presented, Refresh, now);
      if problem.Some? { return Refused(problem.value); }
      var found := Lookup(rows, presented.value);
      if found.None? { return Refused(NotRecognised); }
      var row := rows[found.value];
      if row.revokedAt.Some? {
        ghost var before := State();
        var _ := RevokeAllForUser(row.user, now);
        assert rows == RevokedAll(before, row.user, now).rows;
        return Refused(SessionRevoked);
      }
      if row.expiresAt <= now { return Refused(RowExpired); }
      if !active { return Refused(AccountInactive); }
      var pair := IssueTokenPair(presented.value.sub, now, found);
      return Granted(pair);
    }

    method RevokeOne(presented: Option<Jwt>, user: nat, now: int) returns (ended: bool)
      modifies this
      ensures (State(), ended) == RevokedOne(old(State()), presented, user, now)
      ensures rows.Keys == old(rows).Keys && next == old(next)
      ensures ended <==>
        && presented.Some? && presented.value.jti in old(rows)
        && var row := old(rows)[presented.value.jti];
           row.token == presented.value && row.user == user && row.revokedAt == None
      ensures forall id :: id in rows ==>
        rows[id] == if ended && id == presented.value.jti then old(rows)[id].(revokedAt := Some(now))
                    else old(rows)[id]
    {
      if presented.None? { return false; }
      var found := Lookup(rows, presented.value);
      if found.None? { return false; }
      var row := rows[found.value];
      if row.user != user || row.revokedAt.Some? { return false; }
      rows := rows[found.value := row.(revokedAt := Some(now))];
      return true;
    }

    method PruneExpired(now: int) returns (deleted: nat)
      modifies this`rows
      ensures forall id :: id in rows <==>
        && id in old(rows)
        && var row, cutoff := old(rows)[id], now - 30 * 86_400_000_000;
           row.expiresAt >= cutoff || (row.revokedAt.Some? && row.revokedAt.value >= cutoff)
      ensures forall id :: id in rows ==> rows[id] == Unlinked(old(rows)[id], rows.Keys)
      ensures deleted == |old(rows).Keys - rows.Keys|
    {
      var kept := map id | id in rows && !Prunable(rows[id], now) :: rows[id];
      deleted := |rows.Keys - kept.Keys|;
      rows := map id | id in kept :: Unlinked(kept[id], kept.Keys);
      assert rows.Keys == kept.Keys;
    }
  }

  // --- Runs ------------------------------------------------------------------

  datatype Event =
    | SignIn(user: nat, now: int)
    | Redeem(presented: Option<Jwt>, active: bool, now: int)
    | LogoutAll(user: nat, now: int)
    | Logout(presented: Option<Jwt>, user: nat, now: int)
    | PruneJob(now: int)

  function Step(t: Table, e: Event): Table
  {
    match e
    case SignIn(user, now) => Issued(t, user, now, None).0
    case Redeem(presented, active, now) => Rotated(t, presented, active, now).0
    case LogoutAll(user, now) => RevokedAll(t, user, now)
    case Logout(presented, user, now) => RevokedOne(t, presented, user, now).0
    case PruneJob(now) => Pruned(t, now)
  }

  function Run(t: Table, events: seq<Event>): Table
    decreases events
  {
    if events == [] then t else Run(Step(t, events[0]), events[1..])
  }

  /** The clock never runs backwards over a run that begins at `from`. */
  predicate Clocked(events: seq<Event>, from: int)
  {
    events == [] || (from <= events[0].now && Clocked(events[1..], events[0].now))
  }

  function LastTime(events: seq<Event>, from: int): int
  {
    if events == [] then from else LastTime(events[1..], events[0].now)
  }

  const EMPTY := Table(map[], 0)
}
