/**
 Refresh tokens under requests that overlap: `rotate` reads its row without a lock,
 and issues and links the successor in a later write (app/services/token_service.py).
 A world moves by single steps; everything that is not a redemption is one step.
 */
module TokenOverlap {
  import opened Options
  import opened TokenService

  datatype Phase =
    | Cleared(jwt: Jwt, read: nat)       // row found, not revoked, not expired, account active
    | Reused(user: nat)                  // row found revoked: every session of the user is to go
    | Finished(answer: Answer)

  /** History: a token redeemed, read at one step and written at another. */
  datatype Grant = Grant(jwt: Jwt, read: nat, done: nat)

  /** History: every session of a user ended, and how many ids there were. */
  datatype Ending = Ending(user: nat, before: nat, step: nat)

  datatype World = World(now: int, step: nat, table: Table, requests: map<nat, Phase>, grants: seq<Grant>,
                         endings: seq<Ending>)

  datatype Action =
    | Tick(elapsed: nat)
    | Look(req: nat, presented: Option<Jwt>, active: bool)
    | Write(req: nat)
    | Login(user: nat)
    | EndAll(user: nat)
    | EndOne(presented: Option<Jwt>, user: nat)
    | Prune

  predicate Enabled(w: World, a: Action)
  {
    match a
    case Look(req, _, _) => req !in w.requests
    case Write(req) => req in w.requests && !w.requests[req].Finished?
    case _ => true
  }

  function Put(w: World, req: nat, p: Phase): World { w.(requests := w.requests[req := p]) }

  function Looked(w: World, presented: Option<Jwt>, active: bool): Phase
  {
    var answer := Rotated(w.table, presented, active, w.now).1;
    match answer
    case Granted(_) => Cleared(presented.value, w.step)
    case Refused(reason) =>
      if reason.SessionRevoked? then Reused(w.table.rows[presented.value.jti].user) else Finished(answer)
  }

  function EndedBy(w: World, user: nat): World
  {
    w.(table := RevokedAll(w.table, user, w.now), endings := w.endings + [Ending(user, w.table.next, w.step)])
  }

  /** The write happens whatever has become of the row meanwhile, unless it is gone. */
  function WrittenBy(w: World, req: nat, p: Phase): World
  {
    match p
    case Cleared(jwt, read) =>
      if jwt.jti !in w.table.rows then Put(w, req, Finished(Refused(NotRecognised)))
      else
        var (table, pair) := Issued(w.table, jwt.sub, w.now, Some(jwt.jti));
        Put(w, req, Finished(Granted(pair))).(table := table, grants := w.grants + [Grant(jwt, read, w.step)])
    case Reused(user) => Put(EndedBy(w, user), req, Finished(Refused(SessionRevoked)))
    case Finished(_) => w
  }

  function Act(w: World, a: Action): World
    requires Enabled(w, a)
  {
    match a
    case Tick(elapsed) => w.(now := w.now + elapsed)
    case Look(req, presented, active) => Put(w, req, Looked(w, presented, active))
    case Write(req) => WrittenBy(w, req, w.requests[req])
    case Login(user) => w.(table := Issued(w.table, user, w.now, None).0)
    case EndAll(user) => EndedBy(w, user)
    case EndOne(presented, user) => w.(table := RevokedOne(w.table, presented, user, w.now).0)
    case Prune => w.(table := Pruned(w.table, w.now))
  }

  function Next(w: World, a: Action): World
  {
    (if Enabled(w, a) then Act(w, a) else w).(step := w.step + 1)
  }

  function Play(w: World, actions: seq<Action>): World
    decreases actions
  {
    if actions == [] then w else Play(Next(w, actions[0]), actions[1..])
  }

  predicate Fresh(w: World)
  {
    w.table == EMPTY && w.requests == map[] && w.grants == [] && w.endings == []
  }

  // --- The invariant ---------------------------------------------------------------------

  predicate RowInv(t: Table, id: nat)
    requires id in t.rows
  {
    id < t.next && t.rows[id].token.jti == id && t.rows[id].token.sub == t.rows[id].user
  }

  /** The row can no longer be read as live. */
  predicate Over(t: Table, id: nat)
  {
    id < t.next && (id in t.rows ==> t.rows[id].revokedAt.Some?)
  }

  predicate EndingInv(t: Table, e: Ending)
  {
    e.before <= t.next && forall id :: id in t.rows && id < e.before && t.rows[id].user == e.user ==>
      t.rows[id].revokedAt.Some?
  }

  /** Whoever read a row as live read it before any grant of it, and before any end
      of its user's sessions that it preceded. */
  ghost predicate ReadFirst(w: World, jwt: Jwt, read: nat)
  {
    && (forall g :: g in w.grants && g.jwt.jti == jwt.jti ==> read < g.done)
    && (forall e :: e in w.endings && e.user == jwt.sub && jwt.jti < e.before ==> read < e.step)
  }

  ghost predicate TableInv(w: World)
  {
    && (forall id :: id in w.table.rows ==> RowInv(w.table, id))
    && (forall g :: g in w.grants ==> Over(w.table, g.jwt.jti) && g.done < w.step)
    && (forall e :: e in w.endings ==> EndingInv(w.table, e) && e.step < w.step)
  }

  ghost predicate ReadersInv(w: World)
  {
    forall q :: q in w.requests && w.requests[q].Cleared? ==>
      && ReadFirst(w, w.requests[q].jwt, w.requests[q].read)
      && w.requests[q].jwt.jti < w.table.next && w.requests[q].read < w.step
      && (w.requests[q].jwt.jti in w.table.rows ==> w.table.rows[w.requests[q].jwt.jti].user == w.requests[q].jwt.sub)
  }

  /** Two grants of one token overlapped, and a grant after the end of its user's
      sessions overlapped that end. */
  ghost predicate LogInv(w: World)
  {
    && (forall i, j | 0 <= i < j < |w.grants| && w.grants[i].jwt.jti == w.grants[j].jwt.jti ::
        w.grants[j].read < w.grants[i].done)
    && (forall g, e
          | g in w.grants && e in w.endings && e.user == g.jwt.sub && g.jwt.jti < e.before && e.step < g.done ::
          g.read < e.step)
  }

  /** Rows are only added, revoked or deleted. */
  predicate Ages(t: Table, after: Table)
  {
    && t.next <= after.next
    && (forall id :: id in after.rows && id < t.next ==>
          && id in t.rows && after.rows[id].user == t.rows[id].user && after.rows[id].token == t.rows[id].token
          && (t.rows[id].revokedAt.Some? ==> after.rows[id].revokedAt.Some?))
    && (forall id :: id in after.rows && id >= t.next ==> RowInv(after, id))
  }

  lemma AgesKeepsTable(w: World, after: World)
    requires TableInv(w) && Ages(w.table, after.table) && after.step == w.step + 1
    requires after.grants == w.grants && after.endings == w.endings
    ensures TableInv(after)
  {
    forall id | id in after.table.rows
      ensures RowInv(after.table, id)
    {
      if id < w.table.next { assert RowInv(w.table, id); }
    }
    forall e | e in after.endings
      ensures EndingInv(after.table, e)
    {
      assert EndingInv(w.table, e);
    }
  }

  lemma StepAges(w: World, a: Action)
    requires TableInv(w) && ReadersInv(w)
    ensures Ages(w.table, Next(w, a).table)
  {
    forall id | id in w.table.rows
      ensures id < w.table.next
    {
      assert RowInv(w.table, id);
    }
  }

  predicate Grants(w: World, a: Action)
  {
    a.Write? && Enabled(w, a) && w.requests[a.req].Cleared? && w.requests[a.req].jwt.jti in w.table.rows
  }

  predicate Ends(w: World, a: Action)
  {
    a.EndAll? || (a.Write? && Enabled(w, a) && w.requests[a.req].Reused?)
  }

  /** What the step adds to the history. */
  lemma StepLogs(w: World, a: Action)
    ensures Next(w, a).step == w.step + 1
    ensures Grants(w, a) ==>
      Next(w, a).grants == w.grants + [Grant(w.requests[a.req].jwt, w.requests[a.req].read, w.step)]
      && Next(w, a).endings == w.endings
    ensures Ends(w, a) ==>
      var user := if a.EndAll? then a.user else w.requests[a.req].user;
      && Next(w, a).endings == w.endings + [Ending(user, w.table.next, w.step)] && Next(w, a).grants == w.grants
      && Next(w, a).table == RevokedAll(w.table, user, w.now)
    ensures !Grants(w, a) && !Ends(w, a) ==> Next(w, a).grants == w.grants && Next(w, a).endings == w.endings
  {
  }

  lemma NextKeepsTable(w: World, a: Action)
    requires TableInv(w) && ReadersInv(w)
    ensures TableInv(Next(w, a))
  {
    var after := Next(w, a);
    StepAges(w, a);
    StepLogs(w, a);
    AgesKeepsTable(w, after.(grants := w.grants, endings := w.endings));
    if Grants(w, a) {
      assert Over(after.table, w.requests[a.req].jwt.jti) by { assert RowInv(w.table, w.requests[a.req].jwt.jti); }
    } else if Ends(w, a) {
      assert EndingInv(after.table, after.endings[|w.endings|]);
    }
  }

  /** A request that has read had read before, or has just read a live row. */
  predicate ReadBefore(w: World, q: nat, jwt: Jwt, read: nat)
  {
    || (q in w.requests && w.requests[q] == Cleared(jwt, read))
    || (read == w.step && jwt.jti in w.table.rows && w.table.rows[jwt.jti].token == jwt
       && w.table.rows[jwt.jti].revokedAt.None?)
  }

  lemma StepReads(w: World, a: Action)
    ensures forall q :: q in Next(w, a).requests && Next(w, a).requests[q].Cleared? ==>
      ReadBefore(w, q, Next(w, a).requests[q].jwt, Next(w, a).requests[q].read)
  {
  }

  /** A live row has not been granted, nor ended. */
  lemma LiveReadsFirst(w: World, jwt: Jwt)
    requires TableInv(w) && jwt.jti in w.table.rows && w.table.rows[jwt.jti].token == jwt
    requires w.table.rows[jwt.jti].revokedAt.None?
    ensures ReadFirst(w, jwt, w.step) && jwt.jti < w.table.next && w.table.rows[jwt.jti].user == jwt.sub
  {
    assert RowInv(w.table, jwt.jti);
    forall g | g in w.grants
      ensures g.jwt.jti != jwt.jti
    {
      assert Over(w.table, g.jwt.jti);
    }
    forall e | e in w.endings && e.user == jwt.sub
      ensures e.before <= jwt.jti
    {
      assert EndingInv(w.table, e);
    }
  }

  lemma NextKeepsReaders(w: World, a: Action)
    requires TableInv(w) && ReadersInv(w)
    ensures ReadersInv(Next(w, a))
  {
    var after := Next(w, a);
    StepAges(w, a);
    StepLogs(w, a);
    StepReads(w, a);
    forall q | q in after.requests && after.requests[q].Cleared?
      ensures ReadFirst(after, after.requests[q].jwt, after.requests[q].read)
      ensures after.requests[q].jwt.jti < after.table.next && after.requests[q].read < after.step
      ensures after.requests[q].jwt.jti in after.table.rows ==>
        after.table.rows[after.requests[q].jwt.jti].user == after.requests[q].jwt.sub
    {
      var jwt, read := after.requests[q].jwt, after.requests[q].read;
      assert ReadBefore(w, q, jwt, read);
      if !(q in w.requests && w.requests[q] == Cleared(jwt, read)) {
        LiveReadsFirst(w, jwt);
        assert a.Look?;
      }
    }
  }

  lemma NextKeepsLog(w: World, a: Action)
    requires TableInv(w) && ReadersInv(w) && LogInv(w)
    ensures LogInv(Next(w, a))
  {
    StepLogs(w, a);
    var after := Next(w, a);
    if Grants(w, a) {
      assert ReadFirst(w, w.requests[a.req].jwt, w.requests[a.req].read);
    }
    forall g, e
      | g in after.grants && e in after.endings && e.user == g.jwt.sub && g.jwt.jti < e.before && e.step < g.done
      ensures g.read < e.step
    {
    }
  }

  ghost predicate Inv(w: World) { TableInv(w) && ReadersInv(w) && LogInv(w) }

  lemma {:induction false} PlayKeepsInv(w: World, actions: seq<Action>)
    requires Inv(w)
    ensures Inv(Play(w, actions))
    decreases actions
  {
    if actions != [] {
      NextKeepsTable(w, actions[0]);
      NextKeepsReaders(w, actions[0]);
      NextKeepsLog(w, actions[0]);
      PlayKeepsInv(Next(w, actions[0]), actions[1..]);
    }
  }

  // --- What a run can show ------------------------------------------------------------------

  /** Over any run, a token is redeemed twice only by requests that overlap: the later
      one read the row before the earlier one wrote it. */
  lemma RedeemedTwiceOnlyByOverlap(w: World, actions: seq<Action>, i: nat, j: nat)
    requires Fresh(w) && i < j < |Play(w, actions).grants|
    requires Play(w, actions).grants[i].jwt == Play(w, actions).grants[j].jwt
    ensures Play(w, actions).grants[j].read < Play(w, actions).grants[i].done
  {
    PlayKeepsInv(w, actions);
  }

  /** And a token held before its user's sessions were ended is redeemed after it only
      by a request that had read it before. */
  lemma RedeemedAfterEndOnlyByOverlap(w: World, actions: seq<Action>, i: nat, j: nat)
    requires Fresh(w) && i < |Play(w, actions).grants| && j < |Play(w, actions).endings|
    requires
      var g, e := Play(w, actions).grants[i], Play(w, actions).endings[j];
      e.user == g.jwt.sub && g.jwt.jti < e.before && e.step < g.done
    ensures Play(w, actions).grants[i].read < Play(w, actions).endings[j].step
  {
    PlayKeepsInv(w, actions);
    var g, e := Play(w, actions).grants[i], Play(w, actions).endings[j];
    assert g in Play(w, actions).grants && e in Play(w, actions).endings;
  }

  /** Both happen: from any state in which two requests have read one token as live,
      both redeem it; and so does one of them after a logout everywhere. */
  lemma OverlapRedeemsTwice(w: World, a: nat, b: nat)
    requires a in w.requests && b in w.requests && a != b && w.requests[a].Cleared? && w.requests[b].Cleared?
    requires w.requests[a].jwt == w.requests[b].jwt && w.requests[a].jwt.jti in w.table.rows
    requires w.requests[a].jwt.jti < w.table.next
    ensures
      var jwt := w.requests[a].jwt;
      var twice := Next(Next(w, Write(a)), Write(b));
      var late := Next(Next(w, EndAll(jwt.sub)), Write(a));
      && |twice.grants| == |w.grants| + 2 && twice.grants[|w.grants|].jwt == jwt == twice.grants[|w.grants| + 1].jwt
      && |late.grants| == |w.grants| + 1 && late.grants[|w.grants|].jwt == jwt
      && |LiveOf(late.table, jwt.sub)| > 0
  {
    var late := Next(Next(w, EndAll(w.requests[a].jwt.sub)), Write(a));
    assert w.table.next in LiveOf(late.table, w.requests[a].jwt.sub);
  }

  /** So whenever a token could be redeemed, two requests at once both redeem it, and a
      logout everywhere between one request's read and its write leaves the user with a
      live session. */
  lemma AnyTokenCanBeOverlapped(w: World, a: nat, b: nat, jwt: Jwt)
    requires a !in w.requests && b !in w.requests && a != b && jwt.jti < w.table.next
    requires Rotated(w.table, Some(jwt), true, w.now).1.Granted?
    ensures
      var both := Next(Next(w, Look(a, Some(jwt), true)), Look(b, Some(jwt), true));
      var twice := Next(Next(both, Write(a)), Write(b));
      var late := Next(Next(both, EndAll(jwt.sub)), Write(a));
      && |twice.grants| == |w.grants| + 2 && twice.grants[|w.grants|].jwt == jwt == twice.grants[|w.grants| + 1].jwt
      && |late.grants| == |w.grants| + 1 && late.grants[|w.grants|].jwt == jwt
      && |LiveOf(late.table, jwt.sub)| > 0
  {
    var both := Next(Next(w, Look(a, Some(jwt), true)), Look(b, Some(jwt), true));
    assert both.requests[a] == Cleared(jwt, w.step) && both.requests[b] == Cleared(jwt, w.step + 1);
    assert both.table == w.table && both.grants == w.grants;
    OverlapRedeemsTwice(both, a, b);
  }

  /** A redemption with nothing between its steps is what `Rotated` says. */
  lemma AloneIsRotated(w: World, req: nat, presented: Option<Jwt>, active: bool)
    requires req !in w.requests
    ensures
      var end := Next(Next(w, Look(req, presented, active)), Write(req));
      var (table, answer) := Rotated(w.table, presented, active, w.now);
      end.table == table && req in end.requests && end.requests[req] == Finished(answer)
  {
  }
}
