/**
 The admin console's session across browser tabs: requests that meet a 401,
 the Web Lock that serialises refreshes, the storage the tabs share, and the
 server's token table (admin-web/src/lib/api.ts, admin-web/src/lib/session.ts).

 A world moves by single steps, so any interleaving of any number of tabs and
 requests is a sequence of actions; an action that is not enabled does nothing.
 */
module AdminSession {
  import opened Options
  import opened TokenService
  import opened TokenChains
  import opened SessionStore

  /** Where one call of `request` stands. */
  datatype Phase =
    | Sent(token: Option<Jwt>)                    // first send in flight
    | Waiting(stale: Jwt)                         // 401; queued on the lock
    | Holding(stale: Jwt)                         // lock granted, nothing read yet
    | Presenting(stale: Jwt, session: Session)    // reloaded, compared, POST /auth/refresh going out
    | Answered(stale: Jwt, session: Session, answer: Answer)  // the server has acted
    | Settled(stale: Jwt, ok: bool)               // the callback finished; lock not yet released
    | Refreshed(stale: Jwt)                       // refreshSession returned
    | Clearing                                    // refreshSession threw; clearSession next
    | Resent(token: Option<Jwt>)                  // second send in flight
    | Done

  datatype Request = Request(tab: nat, phase: Phase)

  datatype World = World(
    user: nat,
    now: int,
    server: Table,
    local: Option<Session>,               // localStorage, shared by the tabs
    tabStore: map<nat, Session>,          // sessionStorage, one entry per tab that has one
    current: map<nat, Option<Session>>,   // each open tab's module variable
    requests: map<nat, Request>,
    lock: Option<nat>,
    // History, read by no step of the browser: the newest pair this browser was granted, the
    // refresh tokens it was ever granted, the stale access tokens that caused a
    // rotation, and whether the server ever saw reuse from this browser.
    tip: Session,
    family: set<nat>,
    rotations: seq<Jwt>,
    reuseSeen: bool,
    // The pair that was presented in a refresh whose answer was lost.
    orphan: Option<Session>)

  // --- session.ts -------------------------------------------------------------

  function Seen(w: World, tab: nat): View
  {
    View(w.local,
         if tab in w.tabStore then Some(w.tabStore[tab]) else None,
         if tab in w.current then w.current[tab] else None)
  }

  function Put(w: World, tab: nat, v: View): World
  {
    w.(local := v.local,
       tabStore := if v.own.Some? then w.tabStore[tab := v.own.value] else w.tabStore - {tab},
       current := w.current[tab := v.current])
  }

  function Reload(w: World, tab: nat): World { Put(w, tab, Reloaded(Seen(w, tab))) }

  /** The save of a refresh, which never names a store. */
  function Save(w: World, tab: nat, session: Session): World { Put(w, tab, SavedIn(Seen(w, tab), session, None)) }

  function Clear(w: World, tab: nat): World { Put(w, tab, Cleared(Seen(w, tab))) }

  function AccessOf(session: Option<Session>): Option<Jwt>
  {
    if session.Some? then Some(session.value.access) else None
  }

  // --- api.ts, step by step ----------------------------------------------------

  datatype Action =
    | OpenTab(tab: nat)
    | StorageEvent(tab: nat)
    | CloseTab(tab: nat)            // its requests go with it, and an answer on its way to one is lost
    | Start(req: nat, tab: nat)
    | Respond(req: nat, unauthorised: bool)
    | Grab(req: nat)
    | ReloadAndCompare(req: nat)
    | Serve(req: nat, active: bool)
    | Lose(req: nat)                // the refresh request never reached the server
    | Receive(req: nat)
    | LoseAnswer(req: nat)          // the server has acted; its answer does not come back
    | Release(req: nat)
    | Resend(req: nat)
    | ClearAfterFailure(req: nat)
    | Finish(req: nat)
    | Tick(elapsed: nat)
    | Elsewhere(e: Event)           // another client, or the pruner

  function PhaseOf(w: World, req: nat): Phase
    requires req in w.requests
  {
    w.requests[req].phase
  }

  /** What other clients may do while no one signs this user out and no one else
      holds this browser's tokens. */
  predicate Foreign(w: World, e: Event)
  {
    e.now == w.now &&
    match e
    case SignIn(_, _) => true
    case PruneJob(_) => true
    case LogoutAll(user, _) => user != w.user
    case Logout(_, user, _) => user != w.user
    case Redeem(presented, active, now) =>
      presented.Some? ==>
        || presented.value.sub != w.user
        || (presented.value.jti !in w.family && Rotated(w.server, presented, active, now).1 != Refused(SessionRevoked))
  }

  predicate Enabled(w: World, a: Action)
  {
    match a
    case OpenTab(tab) => tab !in w.current && tab !in w.tabStore
    case StorageEvent(tab) => tab in w.current
    case CloseTab(tab) => tab in w.current
    case Start(req, tab) => req !in w.requests && tab in w.current
    case Respond(req, _) => req in w.requests && PhaseOf(w, req).Sent?
    case Grab(req) => req in w.requests && PhaseOf(w, req).Waiting? && w.lock.None?
    case ReloadAndCompare(req) => req in w.requests && PhaseOf(w, req).Holding?
    case Serve(req, _) => req in w.requests && PhaseOf(w, req).Presenting?
    case Lose(req) => req in w.requests && PhaseOf(w, req).Presenting?
    case Receive(req) => req in w.requests && PhaseOf(w, req).Answered?
    case LoseAnswer(req) => req in w.requests && PhaseOf(w, req).Answered?
    case Release(req) => req in w.requests && PhaseOf(w, req).Settled?
    case Resend(req) => req in w.requests && PhaseOf(w, req).Refreshed?
    case ClearAfterFailure(req) => req in w.requests && PhaseOf(w, req).Clearing?
    case Finish(req) => req in w.requests && PhaseOf(w, req).Resent?
    case Tick(_) => true
    case Elsewhere(e) => Foreign(w, e)
  }

  function Goto(w: World, req: nat, phase: Phase): World
    requires req in w.requests
  {
    w.(requests := w.requests[req := w.requests[req].(phase := phase)])
  }

  function ReloadStep(w: World, req: nat): World
    requires req in w.requests && PhaseOf(w, req).Holding?
  {
    var stale := PhaseOf(w, req).stale;
    var session := ReadView(Seen(w, w.requests[req].tab));
    var w' := Reload(w, w.requests[req].tab);
    if session.None? then Goto(w', req, Settled(stale, false))
    else if session.value.access != stale then Goto(w', req, Settled(stale, true))
    else Goto(w', req, Presenting(stale, session.value))
  }

  function ServeStep(w: World, req: nat, active: bool): World
    requires req in w.requests && PhaseOf(w, req).Presenting?
  {
    var p := PhaseOf(w, req);
    var (server, answer) := Rotated(w.server, Some(p.session.refresh), active, w.now);
    var w' := Goto(w, req, Answered(p.stale, p.session, answer)).(
      server := server,
      reuseSeen := w.reuseSeen || answer == Refused(SessionRevoked));
    if answer.Granted? then
      w'.(tip := Session(answer.pair.access, answer.pair.refresh),
          family := w.family + {answer.pair.refresh.jti},
          rotations := w.rotations + [p.stale])
    else w'
  }

  function ReceiveStep(w: World, req: nat): World
    requires req in w.requests && PhaseOf(w, req).Answered?
  {
    var p := PhaseOf(w, req);
    match p.answer
    case Granted(pair) =>
      Goto(Save(w, w.requests[req].tab, Session(pair.access, pair.refresh)), req, Settled(p.stale, true))
    case Refused(_) => Goto(w, req, Settled(p.stale, false))
  }

  /** A lock goes with the tab that holds it, and so does its sessionStorage. */
  function Closed(w: World, tab: nat): World
  {
    w.(requests := map req | req in w.requests && w.requests[req].tab != tab :: w.requests[req],
       lock :=
         if w.lock.Some? && w.lock.value in w.requests && w.requests[w.lock.value].tab == tab then None
         else w.lock,
       current := w.current - {tab}, tabStore := w.tabStore - {tab},
       orphan :=
         if Pending(w) && w.requests[w.lock.value].tab == tab then Some(PhaseOf(w, w.lock.value).session)
         else w.orphan)
  }

  /** The callback fails; what it presented has been rotated away for nothing if the
      server granted it. */
  function LoseStep(w: World, req: nat): World
    requires req in w.requests && PhaseOf(w, req).Answered?
  {
    var p := PhaseOf(w, req);
    var w' := Goto(w, req, Settled(p.stale, false));
    if p.answer.Granted? then w'.(orphan := Some(p.session)) else w'
  }

  function Act(w: World, a: Action): World
    requires Enabled(w, a)
  {
    match a
    case OpenTab(tab) => Reload(w, tab)
    case StorageEvent(tab) => Reload(w, tab)
    case CloseTab(tab) => Closed(w, tab)
    case Start(req, tab) => w.(requests := w.requests[req := Request(tab, Sent(AccessOf(w.current[tab])))])
    case Respond(req, unauthorised) =>
      var token := PhaseOf(w, req).token;
      Goto(w, req, if unauthorised && token.Some? then Waiting(token.value) else Done)
    case Grab(req) => Goto(w, req, Holding(PhaseOf(w, req).stale)).(lock := Some(req))
    case ReloadAndCompare(req) => ReloadStep(w, req)
    case Serve(req, active) => ServeStep(w, req, active)
    case Lose(req) => Goto(w, req, Settled(PhaseOf(w, req).stale, false))
    case Receive(req) => ReceiveStep(w, req)
    case LoseAnswer(req) => LoseStep(w, req)
    case Release(req) =>
      var p := PhaseOf(w, req);
      Goto(w, req, if p.ok then Refreshed(p.stale) else Clearing).(lock := None)
    case Resend(req) =>
      var tab := w.requests[req].tab;
      Goto(w, req, Resent(if tab in w.current then AccessOf(w.current[tab]) else None))
    case ClearAfterFailure(req) => Goto(Clear(w, w.requests[req].tab), req, Done)
    case Finish(req) => Goto(w, req, Done)
    case Tick(elapsed) => w.(now := w.now + elapsed)
    case Elsewhere(e) => w.(server := TokenService.Step(w.server, e))
  }

  function Next(w: World, a: Action): World
  {
    if Enabled(w, a) then Act(w, a) else w
  }

  function Play(w: World, actions: seq<Action>): World
    decreases actions
  {
    if actions == [] then w else Play(Next(w, actions[0]), actions[1..])
  }

  /** Signed in once, remembered or not; any tabs open; nothing under way. */
  ghost predicate Start0(w: World)
  {
    && Valid(w.server, w.now)
    && w.tip.refresh.jti in w.server.rows
    && w.server.rows[w.tip.refresh.jti].token == w.tip.refresh
    && w.server.rows[w.tip.refresh.jti].revokedAt.None?
    && w.tip.refresh.sub == w.user && w.tip.access.jti < w.server.next
    && w.family == {w.tip.refresh.jti}
    && w.requests == map[] && w.lock.None? && w.rotations == [] && !w.reuseSeen && w.orphan.None?
    && (|| (w.local == Some(w.tip) && w.tabStore == map[])
        || (w.local == None && exists tab :: w.tabStore == map[tab := w.tip]))
    && (forall tab :: tab in w.current ==> w.current[tab] in {None, Some(w.tip)})
  }

  // --- The invariant -------------------------------------------------------------

  predicate HoldsLock(p: Phase)
  {
    p.Holding? || p.Presenting? || p.Answered? || p.Settled?
  }

  ghost predicate LockInv(w: World)
  {
    && (w.lock.Some? ==> w.lock.value in w.requests)
    && (forall req :: req in w.requests ==> (HoldsLock(PhaseOf(w, req)) <==> w.lock == Some(req)))
  }

  /** At most one store holds the session. */
  ghost predicate OnePlace(w: World)
  {
    && (w.local.Some? ==> w.tabStore == map[])
    && (forall a, b :: a in w.tabStore && b in w.tabStore ==> a == b)
  }

  predicate Pending(w: World)
  {
    w.lock.Some? && w.lock.value in w.requests
    && PhaseOf(w, w.lock.value).Answered? && PhaseOf(w, w.lock.value).answer.Granted?
  }

  ghost predicate OnlyStored(w: World, session: Session)
  {
    (w.local.Some? ==> w.local.value == session) && forall tab :: tab in w.tabStore ==> w.tabStore[tab] == session
  }

  /** What is stored is the newest pair; while the lock's holder has yet to save the
      newest, it is the one that was presented. */
  ghost predicate StoredInv(w: World)
  {
    OnlyStored(w, if Pending(w) then PhaseOf(w, w.lock.value).session else w.tip)
  }

  /** The server knows this token only as revoked, if at all. */
  predicate Spent(t: Table, jwt: Jwt)
  {
    jwt.jti < t.next && (Lookup(t.rows, jwt).Some? ==> t.rows[jwt.jti].revokedAt.Some?)
  }

  /** While a refresh is under way, only the holder's own tab can have an entry. */
  ghost predicate HolderInv(w: World)
  {
    forall req, tab | req in w.requests && tab in w.tabStore ::
      PhaseOf(w, req).Presenting? || PhaseOf(w, req).Answered? ==> tab == w.requests[req].tab
  }

  /** The newest refresh token is this user's and not revoked. */
  ghost predicate TipInv(w: World)
  {
    && Valid(w.server, w.now)
    && w.tip.refresh.jti in w.family
    && w.tip.refresh.jti < w.server.next && w.tip.refresh.sub == w.user
    && (Lookup(w.server.rows, w.tip.refresh).Some? ==> w.server.rows[w.tip.refresh.jti].revokedAt.None?)
    && !w.reuseSeen
  }

  /** An access token in circulation is the newest, or has been rotated away. */
  predicate Circulates(w: World, access: Jwt)
  {
    access == w.tip.access || access in w.rotations
  }

  ghost predicate CirculationInv(w: World)
  {
    && (w.local.Some? ==> Circulates(w, w.local.value.access))
    && (forall tab :: tab in w.tabStore ==> Circulates(w, w.tabStore[tab].access))
    && (forall tab :: tab in w.current && w.current[tab].Some? ==> Circulates(w, w.current[tab].value.access))
    && (forall req :: req in w.requests ==> PhaseInv(w, PhaseOf(w, req)))
  }

  ghost predicate PhaseInv(w: World, p: Phase)
  {
    match p
    case Sent(token) => token.Some? ==> Circulates(w, token.value)
    case Waiting(stale) => Circulates(w, stale)
    case Holding(stale) => Circulates(w, stale)
    case Presenting(stale, session) => session == w.tip && session.access == stale
    case Answered(stale, session, answer) =>
      match answer {
        case Granted(pair) =>
          && w.tip == Session(pair.access, pair.refresh) && stale in w.rotations
          && Spent(w.server, session.refresh) && session.refresh.kind == Refresh
        case Refused(reason) => reason != SessionRevoked && session == w.tip
      }
    case Settled(stale, ok) => ok ==> stale in w.rotations
    case Refreshed(stale) => stale in w.rotations
    case _ => true
  }

  ghost predicate RotationsInv(w: World)
  {
    && (forall i, j :: 0 <= i < j < |w.rotations| ==> w.rotations[i] != w.rotations[j])
    && (forall access :: access in w.rotations ==> access.jti < w.server.next)
    && w.tip.access.jti < w.server.next
    && w.tip.access !in w.rotations
  }

  ghost predicate Inv(w: World)
  {
    LockInv(w) && OnePlace(w) && StoredInv(w) && HolderInv(w) && TipInv(w) && CirculationInv(w) && RotationsInv(w)
  }

  lemma StartHasInv(w: World)
    requires Start0(w)
    ensures Inv(w)
  {
    assert RowValid(w.server, w.tip.refresh.jti, w.now);
  }

  // --- Every step keeps it ----------------------------------------------------------

  /** A tab re-reads storage. */
  lemma RereadKeepsInv(w: World, tab: nat)
    requires Inv(w)
    ensures Inv(Reload(w, tab))
  {
    var w' := Reload(w, tab);
    assert CirculationInv(w') by {
      forall req | req in w'.requests ensures PhaseInv(w', PhaseOf(w', req)) { assert PhaseInv(w, PhaseOf(w, req)); }
    }
  }

  /** A request moves to a phase that is not the server's answer, taking or
      giving back the lock as the phase requires. */
  lemma MoveKeepsInv(w: World, req: nat, target: Request, lock: Option<nat>)
    requires Inv(w)
    requires req in w.requests ==> PhaseOf(w, req).Answered? ==> PhaseOf(w, req).answer.Refused?
    requires PhaseInv(w, target.phase) && !target.phase.Answered?
    requires target.phase.Presenting? ==> forall tab :: tab in w.tabStore ==> tab == target.tab
    requires HoldsLock(target.phase) <==> lock == Some(req)
    requires lock == w.lock || (w.lock == None && lock == Some(req)) || (w.lock == Some(req) && lock == None)
    ensures Inv(w.(requests := w.requests[req := target], lock := lock))
  {
    var w' := w.(requests := w.requests[req := target], lock := lock);
    assert LockInv(w') by {
      forall r | r in w'.requests ensures HoldsLock(PhaseOf(w', r)) <==> w'.lock == Some(r) {
        if r != req { assert HoldsLock(PhaseOf(w, r)) <==> w.lock == Some(r); }
      }
    }
    assert Pending(w') == Pending(w);
    assert CirculationInv(w') by {
      forall r | r in w'.requests ensures PhaseInv(w', PhaseOf(w', r)) {
        if r != req { assert PhaseInv(w, PhaseOf(w, r)); }
      }
    }
  }

  lemma ReloadKeepsInv(w: World, req: nat)
    requires Inv(w) && req in w.requests && PhaseOf(w, req).Holding?
    ensures Inv(ReloadStep(w, req))
  {
    var tab, stale := w.requests[req].tab, PhaseOf(w, req).stale;
    assert PhaseInv(w, PhaseOf(w, req));
    assert w.lock == Some(req);
    RereadKeepsInv(w, tab);
    MoveKeepsInv(Reload(w, tab), req, Request(tab, PhaseOf(ReloadStep(w, req), req)), w.lock);
  }

  /** A live or absent token is never taken for a reused one: either nothing
      changes, or a fresh pair is granted. */
  lemma LiveTokenIsNotReuse(t: Table, jwt: Jwt, active: bool, now: int)
    requires Valid(t, now)
    requires Lookup(t.rows, jwt).Some? ==> t.rows[jwt.jti].revokedAt.None?
    ensures
      var (t', answer) := Rotated(t, Some(jwt), active, now);
      && Valid(t', now)
      && answer != Refused(SessionRevoked)
      && (answer.Refused? ==> t' == t)
      && (answer.Granted? ==>
            && t'.next == t.next + 1
            && answer.pair.access.jti == t.next == answer.pair.refresh.jti
            && answer.pair.refresh.sub == jwt.sub
            && t.next in t'.rows && t'.rows[t.next].revokedAt.None?
            && jwt.kind == Refresh && (jwt.jti < t.next ==> Spent(t', jwt)))
  {
    StepKeepsValid(t, Redeem(Some(jwt), active, now), now);
  }

  lemma ServeKeepsCirculation(w: World, req: nat, active: bool)
    requires Inv(w) && req in w.requests && PhaseOf(w, req).Presenting?
    ensures CirculationInv(ServeStep(w, req, active)) && RotationsInv(ServeStep(w, req, active))
  {
    var p := PhaseOf(w, req);
    var w' := ServeStep(w, req, active);
    assert PhaseInv(w, p);
    LiveTokenIsNotReuse(w.server, w.tip.refresh, active, w.now);
    assert forall access :: Circulates(w, access) ==> Circulates(w', access);
    forall r | r in w'.requests && r != req
      ensures PhaseInv(w', PhaseOf(w', r))
    {
      NoOtherHolds(w, req, r);
      assert PhaseInv(w, PhaseOf(w, r));
    }
    assert PhaseInv(w', PhaseOf(w', req));
  }

  lemma NoOtherHolds(w: World, req: nat, other: nat)
    requires LockInv(w) && req in w.requests && HoldsLock(PhaseOf(w, req)) && other in w.requests && other != req
    ensures w.lock == Some(req) && !HoldsLock(PhaseOf(w, other))
  {
  }

  /** What the holder presents is the newest token, so the server never sees reuse. */
  lemma ServeKeepsInv(w: World, req: nat, active: bool)
    requires Inv(w) && req in w.requests && PhaseOf(w, req).Presenting?
    ensures Inv(ServeStep(w, req, active))
  {
    var w' := ServeStep(w, req, active);
    assert PhaseInv(w, PhaseOf(w, req)) && w.lock == Some(req);
    LiveTokenIsNotReuse(w.server, w.tip.refresh, active, w.now);
    ServeKeepsCirculation(w, req, active);
    forall r | r in w'.requests && r != req
      ensures !HoldsLock(PhaseOf(w', r))
    {
      NoOtherHolds(w, req, r);
    }
    assert TipInv(w');
    assert HolderInv(w') by {
      forall tab | tab in w'.tabStore ensures tab == w'.requests[req].tab { assert tab == w.requests[req].tab; }
    }
  }

  lemma ReceiveKeepsInv(w: World, req: nat)
    requires Inv(w) && req in w.requests && PhaseOf(w, req).Answered?
    ensures Inv(ReceiveStep(w, req))
  {
    var p, tab := PhaseOf(w, req), w.requests[req].tab;
    assert PhaseInv(w, p);
    assert w.lock == Some(req);
    match p.answer
    case Refused(_) => MoveKeepsInv(w, req, Request(tab, Settled(p.stale, false)), w.lock);
    case Granted(pair) =>
      var w' := ReceiveStep(w, req);
      forall r | r in w'.requests && r != req
        ensures !HoldsLock(PhaseOf(w', r)) && PhaseInv(w', PhaseOf(w', r))
      {
        assert PhaseInv(w, PhaseOf(w, r));
        assert HoldsLock(PhaseOf(w, r)) <==> w.lock == Some(r);
      }
  }

  lemma ClearKeepsInv(w: World, req: nat)
    requires Inv(w) && req in w.requests && PhaseOf(w, req).Clearing?
    ensures Inv(Act(w, ClearAfterFailure(req)))
  {
    var tab := w.requests[req].tab;
    var cleared := Clear(w, tab);
    assert Inv(cleared) by {
      forall r | r in cleared.requests
        ensures PhaseInv(cleared, PhaseOf(cleared, r))
      {
        assert PhaseInv(w, PhaseOf(w, r));
      }
    }
    MoveKeepsInv(cleared, req, Request(tab, Done), w.lock);
  }

  /** Steps of one request alone. */
  lemma RequestStepKeepsInv(w: World, a: Action)
    requires Inv(w) && Enabled(w, a)
    requires a.Start? || a.Respond? || a.Grab? || a.Lose? || a.Release? || a.Resend? || a.Finish?
    ensures Inv(Act(w, a))
  {
    if a.req in w.requests {
      assert PhaseInv(w, PhaseOf(w, a.req));
      assert HoldsLock(PhaseOf(w, a.req)) <==> w.lock == Some(a.req);
    } else {
      assert LockInv(w);
    }
    MoveKeepsInv(w, a.req, Act(w, a).requests[a.req], Act(w, a).lock);
  }

  /** Other clients leave the newest refresh token unrevoked. */
  lemma ForeignSparesTip(w: World, e: Event)
    requires TipInv(w) && Foreign(w, e)
    ensures
      var server := TokenService.Step(w.server, e);
      && w.server.next <= server.next
      && (Lookup(server.rows, w.tip.refresh).Some? ==> server.rows[w.tip.refresh.jti].revokedAt.None?)
  {
    var id := w.tip.refresh.jti;
    if id in w.server.rows { assert RowValid(w.server, id, w.now); }
    match e
    case Redeem(presented, active, now) =>
      if presented.Some? && presented.value.jti in w.server.rows {
        assert RowValid(w.server, presented.value.jti, w.now);
      }
    case _ =>
  }

  /** A token known only as revoked is never known otherwise again. */
  lemma SpentStays(t: Table, e: Event, jwt: Jwt)
    requires Spent(t, jwt)
    ensures Spent(TokenService.Step(t, e), jwt)
  {
  }

  lemma ForeignKeepsInv(w: World, e: Event)
    requires Inv(w) && Foreign(w, e)
    ensures Inv(Act(w, Elsewhere(e)))
  {
    StepKeepsValid(w.server, e, w.now);
    ForeignSparesTip(w, e);
    var w' := Act(w, Elsewhere(e));
    forall r | r in w'.requests
      ensures PhaseInv(w', PhaseOf(w', r))
    {
      assert PhaseInv(w, PhaseOf(w, r));
      if PhaseOf(w, r).Answered? && PhaseOf(w, r).answer.Granted? {
        SpentStays(w.server, e, PhaseOf(w, r).session.refresh);
      }
    }
    assert RotationsInv(w');
  }

  lemma TickKeepsInv(w: World, elapsed: nat)
    requires Inv(w)
    ensures Inv(w.(now := w.now + elapsed))
  {
    TimePasses(w.server, w.now, w.now + elapsed);
  }

  lemma CloseKeepsInv(w: World, tab: nat)
    requires Inv(w) && Enabled(w, CloseTab(tab)) && !(Pending(w) && w.requests[w.lock.value].tab == tab)
    ensures Inv(Closed(w, tab))
  {
    var w' := Closed(w, tab);
    assert LockInv(w') by {
      forall r | r in w'.requests ensures HoldsLock(PhaseOf(w', r)) <==> w'.lock == Some(r) {
        assert HoldsLock(PhaseOf(w, r)) <==> w.lock == Some(r);
      }
    }
    assert Pending(w') == Pending(w);
    assert CirculationInv(w') by {
      forall r | r in w'.requests ensures PhaseInv(w', PhaseOf(w', r)) { assert PhaseInv(w, PhaseOf(w, r)); }
    }
  }

  // --- After a lost answer ------------------------------------------------------------

  /** Nothing is stored but the pair that was rotated away for nothing, so nothing else
      is presented, and it is never granted. */
  ghost predicate OrphanInv(w: World, o: Session)
  {
    && OnlyStored(w, o) && Spent(w.server, o.refresh) && o.refresh.kind == Refresh
    && forall req :: req in w.requests ==> OrphanPhaseInv(PhaseOf(w, req), o)
  }

  predicate OrphanPhaseInv(p: Phase, o: Session)
  {
    (p.Presenting? ==> p.session == o) && (p.Answered? ==> p.answer.Refused?)
  }

  ghost predicate FullInv(w: World)
  {
    match w.orphan
    case None => Inv(w)
    case Some(o) => OrphanInv(w, o)
  }

  /** The answer that is lost was the one answer under way. */
  lemma OrphanBegins(w: World, after: World, req: nat)
    requires Inv(w) && Pending(w) && w.lock == Some(req)
    requires after.orphan == Some(PhaseOf(w, req).session) && after.server == w.server && after.local == w.local
    requires forall tab :: tab in after.tabStore ==> tab in w.tabStore && after.tabStore[tab] == w.tabStore[tab]
    requires forall q :: q in after.requests && q != req ==> q in w.requests && after.requests[q] == w.requests[q]
    requires req in after.requests ==> PhaseOf(after, req).Settled?
    ensures FullInv(after)
  {
    assert PhaseInv(w, PhaseOf(w, req));
    forall q | q in after.requests && q != req
      ensures OrphanPhaseInv(PhaseOf(after, q), PhaseOf(w, req).session)
    {
      assert HoldsLock(PhaseOf(w, q)) <==> w.lock == Some(q);
    }
  }

  lemma LoseKeepsInv(w: World, req: nat)
    requires Inv(w) && w.orphan.None? && req in w.requests && PhaseOf(w, req).Answered?
    ensures FullInv(LoseStep(w, req))
  {
    assert PhaseInv(w, PhaseOf(w, req)) && w.lock == Some(req);
    if PhaseOf(w, req).answer.Granted? {
      OrphanBegins(w, LoseStep(w, req), req);
    } else {
      MoveKeepsInv(w, req, Request(w.requests[req].tab, Settled(PhaseOf(w, req).stale, false)), w.lock);
    }
  }

  /** A token that is spent is refused. */
  lemma SpentIsRefused(t: Table, jwt: Jwt, active: bool, now: int)
    requires Spent(t, jwt)
    ensures Rotated(t, Some(jwt), active, now).1.Refused? && Spent(Rotated(t, Some(jwt), active, now).0, jwt)
    ensures Rotated(t, Some(jwt), active, now).1 == Refused(SessionRevoked) <==>
      Lookup(t.rows, jwt).Some? && now < jwt.exp && jwt.kind == Refresh
  {
  }

  /** A request moves on, or a tab reads storage. */
  lemma OrphanMoves(w: World, after: World, o: Session, req: nat)
    requires OrphanInv(w, o) && after.server == w.server
    requires after.local == w.local && after.tabStore == w.tabStore
    requires forall q :: q in after.requests && q != req ==> q in w.requests && after.requests[q] == w.requests[q]
    requires req in after.requests ==> OrphanPhaseInv(PhaseOf(after, req), o)
    ensures OrphanInv(after, o)
  {
    forall q | q in after.requests && q != req
      ensures OrphanPhaseInv(PhaseOf(after, q), o)
    {
      assert OrphanPhaseInv(PhaseOf(w, q), o);
    }
  }

  lemma RereadKeepsStores(w: World, tab: nat)
    ensures Reload(w, tab).local == w.local && Reload(w, tab).tabStore == w.tabStore
  {
  }

  lemma OrphanReloads(w: World, o: Session, req: nat)
    requires OrphanInv(w, o) && req in w.requests && PhaseOf(w, req).Holding?
    ensures OrphanInv(ReloadStep(w, req), o)
  {
    RereadKeepsStores(w, w.requests[req].tab);
    OrphanMoves(w, ReloadStep(w, req), o, req);
  }

  lemma OrphanServes(w: World, o: Session, req: nat, active: bool)
    requires OrphanInv(w, o) && req in w.requests && PhaseOf(w, req).Presenting?
    ensures OrphanInv(ServeStep(w, req, active), o) && ServeStep(w, req, active).orphan == w.orphan
  {
    assert OrphanPhaseInv(PhaseOf(w, req), o);
    SpentIsRefused(w.server, o.refresh, active, w.now);
    var after := ServeStep(w, req, active);
    OrphanMoves(w, after.(server := w.server), o, req);
  }

  /** The stores lose an entry, or the tabs a tab. */
  lemma OrphanShrinks(w: World, after: World, o: Session)
    requires OrphanInv(w, o) && after.server == w.server && (after.local.Some? ==> after.local == w.local)
    requires forall tab :: tab in after.tabStore ==> tab in w.tabStore && after.tabStore[tab] == w.tabStore[tab]
    requires forall q :: q in after.requests ==> q in w.requests && after.requests[q] == w.requests[q]
    ensures OrphanInv(after, o)
  {
    forall q | q in after.requests
      ensures OrphanPhaseInv(PhaseOf(after, q), o)
    {
      assert OrphanPhaseInv(PhaseOf(w, q), o);
    }
  }

  lemma OrphanClears(w: World, o: Session, req: nat)
    requires OrphanInv(w, o) && req in w.requests && PhaseOf(w, req).Clearing?
    ensures OrphanInv(Act(w, ClearAfterFailure(req)), o)
  {
    var cleared := Clear(w, w.requests[req].tab);
    OrphanShrinks(w, cleared, o);
    OrphanMoves(cleared, Goto(cleared, req, Done), o, req);
  }

  lemma OrphanCloses(w: World, o: Session, tab: nat)
    requires OrphanInv(w, o) && w.orphan == Some(o)
    ensures OrphanInv(Closed(w, tab), o) && Closed(w, tab).orphan == Some(o)
  {
    if w.lock.Some? && w.lock.value in w.requests { assert OrphanPhaseInv(PhaseOf(w, w.lock.value), o); }
    OrphanShrinks(w, Closed(w, tab), o);
  }

  lemma OrphanSteps(w: World, o: Session, a: Action)
    requires OrphanInv(w, o) && w.orphan == Some(o) && Enabled(w, a)
    requires a.Start? || a.Respond? || a.Grab? || a.Lose? || a.LoseAnswer? || a.Receive? || a.Release? || a.Resend?
      || a.Finish?
    ensures OrphanInv(Act(w, a), o) && Act(w, a).orphan == Some(o)
  {
    if a.req in w.requests { assert OrphanPhaseInv(PhaseOf(w, a.req), o); }
    OrphanMoves(w, Act(w, a), o, a.req);
  }

  lemma OrphanStays(w: World, o: Session, a: Action)
    requires OrphanInv(w, o) && w.orphan == Some(o) && Enabled(w, a)
    ensures OrphanInv(Act(w, a), o) && Act(w, a).orphan == Some(o)
  {
    match a
    case Elsewhere(e) => SpentStays(w.server, e, o.refresh);
    case Tick(_) =>
    case Serve(req, active) => OrphanServes(w, o, req, active);
    case ReloadAndCompare(req) => OrphanReloads(w, o, req);
    case ClearAfterFailure(req) => OrphanClears(w, o, req);
    case CloseTab(tab) => OrphanCloses(w, o, tab);
    case OpenTab(tab) => OrphanShrinks(w, Reload(w, tab), o);
    case StorageEvent(tab) => OrphanShrinks(w, Reload(w, tab), o);
    case _ => OrphanSteps(w, o, a);
  }

  // --- Runs ------------------------------------------------------------------------------

  /** Steps of the tabs, the clock and the other clients. */
  lemma AroundKeepsInv(w: World, a: Action)
    requires Inv(w) && w.orphan.None? && Enabled(w, a)
    requires a.OpenTab? || a.StorageEvent? || a.CloseTab? || a.Tick? || a.Elsewhere?
    ensures FullInv(Act(w, a))
  {
    match a
    case OpenTab(tab) => RereadKeepsInv(w, tab);
    case StorageEvent(tab) => RereadKeepsInv(w, tab);
    case CloseTab(tab) =>
      if Pending(w) && w.requests[w.lock.value].tab == tab {
        OrphanBegins(w, Closed(w, tab), w.lock.value);
      } else {
        CloseKeepsInv(w, tab);
      }
    case Tick(elapsed) => TickKeepsInv(w, elapsed);
    case Elsewhere(e) => ForeignKeepsInv(w, e);
  }

  /** Steps of a refresh. */
  lemma RefreshKeepsInv(w: World, a: Action)
    requires Inv(w) && w.orphan.None? && Enabled(w, a)
    requires a.ReloadAndCompare? || a.Serve? || a.Receive? || a.LoseAnswer? || a.ClearAfterFailure?
    ensures FullInv(Act(w, a))
  {
    match a
    case ReloadAndCompare(req) => ReloadKeepsInv(w, req);
    case Serve(req, active) => ServeKeepsInv(w, req, active);
    case Receive(req) => ReceiveKeepsInv(w, req);
    case LoseAnswer(req) => LoseKeepsInv(w, req);
    case ClearAfterFailure(req) => ClearKeepsInv(w, req);
  }

  lemma ActKeepsInv(w: World, a: Action)
    requires Inv(w) && w.orphan.None? && Enabled(w, a)
    ensures FullInv(Act(w, a))
  {
    if a.OpenTab? || a.StorageEvent? || a.CloseTab? || a.Tick? || a.Elsewhere? {
      AroundKeepsInv(w, a);
    } else if a.ReloadAndCompare? || a.Serve? || a.Receive? || a.LoseAnswer? || a.ClearAfterFailure? {
      RefreshKeepsInv(w, a);
    } else {
      RequestStepKeepsInv(w, a);
    }
  }

  lemma NextKeepsInv(w: World, a: Action)
    requires FullInv(w)
    ensures FullInv(Next(w, a))
  {
    if Enabled(w, a) {
      if w.orphan.Some? { OrphanStays(w, w.orphan.value, a); } else { ActKeepsInv(w, a); }
    }
  }

  lemma {:induction false} PlayKeepsInv(w: World, actions: seq<Action>)
    requires FullInv(w)
    ensures FullInv(Play(w, actions))
    decreases actions
  {
    if actions != [] {
      NextKeepsInv(w, actions[0]);
      PlayKeepsInv(Next(w, actions[0]), actions[1..]);
    }
  }

  // --- What a run can show -------------------------------------------------------

  /** In any interleaving of any number of tabs in which no answer that the server
      acted on is lost, no refresh presents a token that has been rotated away or
      revoked, and the server never answers with the reuse response. */
  lemma NoReuse(w: World, actions: seq<Action>, req: nat)
    requires Start0(w) && Play(w, actions).orphan.None?
    ensures
      var w' := Play(w, actions);
      && !w'.reuseSeen
      && (req in w'.requests && PhaseOf(w', req).Presenting? ==>
            var jwt := PhaseOf(w', req).session.refresh;
            && jwt == w'.tip.refresh
            && (Lookup(w'.server.rows, jwt).Some? ==>
                  w'.server.rows[jwt.jti].revokedAt.None? && w'.server.rows[jwt.jti].replacedBy.None?))
  {
    StartHasInv(w);
    PlayKeepsInv(w, actions);
    var w' := Play(w, actions);
    if req in w'.requests { assert PhaseInv(w', PhaseOf(w', req)); }
    if w'.tip.refresh.jti in w'.server.rows { assert RowValid(w'.server, w'.tip.refresh.jti, w'.now); }
  }

  lemma {:induction false} PlayLast(w: World, actions: seq<Action>)
    requires actions != []
    ensures Play(w, actions) == Next(Play(w, actions[..|actions| - 1]), actions[|actions| - 1])
    decreases actions
  {
    var n := |actions| - 1;
    if n > 0 {
      PlayLast(Next(w, actions[0]), actions[1..]);
      assert actions[..n][1..] == actions[1..][..n - 1];
    }
  }

  /** The server is shown, unexpired and not yet pruned, the token whose rotation was
      lost. */
  predicate Reuses(w: World, a: Action)
  {
    && a.Serve? && Enabled(w, a) && w.orphan == Some(PhaseOf(w, a.req).session)
    && Lookup(w.server.rows, w.orphan.value.refresh).Some? && w.now < w.orphan.value.refresh.exp
  }

  lemma StepReuseIff(w: World, a: Action)
    requires FullInv(w)
    ensures Next(w, a).reuseSeen <==> w.reuseSeen || Reuses(w, a)
  {
    if Enabled(w, a) && a.Serve? {
      if w.orphan.Some? {
        assert OrphanPhaseInv(PhaseOf(w, a.req), w.orphan.value);
        SpentIsRefused(w.server, w.orphan.value.refresh, a.active, w.now);
      } else {
        ServeKeepsInv(w, a.req, a.active);
      }
    }
  }

  predicate ReusesAt(w: World, actions: seq<Action>, k: nat)
    requires k < |actions|
  {
    Reuses(Play(w, actions[..k]), actions[k])
  }

  lemma ReusesInFront(w: World, actions: seq<Action>)
    requires actions != []
    ensures
      var n := |actions| - 1;
      (exists k :: 0 <= k < |actions| && ReusesAt(w, actions, k)) <==>
      (exists k :: 0 <= k < n && ReusesAt(w, actions[..n], k)) || ReusesAt(w, actions, n)
  {
    var n := |actions| - 1;
    forall k | 0 <= k < n
      ensures ReusesAt(w, actions[..n], k) <==> ReusesAt(w, actions, k)
    {
      assert actions[..n][..k] == actions[..k] && actions[..n][k] == actions[k];
    }
  }

  /** Over any run, lost answers included: the server sees reuse if and only if, after
      an answer was lost, some request presents again what that refresh presented
      while it is unexpired and not yet pruned. */
  lemma {:induction false} ReuseIff(w: World, actions: seq<Action>)
    requires Start0(w)
    ensures Play(w, actions).reuseSeen <==> exists k :: 0 <= k < |actions| && ReusesAt(w, actions, k)
    decreases |actions|
  {
    if actions != [] {
      var n := |actions| - 1;
      var front := actions[..n];
      StartHasInv(w);
      PlayKeepsInv(w, front);
      PlayLast(w, actions);
      StepReuseIff(Play(w, front), actions[n]);
      ReuseIff(w, front);
      ReusesInFront(w, actions);
    }
  }

  /** The step at `k` re-read storage under the lock and found the pair whose rotation
      was lost still there. */
  predicate RereadsAt(w: World, actions: seq<Action>, k: nat, req: nat, o: Session)
    requires k < |actions|
  {
    var before := Play(w, actions[..k]);
    && actions[k] == ReloadAndCompare(req) && Enabled(before, actions[k]) && before.orphan == Some(o)
    && ReadView(Seen(before, before.requests[req].tab)) == Some(o)
  }

  /** And the request that presents it again had re-read storage between the loss and
      the clearing of storage. */
  lemma {:induction false} PresentedAgainWasReread(w: World, actions: seq<Action>, req: nat) returns (k: nat)
    requires Start0(w) && Play(w, actions).orphan.Some?
    requires req in Play(w, actions).requests && PhaseOf(Play(w, actions), req).Presenting?
    ensures k < |actions| && RereadsAt(w, actions, k, req, Play(w, actions).orphan.value)
    decreases |actions|
  {
    var n := |actions| - 1;
    var front := actions[..n];
    StartHasInv(w);
    PlayKeepsInv(w, front);
    PlayLast(w, actions);
    var before := Play(w, front);
    StepPresents(before, actions[n], req);
    if actions[n] == ReloadAndCompare(req) && Enabled(before, actions[n]) {
      k := n;
    } else {
      k := PresentedAgainWasReread(w, front, req);
      assert front[..k] == actions[..k] && front[k] == actions[k];
    }
  }

  /** When an answer is lost, no other request has presented anything. */
  lemma NonePresentsAtLoss(w: World, a: Action, req: nat)
    requires Inv(w) && w.orphan.None? && Enabled(w, a) && Act(w, a).orphan.Some? && req in Act(w, a).requests
    ensures !PhaseOf(Act(w, a), req).Presenting?
  {
    assert a.LoseAnswer? || a.CloseTab?;
    var holder := if a.LoseAnswer? then a.req else w.lock.value;
    assert HoldsLock(PhaseOf(w, holder)) <==> w.lock == Some(holder);
    if req in w.requests { assert HoldsLock(PhaseOf(w, req)) <==> w.lock == Some(req); }
  }

  lemma ComesToPresent(w: World, a: Action, req: nat)
    requires Enabled(w, a) && req in Act(w, a).requests && PhaseOf(Act(w, a), req).Presenting?
    ensures
      if a == ReloadAndCompare(req) then ReadView(Seen(w, w.requests[req].tab)).Some?
      else req in w.requests && PhaseOf(w, req).Presenting?
  {
  }

  /** In one step: a request comes to present the orphaned pair by re-reading it, or it
      was doing so before. */
  lemma StepPresents(w: World, a: Action, req: nat)
    requires FullInv(w) && Next(w, a).orphan.Some? && req in Next(w, a).requests && PhaseOf(Next(w, a), req).Presenting?
    ensures w.orphan == Next(w, a).orphan
    ensures
      if a == ReloadAndCompare(req) && Enabled(w, a) then ReadView(Seen(w, w.requests[req].tab)) == w.orphan
      else req in w.requests && PhaseOf(w, req).Presenting?
  {
    if Enabled(w, a) {
      if w.orphan.None? {
        NonePresentsAtLoss(w, a, req);
      } else {
        OrphanStays(w, w.orphan.value, a);
        ComesToPresent(w, a, req);
      }
    }
  }

  function CountOf(access: Jwt, s: seq<Jwt>): nat
  {
    if s == [] then 0 else (if s[0] == access then 1 else 0) + CountOf(access, s[1..])
  }

  lemma {:induction false} CountInDistinct(access: Jwt, s: seq<Jwt>)
    requires forall i, j :: 0 <= i < j < |s| ==> s[i] != s[j]
    ensures CountOf(access, s) == if access in s then 1 else 0
  {
    if s != [] {
      CountInDistinct(access, s[1..]);
      if s[0] == access { assert access !in s[1..]; }
    }
  }

  /** All the requests, in all the tabs, that met a 401 with one access token
      cause at most one rotation; once any of their refreshes has returned,
      exactly one. */
  lemma OneRotationPerStaleToken(w: World, actions: seq<Action>, stale: Jwt)
    requires Start0(w) && Play(w, actions).orphan.None?
    ensures
      var w' := Play(w, actions);
      && CountOf(stale, w'.rotations) <= 1
      && ((exists req :: req in w'.requests && PhaseOf(w', req) == Refreshed(stale)) ==>
          CountOf(stale, w'.rotations) == 1)
  {
    StartHasInv(w);
    PlayKeepsInv(w, actions);
    var w' := Play(w, actions);
    CountInDistinct(stale, w'.rotations);
    if req :| req in w'.requests && PhaseOf(w', req) == Refreshed(stale) {
      assert PhaseInv(w', PhaseOf(w', req));
    }
  }

  /** At most one store ever holds the session, and it holds the newest pair
      unless the lock's holder is about to save it. */
  lemma SessionLivesInOnePlace(w: World, actions: seq<Action>, tab: nat)
    requires Start0(w) && Play(w, actions).orphan.None?
    ensures
      var w' := Play(w, actions);
      var stored := ReadView(Seen(w', tab));
      && (w'.local.Some? ==> w'.tabStore == map[]) && |w'.tabStore| <= 1
      && (stored.Some? && !Pending(w') ==> stored.value == w'.tip)
  {
    StartHasInv(w);
    PlayKeepsInv(w, actions);
    var store := Play(w, actions).tabStore;
    if store != map[] {
      var a :| a in store;
      assert store.Keys == {a};
    }
  }

  /** It does happen: an answer is lost, and a second tab takes the lock before storage
      is cleared. */
  lemma LostAnswerMeansReuse(w: World, req: nat, other: nat)
    requires Inv(w) && w.orphan.None? && req in w.requests && other in w.requests && req != other
    requires PhaseOf(w, req).Presenting? && PhaseOf(w, other) == Waiting(w.tip.access) && w.local == Some(w.tip)
    requires Lookup(w.server.rows, w.tip.refresh).Some? && w.now < w.tip.refresh.exp
    ensures
      var served := Next(w, Serve(req, true));
      var lost := Next(served, LoseAnswer(req));
      Next(Next(Next(Next(lost, Release(req)), Grab(other)), ReloadAndCompare(other)), Serve(other, true)).reuseSeen
  {
    assert PhaseInv(w, PhaseOf(w, req));
    RotatedTwiceIsReuse(w.server, w.tip.refresh, w.now);
    AnswerIsLost(w, req);
    var freed := Next(Next(Next(w, Serve(req, true)), LoseAnswer(req)), Release(req));
    assert freed.requests[other] == w.requests[other];
    PresentsStored(freed, other, w.tip);
  }

  lemma AnswerIsLost(w: World, req: nat)
    requires req in w.requests && PhaseOf(w, req).Presenting?
    ensures
      var freed := Next(Next(Next(w, Serve(req, true)), LoseAnswer(req)), Release(req));
      && freed.server == Rotated(w.server, Some(PhaseOf(w, req).session.refresh), true, w.now).0
      && freed.local == w.local && freed.now == w.now && freed.lock.None?
      && freed.requests == w.requests[req := Request(w.requests[req].tab, Clearing)]
  {
    ServedOnly(w, req);
    LostAndReleased(Next(w, Serve(req, true)), req);
  }

  lemma ServedOnly(w: World, req: nat)
    requires req in w.requests && PhaseOf(w, req).Presenting?
    ensures
      var served := Next(w, Serve(req, true));
      && served.server == Rotated(w.server, Some(PhaseOf(w, req).session.refresh), true, w.now).0
      && served.local == w.local && served.now == w.now && req in served.requests && PhaseOf(served, req).Answered?
      && served.requests == w.requests[req := served.requests[req]] && served.requests[req].tab == w.requests[req].tab
  {
  }

  lemma LostAndReleased(w: World, req: nat)
    requires req in w.requests && PhaseOf(w, req).Answered?
    ensures
      var freed := Next(Next(w, LoseAnswer(req)), Release(req));
      && freed.server == w.server && freed.local == w.local && freed.now == w.now && freed.lock.None?
      && freed.requests == w.requests[req := Request(w.requests[req].tab, Clearing)]
  {
    var lost := Next(w, LoseAnswer(req));
    assert lost.requests == w.requests[req := Request(w.requests[req].tab, Settled(PhaseOf(w, req).stale, false))];
  }

  /** Undisturbed, the next holder of the lock presents what is stored. */
  lemma PresentsStored(w: World, req: nat, session: Session)
    requires req in w.requests && w.lock.None? && PhaseOf(w, req) == Waiting(session.access) && w.local == Some(session)
    requires Rotated(w.server, Some(session.refresh), true, w.now).1 == Refused(SessionRevoked)
    ensures Next(Next(Next(w, Grab(req)), ReloadAndCompare(req)), Serve(req, true)).reuseSeen
  {
    var held := Next(w, Grab(req));
    assert held.local == w.local && held.server == w.server && held.now == w.now;
    assert PhaseOf(held, req) == Holding(session.access);
    var read := Next(held, ReloadAndCompare(req));
    assert read.server == w.server && read.now == w.now && PhaseOf(read, req) == Presenting(session.access, session);
  }

  lemma RotatedTwiceIsReuse(t: Table, jwt: Jwt, now: int)
    requires Valid(t, now) && Lookup(t.rows, jwt).Some? && t.rows[jwt.jti].revokedAt.None? && now < jwt.exp
    ensures
      var (after, answer) := Rotated(t, Some(jwt), true, now);
      answer.Granted? && Rotated(after, Some(jwt), true, now).1 == Refused(SessionRevoked)
  {
    assert RowValid(t, jwt.jti, now);
  }

  lemma PlayCons(w: World, a: Action, rest: seq<Action>)
    ensures Play(w, [a] + rest) == Play(Next(w, a), rest)
  {
    assert ([a] + rest)[1..] == rest;
  }

  lemma PlaySix(w: World, a: Action, b: Action, c: Action, d: Action, e: Action, f: Action)
    ensures Play(w, [a, b, c, d, e, f]) == Next(Next(Next(Next(Next(Next(w, a), b), c), d), e), f)
  {
    PlayCons(w, a, [b, c, d, e, f]);
    PlayCons(Next(w, a), b, [c, d, e, f]);
    PlayCons(Next(Next(w, a), b), c, [d, e, f]);
    PlayCons(Next(Next(Next(w, a), b), c), d, [e, f]);
    PlayCons(Next(Next(Next(Next(w, a), b), c), d), e, [f]);
    PlayCons(Next(Next(Next(Next(Next(w, a), b), c), d), e), f, []);
    assert [a, b, c, d, e, f] == [a] + [b, c, d, e, f] && [b, c, d, e, f] == [b] + [c, d, e, f];
    assert [c, d, e, f] == [c] + [d, e, f] && [d, e, f] == [d] + [e, f] && [e, f] == [e] + [f] && [f] == [f] + [];
  }

  /** The tab's view after the callback: storage and its variable agree. */
  predicate InStep(w: World, tab: nat, session: Session)
  {
    tab in w.current && w.current[tab] == Some(session) && ReadView(Seen(w, tab)) == Some(session)
  }

  /** The callback's middle steps, from a granted lock to a settled refresh. */
  lemma CallbackSucceeds(w: World, req: nat, session: Session)
    requires req in w.requests && PhaseOf(w, req).Holding? && ReadView(Seen(w, w.requests[req].tab)) == Some(session)
    requires session.access == PhaseOf(w, req).stale ==>
      Rotated(w.server, Some(session.refresh), true, w.now).1.Granted?
    requires w.tip == session
    ensures
      var tab, stale := w.requests[req].tab, PhaseOf(w, req).stale;
      var w' := Next(Next(Next(w, ReloadAndCompare(req)), Serve(req, true)), Receive(req));
      && req in w'.requests && w'.requests[req] == Request(tab, Settled(stale, true)) && w'.lock == w.lock
      && InStep(w', tab, w'.tip)
      && w'.rotations == (if session.access == stale then w.rotations + [stale] else w.rotations)
      && (session.access != stale ==> w'.tip == w.tip)
      && (session.access == stale ==>
          w'.tip.access == Rotated(w.server, Some(session.refresh), true, w.now).1.pair.access)
  {
    var b := Next(w, ReloadAndCompare(req));
    if session.access == PhaseOf(w, req).stale {
      var c := Next(b, Serve(req, true));
      assert c.tip == Session(PhaseOf(c, req).answer.pair.access, PhaseOf(c, req).answer.pair.refresh);
    }
  }

  lemma ReleaseAndResend(w: World, req: nat, session: Session)
    requires req in w.requests && PhaseOf(w, req).Settled? && PhaseOf(w, req).ok
    requires InStep(w, w.requests[req].tab, session)
    ensures
      var w' := Next(Next(w, Release(req)), Resend(req));
      && req in w'.requests && w'.requests[req] == Request(w.requests[req].tab, Resent(Some(session.access)))
      && w'.lock.None?
      && w'.tip == w.tip && w'.rotations == w.rotations
      && ReadView(Seen(w', w.requests[req].tab)) == Some(session)
  {
    var e := Next(w, Release(req));
    assert e.current == w.current && e.local == w.local && e.tabStore == w.tabStore;
  }

  /** A whole refresh, when nothing interferes: the request goes out again with the
      newest access token, and contacts the server only if no other tab had. */
  lemma RefreshSucceeds(w: World, req: nat)
    requires Inv(w) && req in w.requests && PhaseOf(w, req).Waiting? && w.lock.None?
    requires ReadView(Seen(w, w.requests[req].tab)).Some?
    requires Lookup(w.server.rows, w.tip.refresh).Some? && w.now < w.tip.refresh.exp
    ensures
      var stale := PhaseOf(w, req).stale;
      var w' := Play(w, [Grab(req), ReloadAndCompare(req), Serve(req, true), Receive(req), Release(req), Resend(req)]);
      && req in w'.requests && w'.requests[req] == Request(w.requests[req].tab, Resent(Some(w'.tip.access)))
      && w'.tip.access != stale
      && ReadView(Seen(w', w.requests[req].tab)) == Some(w'.tip) && w'.lock.None?
      && w'.rotations == if w.tip.access == stale then w.rotations + [stale] else w.rotations
  {
    var stale, tab := PhaseOf(w, req).stale, w.requests[req].tab;
    TipIsGranted(w);
    StoredIsTip(w, tab);
    var a := Next(w, Grab(req));
    assert Seen(a, tab) == Seen(w, tab) && a.server == w.server && a.now == w.now && a.tip == w.tip;
    assert a.rotations == w.rotations;
    CallbackSucceeds(a, req, w.tip);
    var d := Next(Next(Next(a, ReloadAndCompare(req)), Serve(req, true)), Receive(req));
    ReleaseAndResend(d, req, d.tip);
    PlaySix(w, Grab(req), ReloadAndCompare(req), Serve(req, true), Receive(req), Release(req), Resend(req));
  }

  lemma PlayTwoThen(w: World, a: Action, b: Action, rest: seq<Action>)
    ensures Play(w, [a, b] + rest) == Play(Next(Next(w, a), b), rest)
  {
    PlayCons(w, a, [b] + rest);
    PlayCons(Next(w, a), b, rest);
    assert [a, b] + rest == [a] + ([b] + rest);
  }

  /** Everything after the 401, when nothing interferes and the server grants. */
  function RefreshSteps(req: nat): seq<Action>
  {
    [Grab(req), ReloadAndCompare(req), Serve(req, true), Receive(req), Release(req), Resend(req)]
  }

  /** A request of a signed-in tab that meets a 401 queues for the lock. */
  lemma QueuedBy401(w: World, req: nat, tab: nat)
    requires Inv(w) && w.orphan.None? && req !in w.requests && tab in w.current && w.current[tab].Some?
    ensures
      var queued := Next(Next(w, Start(req, tab)), Respond(req, true));
      && queued == w.(requests := w.requests[req := Request(tab, Waiting(w.current[tab].value.access))])
      && Inv(queued) && Seen(queued, tab) == Seen(w, tab)
  {
    NextKeepsInv(w, Start(req, tab));
    NextKeepsInv(Next(w, Start(req, tab)), Respond(req, true));
    var queued := Next(Next(w, Start(req, tab)), Respond(req, true));
    assert queued == w.(requests := w.requests[req := Request(tab, Waiting(w.current[tab].value.access))]);
  }

  lemma RecoversFromQueue(w: World, req: nat, tab: nat, stale: Jwt)
    requires Inv(w) && req in w.requests && w.requests[req] == Request(tab, Waiting(stale)) && w.lock.None?
    requires ReadView(Seen(w, tab)).Some?
    requires Lookup(w.server.rows, w.tip.refresh).Some? && w.now < w.tip.refresh.exp
    ensures
      var w' := Play(w, RefreshSteps(req));
      && req in w'.requests && w'.requests[req] == Request(tab, Resent(Some(w'.tip.access)))
      && w'.tip.access != stale && ReadView(Seen(w', tab)) == Some(w'.tip) && w'.lock.None?
  {
    RefreshSucceeds(w, req);
  }

  /** From the page's call to its second send: a request of a signed-in tab that meets a
      401 is refreshed, and goes out again with the newest access token. One that does
      not is done. */
  lemma RequestRecovers(w: World, req: nat, tab: nat)
    requires Inv(w) && w.orphan.None? && w.lock.None?
    requires req !in w.requests && tab in w.current && w.current[tab].Some? && ReadView(Seen(w, tab)).Some?
    requires Lookup(w.server.rows, w.tip.refresh).Some? && w.now < w.tip.refresh.exp
    ensures
      var w' := Play(w, [Start(req, tab), Respond(req, true)] + RefreshSteps(req));
      && req in w'.requests && w'.requests[req] == Request(tab, Resent(Some(w'.tip.access)))
      && w'.tip.access != w.current[tab].value.access && ReadView(Seen(w', tab)) == Some(w'.tip) && w'.lock.None?
  {
    QueuedBy401(w, req, tab);
    var queued := Next(Next(w, Start(req, tab)), Respond(req, true));
    RecoversFromQueue(queued, req, tab, w.current[tab].value.access);
    PlayTwoThen(w, Start(req, tab), Respond(req, true), RefreshSteps(req));
  }

  lemma AnsweredIsDone(w: World, req: nat, tab: nat)
    requires req !in w.requests && tab in w.current
    ensures Next(Next(w, Start(req, tab)), Respond(req, false)) == w.(requests := w.requests[req := Request(tab, Done)])
  {
  }

  /** A refresh that failed, for whatever reason, signs the tab out: both stores it sees
      and its own variable are empty, the lock is free, and the request is over. What
      other tabs keep for themselves stays. */
  lemma FailedRefreshSignsOut(w: World, req: nat)
    requires LockInv(w) && req in w.requests && PhaseOf(w, req).Settled? && !PhaseOf(w, req).ok
    ensures
      var tab := w.requests[req].tab;
      var w' := Next(Next(w, Release(req)), ClearAfterFailure(req));
      && Seen(w', tab) == View(None, None, None) && w'.lock.None?
      && req in w'.requests && w'.requests[req] == Request(tab, Done)
      && w'.tabStore == w.tabStore - {tab}
      && (forall other :: other in w.current && other != tab ==>
            other in w'.current && w'.current[other] == w.current[other])
      && w'.server == w.server
  {
  }

  /** So does one that the server refuses. */
  lemma RefusedSignsOut(w: World, req: nat)
    requires LockInv(w) && req in w.requests && PhaseOf(w, req).Waiting? && w.lock.None?
    requires Refusable(w, req)
    ensures
      var held := Next(w, Grab(req));
      var w' := Next(Next(Settles(held, req), Release(req)), ClearAfterFailure(req));
      && Seen(w', w.requests[req].tab) == View(None, None, None) && w'.lock.None?
      && req in w'.requests && w'.requests[req] == Request(w.requests[req].tab, Done)
  {
    var held := Next(w, Grab(req));
    GrabKeepsRefusable(w, req);
    CallbackRefused(held, req);
    FailedRefreshSignsOut(Settles(held, req), req);
  }

  /** The callback, answered with a refusal if it asks. */
  function Settles(w: World, req: nat): World
  {
    Next(Next(Next(w, ReloadAndCompare(req)), Serve(req, false)), Receive(req))
  }

  /** What is stored, if anything, is the pair the 401 was about, and the server will not
      have its refresh token. */
  predicate Refusable(w: World, req: nat)
    requires req in w.requests && (PhaseOf(w, req).Waiting? || PhaseOf(w, req).Holding?)
  {
    var stored := ReadView(Seen(w, w.requests[req].tab));
    stored.Some? ==>
      stored.value.access == PhaseOf(w, req).stale
      && Rotated(w.server, Some(stored.value.refresh), false, w.now).1.Refused?
  }

  lemma GrabKeepsRefusable(w: World, req: nat)
    requires req in w.requests && PhaseOf(w, req).Waiting? && w.lock.None? && Refusable(w, req)
    ensures
      var held := Next(w, Grab(req));
      && req in held.requests && held.requests[req] == Request(w.requests[req].tab, Holding(PhaseOf(w, req).stale))
      && Refusable(held, req) && (LockInv(w) ==> LockInv(held))
  {
    var held := Next(w, Grab(req));
    assert Seen(held, w.requests[req].tab) == Seen(w, w.requests[req].tab);
  }

  /** Only this request has moved, and it still has the lock. */
  predicate MovedOn(w: World, after: World, req: nat, phase: Phase)
  {
    && req in w.requests && after.lock == w.lock && HoldsLock(phase)
    && after.requests == w.requests[req := Request(w.requests[req].tab, phase)]
  }

  lemma MovedKeepsLock(w: World, after: World, req: nat, phase: Phase)
    requires LockInv(w) && req in w.requests && HoldsLock(PhaseOf(w, req)) && MovedOn(w, after, req, phase)
    ensures LockInv(after)
  {
    assert forall q :: q in w.requests && q != req ==> after.requests[q] == w.requests[q];
  }

  lemma RefusedReload(w: World, req: nat)
    requires req in w.requests && PhaseOf(w, req).Holding? && Refusable(w, req)
    ensures
      var b, stored := Next(w, ReloadAndCompare(req)), ReadView(Seen(w, w.requests[req].tab));
      && b.server == w.server && b.now == w.now
      && MovedOn(w, b, req, if stored.None? then Settled(PhaseOf(w, req).stale, false)
                            else Presenting(PhaseOf(w, req).stale, stored.value))
  {
  }

  lemma RefusedServe(w: World, req: nat, stale: Jwt, session: Session)
    requires req in w.requests && PhaseOf(w, req) == Presenting(stale, session)
    requires Rotated(w.server, Some(session.refresh), false, w.now).1.Refused?
    ensures
      var d := Next(Next(w, Serve(req, false)), Receive(req));
      MovedOn(w, d, req, Settled(stale, false))
  {
    var c := Next(w, Serve(req, false));
    assert PhaseOf(c, req).answer.Refused? && c.lock == w.lock;
    assert Next(c, Receive(req)).requests == c.requests[req := Request(w.requests[req].tab, Settled(stale, false))];
  }

  lemma CallbackRefused(w: World, req: nat)
    requires LockInv(w) && req in w.requests && PhaseOf(w, req).Holding? && Refusable(w, req)
    ensures
      var d := Settles(w, req);
      && req in d.requests && d.requests[req] == Request(w.requests[req].tab, Settled(PhaseOf(w, req).stale, false))
      && LockInv(d)
  {
    var b, d := Next(w, ReloadAndCompare(req)), Settles(w, req);
    var stored, stale := ReadView(Seen(w, w.requests[req].tab)), PhaseOf(w, req).stale;
    RefusedReload(w, req);
    if stored.Some? {
      RefusedServe(b, req, stale, stored.value);
    } else {
      assert d == b;
    }
    MovedKeepsLock(w, d, req, Settled(stale, false));
  }

  /** With no refresh pending, a tab that can read a session reads the newest. */
  lemma StoredIsTip(w: World, tab: nat)
    requires Inv(w) && w.lock.None? && ReadView(Seen(w, tab)).Some?
    ensures ReadView(Seen(w, tab)) == Some(w.tip)
  {
    assert !Pending(w);
  }

  /** The newest refresh token, unexpired and still stored, is granted a pair whose
      access token is none there was. */
  lemma TipIsGranted(w: World)
    requires Inv(w) && Lookup(w.server.rows, w.tip.refresh).Some? && w.now < w.tip.refresh.exp
    ensures
      var answer := Rotated(w.server, Some(w.tip.refresh), true, w.now).1;
      answer.Granted? && answer.pair.access != w.tip.access
  {
    assert RowValid(w.server, w.tip.refresh.jti, w.now);
  }
}
