/**
 Idempotency keys under requests that overlap, for one user and key. A request
 inserts, reads and writes in one transaction, which its endpoint commits after
 `complete` (app/services/idempotency.py, app/api/v1/endpoints/orders.py:35-46).
 Transactions read what is committed; a row with an uncommitted write makes other
 writers of it wait. A world moves by single steps.
 */
module IdempotencyRuns {
  import opened Options
  import opened Idempotency

  /** How a request came to be told to proceed: it inserted the row, took over an
      expired one, or found none where its insert had met one. */
  datatype Kind = Inserted | Reclaimed | Lost

  datatype Phase =
    | Started                                     // hash and time taken; INSERT ... ON CONFLICT DO NOTHING next
    | Conflicted                                  // inserted nothing; SELECT next
    | Stale(row: Row)                             // read an expired row; UPDATE next
    | Working(kind: Kind)                         // told to proceed
    | Stored(kind: Kind)                          // `complete` done; COMMIT next
    | Committed(kind: Kind, upto: nat)            // history: how many claims had been committed before it
    | Told(answer: Answer)
    | Failed

  /** `own` is its uncommitted write. History: what it was completed with, and, of
      the moment its answer was decided, how many claims had been committed, and the
      time. */
  datatype Request = Request(request: string, endpoint: string, now: int, phase: Phase, own: Option<Row>,
                             body: string, seen: nat, at: int)

  /** History: a committed claim. */
  datatype Claim = Claim(req: nat, request: string, body: string, now: int, committed: int)

  /** `clean`: every commit so far left the row with its own request and response. */
  datatype World = World(now: int, row: Option<Row>, requests: map<nat, Request>, claims: seq<Claim>, clean: bool)

  datatype Action =
    | Tick(elapsed: nat)
    | Start(req: nat, request: string, endpoint: string)
    | Insert(req: nat)
    | Read(req: nat)
    | Reclaim(req: nat)
    | Complete(req: nat, status: int, body: string)
    | Commit(req: nat)
    | Rollback(req: nat)
    | Sweep                                       // the collector's DELETE

  /** No other transaction has an uncommitted write. */
  predicate Alone(w: World, req: nat)
  {
    forall q :: q in w.requests && q != req ==> w.requests[q].own.None?
  }

  predicate Unlocked(w: World)
  {
    forall q :: q in w.requests ==> w.requests[q].own.None?
  }

  predicate Open(p: Phase) { p.Started? || p.Conflicted? || p.Stale? || p.Working? || p.Stored? }

  /** An insert waits for another's uncommitted insert. (One that also waited for an
      uncommitted update of the row would only take runs away.) */
  predicate Enabled(w: World, a: Action)
  {
    match a
    case Tick(_) => true
    case Start(req, _, _) => req !in w.requests
    case Insert(req) => req in w.requests && w.requests[req].phase.Started? && (w.row.Some? || Alone(w, req))
    case Read(req) => req in w.requests && w.requests[req].phase.Conflicted?
    case Reclaim(req) => req in w.requests && w.requests[req].phase.Stale? && Alone(w, req)
    case Complete(req, _, _) =>
      req in w.requests && w.requests[req].phase.Working? && (w.requests[req].own.Some? || w.row.None? || Alone(w, req))
    case Commit(req) => req in w.requests && w.requests[req].phase.Stored?
    case Rollback(req) => req in w.requests && Open(w.requests[req].phase)
    case Sweep => Unlocked(w)
  }

  function Put(w: World, req: nat, r: Request): World { w.(requests := w.requests[req := r]) }

  /** The answer is decided now. */
  function Decided(w: World, r: Request, phase: Phase, own: Option<Row>): Request
  {
    r.(phase := phase, own := own, seen := |w.claims|, at := w.now)
  }

  function InsertedBy(w: World, r: Request): Request
  {
    if w.row.None? then Decided(w, r, Working(Inserted), Some(Claimed(r.request, r.endpoint, r.now)))
    else r.(phase := Conflicted)
  }

  function ReadBy(w: World, r: Request): Request
  {
    if w.row.None? then Decided(w, r, Working(Lost), None)
    else if w.row.value.expires < r.now then Decided(w, r, Stale(w.row.value), None)
    else Decided(w, r, Told(AnswerFor(w.row.value, r.request)), None)
  }

  /** The UPDATE sets the columns that differ from what was read, on the row as it
      now is. */
  function Patched(current: Row, seen: Row, wanted: Row): Row
  {
    Row(if wanted.request != seen.request then wanted.request else current.request,
        if wanted.endpoint != seen.endpoint then wanted.endpoint else current.endpoint,
        if wanted.status != seen.status then wanted.status else current.status,
        if wanted.response != seen.response then wanted.response else current.response,
        if wanted.created != seen.created then wanted.created else current.created,
        if wanted.expires != seen.expires then wanted.expires else current.expires)
  }

  /** A row deleted meanwhile fails the request. */
  function ReclaimedBy(w: World, r: Request): Request
    requires r.phase.Stale?
  {
    if w.row.None? then r.(phase := Failed)
    else r.(phase := Working(Reclaimed),
            own := Some(Patched(w.row.value, r.phase.row, Claimed(r.request, r.endpoint, r.now))))
  }

  function CompletedBy(w: World, r: Request, status: int, body: string): Request
    requires r.phase.Working?
  {
    var row := if r.own.Some? then r.own else w.row;
    r.(phase := Stored(r.phase.kind), own := Idempotency.Completed(row, status, body), body := body)
  }

  function CommittedBy(w: World, req: nat, r: Request): World
    requires r.phase.Stored?
  {
    var kind := r.phase.kind;
    var w' := Put(w, req, r.(phase := Committed(kind, |w.claims|), own := None));
    var row := if r.own.Some? then r.own else w.row;
    if kind.Lost? then w'.(row := row, clean := w.clean && r.own.None?)
    else w'.(row := row, claims := w.claims + [Claim(req, r.request, r.body, r.now, w.now)],
             clean := w.clean && r.own.Some? && r.own.value.request == r.request)
  }

  function Act(w: World, a: Action): World
    requires Enabled(w, a)
  {
    match a
    case Tick(elapsed) => w.(now := w.now + elapsed)
    case Start(req, request, endpoint) => Put(w, req, Request(request, endpoint, w.now, Started, None, "", 0, 0))
    case Insert(req) => Put(w, req, InsertedBy(w, w.requests[req]))
    case Read(req) => Put(w, req, ReadBy(w, w.requests[req]))
    case Reclaim(req) => Put(w, req, ReclaimedBy(w, w.requests[req]))
    case Complete(req, status, body) => Put(w, req, CompletedBy(w, w.requests[req], status, body))
    case Commit(req) => CommittedBy(w, req, w.requests[req])
    case Rollback(req) => Put(w, req, w.requests[req].(phase := Failed, own := None))
    case Sweep => w.(row := Swept(w.row, w.now))
  }

  function Next(w: World, a: Action): World
  {
    if Enabled(w, a) then Act(w, a) else w
  }

  function Play(w: World, actions: seq<Action>): World
    decreases actions
  {
    if actions == [] then w else Play(Next(w, actions[0]), actions[1..])
  }

  predicate Fresh(w: World)
  {
    w.row.None? && w.requests == map[] && w.claims == [] && w.clean
  }

  // --- The invariant -----------------------------------------------------------------

  predicate ClaimsInv(claims: seq<Claim>, now: int)
  {
    && (forall i :: 0 <= i < |claims| ==> claims[i].committed <= now)
    && (forall i, j :: 0 <= i < j < |claims| ==> claims[i].committed <= claims[j].committed)
  }

  /** The committed row is the last claim's, or was collected when that had expired. */
  predicate RowInv(row: Option<Row>, claims: seq<Claim>, now: int, clean: bool)
  {
    if claims == [] then row.None?
    else
      var last := claims[|claims| - 1];
      match row
      case None => now > last.now + TTL
      case Some(r) =>
        r.expires == last.now + TTL && r.response.Some?
        && (clean ==> r.request == last.request && r.response == Some(last.body))
  }

  ghost predicate OneWriter(w: World)
  {
    forall a, b | a in w.requests && b in w.requests :: w.requests[a].own.Some? && w.requests[b].own.Some? ==> a == b
  }

  predicate Proceeds(p: Phase) { p.Stale? || p.Working? || p.Stored? || p.Committed? }

  predicate HasDecided(p: Phase) { Proceeds(p) || p.Told? }

  /** When it was decided, and by how many claims. */
  predicate DecidedInv(r: Request, claims: seq<Claim>, now: int)
  {
    && r.now <= now
    && (HasDecided(r.phase) ==>
          r.seen <= |claims| && r.now <= r.at <= now && (r.seen < |claims| ==> r.at <= claims[r.seen].committed))
    && (Proceeds(r.phase) && 0 < r.seen <= |claims| ==> r.at > claims[r.seen - 1].now + TTL)
  }

  /** What it has written and not committed. */
  predicate OwnInv(r: Request, row: Option<Row>, n: nat)
  {
    match r.phase
    case Working(kind) => KindInv(r, kind, row, n) && (kind.Lost? ==> r.own.None?)
    case Stored(kind) => KindInv(r, kind, row, n) && (r.own.Some? ==> r.own.value.response == Some(r.body))
    case _ => r.own.None?
  }

  predicate KindInv(r: Request, kind: Kind, row: Option<Row>, n: nat)
  {
    match kind
    case Inserted =>
      r.own.Some? && r.own.value.expires == r.now + TTL && r.own.value.request == r.request && row.None? && r.seen == n
    case Reclaimed => r.own.Some? && r.own.value.expires == r.now + TTL && row.Some? && n > 0 && r.seen > 0
    case Lost => r.seen > 0 && n > 0 && (r.own.Some? ==> row.Some? && r.own.value.expires == row.value.expires)
  }

  predicate PhaseInv(r: Request, claims: seq<Claim>, clean: bool)
  {
    match r.phase
    case Conflicted => claims != []
    case Stale(row) => r.seen > 0 && row.expires < r.now && row.response.Some?
    case Committed(kind, upto) =>
      r.seen <= upto <= |claims| && (!kind.Lost? ==> upto < |claims|) && (kind.Inserted? ==> r.seen == upto)
      && (!kind.Inserted? ==> r.seen > 0)
    case Told(answer) => 0 < r.seen <= |claims| && ToldInv(r, claims[r.seen - 1], answer, clean)
    case _ => true
  }

  predicate ToldInv(r: Request, claim: Claim, answer: Answer, clean: bool)
  {
    && r.now <= claim.now + TTL && (answer.Replay? || answer.Mismatched?)
    && (clean ==> answer == if r.request == claim.request then Replay(claim.body) else Mismatched)
  }

  predicate RequestInv(r: Request, row: Option<Row>, claims: seq<Claim>, now: int, clean: bool)
  {
    DecidedInv(r, claims, now) && OwnInv(r, row, |claims|) && PhaseInv(r, claims, clean)
  }

  ghost predicate RequestsInv(w: World)
  {
    forall q :: q in w.requests ==> RequestInv(w.requests[q], w.row, w.claims, w.now, w.clean)
  }

  ghost predicate Inv(w: World)
  {
    ClaimsInv(w.claims, w.now) && RowInv(w.row, w.claims, w.now, w.clean) && OneWriter(w) && RequestsInv(w)
  }

  // --- Every step keeps it ---------------------------------------------------------------

  /** Only the request that moved needs looking at. */
  lemma MoveKeepsInv(w: World, req: nat, r: Request)
    requires Inv(w) && RequestInv(r, w.row, w.claims, w.now, w.clean)
    requires r.own.Some? ==> Alone(w, req)
    ensures Inv(Put(w, req, r))
  {
  }

  lemma TickKeepsInv(w: World, elapsed: nat)
    requires Inv(w)
    ensures Inv(w.(now := w.now + elapsed))
  {
    var after := w.(now := w.now + elapsed);
    forall q | q in after.requests
      ensures RequestInv(after.requests[q], after.row, after.claims, after.now, after.clean)
    {
      assert RequestInv(w.requests[q], w.row, w.claims, w.now, w.clean);
    }
  }

  lemma SweepKeepsInv(w: World)
    requires Inv(w) && Unlocked(w)
    ensures Inv(w.(row := Swept(w.row, w.now)))
  {
    var after := w.(row := Swept(w.row, w.now));
    forall q | q in after.requests
      ensures RequestInv(after.requests[q], after.row, after.claims, after.now, after.clean)
    {
      assert RequestInv(w.requests[q], w.row, w.claims, w.now, w.clean);
    }
  }

  lemma InsertKeepsInv(w: World, req: nat)
    requires Inv(w) && Enabled(w, Insert(req))
    ensures Inv(Act(w, Insert(req)))
  {
    assert RequestInv(w.requests[req], w.row, w.claims, w.now, w.clean);
    MoveKeepsInv(w, req, InsertedBy(w, w.requests[req]));
  }

  lemma ReadKeepsInv(w: World, req: nat)
    requires Inv(w) && Enabled(w, Read(req))
    ensures Inv(Act(w, Read(req)))
  {
    assert RequestInv(w.requests[req], w.row, w.claims, w.now, w.clean);
    MoveKeepsInv(w, req, ReadBy(w, w.requests[req]));
  }

  lemma ReclaimKeepsInv(w: World, req: nat)
    requires Inv(w) && Enabled(w, Reclaim(req))
    ensures Inv(Act(w, Reclaim(req)))
  {
    assert RequestInv(w.requests[req], w.row, w.claims, w.now, w.clean);
    MoveKeepsInv(w, req, ReclaimedBy(w, w.requests[req]));
  }

  lemma CompleteKeepsInv(w: World, req: nat, status: int, body: string)
    requires Inv(w) && Enabled(w, Complete(req, status, body))
    ensures Inv(Act(w, Complete(req, status, body)))
  {
    assert RequestInv(w.requests[req], w.row, w.claims, w.now, w.clean);
    MoveKeepsInv(w, req, CompletedBy(w, w.requests[req], status, body));
  }

  /** What a commit leaves for the others: they have no uncommitted writes. */
  lemma CommitKeepsOthers(w: World, q: nat, row: Option<Row>, claim: seq<Claim>, clean: bool)
    requires Inv(w) && q in w.requests && w.requests[q].own.None?
    requires |claim| <= 1 && (claim != [] ==> claim[0].committed == w.now) && (clean ==> w.clean)
    requires row.Some? || w.row == row
    ensures RequestInv(w.requests[q], row, w.claims + claim, w.now, clean)
  {
    assert RequestInv(w.requests[q], w.row, w.claims, w.now, w.clean);
  }

  lemma CommitKeepsRow(w: World, req: nat, r: Request)
    requires Inv(w) && req in w.requests && w.requests[req] == r && r.phase.Stored?
    ensures
      var after := CommittedBy(w, req, r);
      ClaimsInv(after.claims, after.now) && RowInv(after.row, after.claims, after.now, after.clean)
  {
    assert RequestInv(r, w.row, w.claims, w.now, w.clean);
  }

  lemma CommitKeepsSelf(w: World, req: nat, r: Request)
    requires Inv(w) && req in w.requests && w.requests[req] == r && r.phase.Stored?
    ensures
      var after := CommittedBy(w, req, r);
      RequestInv(after.requests[req], after.row, after.claims, after.now, after.clean)
  {
    assert RequestInv(r, w.row, w.claims, w.now, w.clean);
  }

  /** It commits a write: no one else has one. */
  lemma WriterCommits(w: World, req: nat, r: Request)
    requires Inv(w) && req in w.requests && w.requests[req] == r && r.phase.Stored? && r.own.Some?
    ensures Inv(CommittedBy(w, req, r))
  {
    var after := CommittedBy(w, req, r);
    CommitKeepsRow(w, req, r);
    CommitKeepsSelf(w, req, r);
    var claim := if r.phase.kind.Lost? then [] else [Claim(req, r.request, r.body, r.now, w.now)];
    forall q | q in w.requests && q != req
      ensures w.requests[q].own.None? && RequestInv(w.requests[q], after.row, after.claims, after.now, after.clean)
    {
      assert w.requests[q].own.None?;
      CommitKeepsOthers(w, q, after.row, claim, after.clean);
      assert after.claims == w.claims + claim;
    }
  }

  lemma CommitKeepsInv(w: World, req: nat)
    requires Inv(w) && Enabled(w, Commit(req))
    ensures Inv(Act(w, Commit(req)))
  {
    var r := w.requests[req];
    if r.own.Some? {
      WriterCommits(w, req, r);
    } else {
      CommitKeepsSelf(w, req, r);
      assert RequestInv(r, w.row, w.claims, w.now, w.clean);
      MoveKeepsInv(w, req, r.(phase := Committed(r.phase.kind, |w.claims|), own := None));
    }
  }

  lemma NextKeepsInv(w: World, a: Action)
    requires Inv(w)
    ensures Inv(Next(w, a))
  {
    if Enabled(w, a) {
      match a
      case Tick(elapsed) => TickKeepsInv(w, elapsed);
      case Insert(req) => InsertKeepsInv(w, req);
      case Read(req) => ReadKeepsInv(w, req);
      case Reclaim(req) => ReclaimKeepsInv(w, req);
      case Complete(req, status, body) => CompleteKeepsInv(w, req, status, body);
      case Commit(req) => CommitKeepsInv(w, req);
      case Sweep => SweepKeepsInv(w);
      case Start(req, _, _) => MoveKeepsInv(w, req, Act(w, a).requests[req]);
      case Rollback(req) =>
        assert RequestInv(w.requests[req], w.row, w.claims, w.now, w.clean);
        MoveKeepsInv(w, req, Act(w, a).requests[req]);
    }
  }

  lemma {:induction false} PlayKeepsInv(w: World, actions: seq<Action>)
    requires Inv(w)
    ensures Inv(Play(w, actions))
    decreases actions
  {
    if actions != [] {
      NextKeepsInv(w, actions[0]);
      PlayKeepsInv(Next(w, actions[0]), actions[1..]);
    }
  }

  // --- At most once ---------------------------------------------------------------------

  /** Every claim was committed before it expired. */
  predicate Timely(claims: seq<Claim>)
  {
    forall i :: 0 <= i < |claims| ==> claims[i].committed <= claims[i].now + TTL
  }

  /** Of a request that committed after some claim had been, the last such claim is
      the one to compare it with: it was told to proceed within that claim's lifetime
      if and only if it had been told before that claim was committed. */
  lemma ProceedsWithinClaimIff(w: World, actions: seq<Action>, req: nat)
    requires Fresh(w) && req in Play(w, actions).requests && Timely(Play(w, actions).claims)
    requires Play(w, actions).requests[req].phase.Committed? && Play(w, actions).requests[req].phase.upto > 0
    ensures
      var end := Play(w, actions);
      var r := end.requests[req];
      var before := r.phase.upto;
      before <= |end.claims| && (r.at <= end.claims[before - 1].now + TTL <==> r.seen < before)
  {
    PlayKeepsInv(w, actions);
    var end := Play(w, actions);
    var r := end.requests[req];
    assert RequestInv(r, end.row, end.claims, end.now, end.clean);
  }

  /** A claim that inserted its row overlaps none: only takeovers of an expired row,
      and claims lost to the collector, can. So a key's first claim is never
      doubled. */
  lemma InsertedNeverOverlaps(w: World, actions: seq<Action>, req: nat)
    requires Fresh(w) && req in Play(w, actions).requests && Play(w, actions).requests[req].phase.Committed?
    ensures
      var r := Play(w, actions).requests[req];
      && (r.phase.kind.Inserted? ==> r.seen == r.phase.upto)
      && (r.seen == 0 ==> r.phase.upto == 0 && r.phase.kind.Inserted?)
  {
    PlayKeepsInv(w, actions);
    var end := Play(w, actions);
    assert RequestInv(end.requests[req], end.row, end.claims, end.now, end.clean);
  }

  // --- What a retry is told -----------------------------------------------------------------

  /** A replay or a mismatch, in a run whose commits each left their own request and
      response: the last claim committed before the read decides it, unexpired, and a
      replay is that claim's own body for an equal request. */
  lemma ReplayIsFaithful(w: World, actions: seq<Action>, req: nat)
    requires Fresh(w) && req in Play(w, actions).requests && Play(w, actions).requests[req].phase.Told?
    requires Play(w, actions).clean
    ensures
      var end := Play(w, actions);
      var r := end.requests[req];
      && 0 < r.seen <= |end.claims| && r.now <= end.claims[r.seen - 1].now + TTL
      && r.phase.answer == if r.request == end.claims[r.seen - 1].request then Replay(end.claims[r.seen - 1].body)
         else Mismatched
  {
    PlayKeepsInv(w, actions);
    var end := Play(w, actions);
    assert RequestInv(end.requests[req], end.row, end.claims, end.now, end.clean);
  }

  /** And once a claim is committed, every request decided in its lifetime with no
      later claim is told so. */
  lemma CommittedIsReplayed(w: World, actions: seq<Action>, req: nat)
    requires Fresh(w) && req in Play(w, actions).requests && Play(w, actions).clean
    requires
      var r := Play(w, actions).requests[req];
      && HasDecided(r.phase) && 0 < r.seen <= |Play(w, actions).claims|
      && r.at <= Play(w, actions).claims[r.seen - 1].now + TTL
    ensures
      var r := Play(w, actions).requests[req];
      var claim := Play(w, actions).claims[r.seen - 1];
      r.phase == Told(if r.request == claim.request then Replay(claim.body) else Mismatched)
  {
    PlayKeepsInv(w, actions);
    var end := Play(w, actions);
    assert RequestInv(end.requests[req], end.row, end.claims, end.now, end.clean);
  }

  /** No request is ever told that another is in progress: a row is only ever
      committed with its response, and an insert waits for it. */
  lemma NeverInProgress(w: World, actions: seq<Action>, req: nat)
    requires Fresh(w) && req in Play(w, actions).requests
    ensures Play(w, actions).requests[req].phase != Told(InProgress)
  {
    PlayKeepsInv(w, actions);
    var end := Play(w, actions);
    assert RequestInv(end.requests[req], end.row, end.claims, end.now, end.clean);
  }

  // --- Whose response is stored ------------------------------------------------------------

  /** A takeover leaves another request's text on the row exactly when its own is the
      one it read, and the row has since been given another. */
  lemma TakeoverMixesIff(w: World, req: nat)
    requires Enabled(w, Reclaim(req)) && w.row.Some?
    ensures
      var r, own := w.requests[req], Act(w, Reclaim(req)).requests[req].own;
      own.Some? && (own.value.request != r.request <==>
        r.phase.row.request == r.request && w.row.value.request != r.request)
  {
  }

  predicate Overlapped(r: Request)
  {
    r.phase.Committed? && (r.phase.kind.Lost? || r.seen < r.phase.upto)
  }

  predicate UnmixedInv(r: Request, row: Option<Row>, n: nat)
  {
    match r.phase
    case Stale(seen) => r.seen == n && row.Some? ==> row.value.request == seen.request
    case Working(kind) => kind.Reclaimed? && r.seen == n && r.own.Some? ==> r.own.value.request == r.request
    case Stored(kind) =>
      && (kind.Reclaimed? && r.seen == n && r.own.Some? ==> r.own.value.request == r.request)
      && (kind.Lost? && r.own.Some? ==> row.Some? && r.own.value.request == row.value.request)
    case _ => true
  }

  ghost predicate MixInv(w: World)
  {
    && (forall q :: q in w.requests ==> UnmixedInv(w.requests[q], w.row, |w.claims|))
    && (!w.clean ==> exists q :: q in w.requests && Overlapped(w.requests[q]))
  }

  lemma MoveKeepsMix(w: World, req: nat, r: Request)
    requires MixInv(w) && UnmixedInv(r, w.row, |w.claims|)
    requires req in w.requests ==> !Overlapped(w.requests[req])
    ensures MixInv(Put(w, req, r))
  {
    if !w.clean {
      var q :| q in w.requests && Overlapped(w.requests[q]);
      assert Put(w, req, r).requests[q] == w.requests[q];
    }
  }

  lemma CommitKeepsMix(w: World, req: nat)
    requires Inv(w) && MixInv(w) && Enabled(w, Commit(req))
    ensures MixInv(Act(w, Commit(req)))
  {
    var r, after := w.requests[req], Act(w, Commit(req));
    assert RequestInv(r, w.row, w.claims, w.now, w.clean) && UnmixedInv(r, w.row, |w.claims|);
    forall q | q in w.requests && q != req
      ensures UnmixedInv(w.requests[q], after.row, |after.claims|)
    {
      assert RequestInv(w.requests[q], w.row, w.claims, w.now, w.clean) && UnmixedInv(w.requests[q], w.row, |w.claims|);
    }
    if !after.clean {
      if w.clean {
        assert Overlapped(after.requests[req]);
      } else {
        var q :| q in w.requests && Overlapped(w.requests[q]);
        assert Overlapped(after.requests[q]);
      }
    }
  }

  lemma NextKeepsMix(w: World, a: Action)
    requires Inv(w) && MixInv(w)
    ensures MixInv(Next(w, a))
  {
    if Enabled(w, a) {
      match a
      case Tick(_) =>
      case Sweep =>
      case Start(req, _, _) => MoveKeepsMix(w, req, Act(w, a).requests[req]);
      case Commit(req) => CommitKeepsMix(w, req);
      case Insert(req) => MoveKeepsMix(w, req, InsertedBy(w, w.requests[req]));
      case Read(req) => MoveKeepsMix(w, req, ReadBy(w, w.requests[req]));
      case Reclaim(req) => MoveKeepsMix(w, req, ReclaimedBy(w, w.requests[req]));
      case Complete(req, status, body) => CompleteKeepsMix(w, req, status, body);
      case Rollback(req) => MoveKeepsMix(w, req, Act(w, a).requests[req]);
    }
  }

  lemma CompleteKeepsMix(w: World, req: nat, status: int, body: string)
    requires Inv(w) && MixInv(w) && Enabled(w, Complete(req, status, body))
    ensures MixInv(Act(w, Complete(req, status, body)))
  {
    var r := w.requests[req];
    assert RequestInv(r, w.row, w.claims, w.now, w.clean) && UnmixedInv(r, w.row, |w.claims|);
    MoveKeepsMix(w, req, CompletedBy(w, r, status, body));
  }

  lemma {:induction false} PlayKeepsMix(w: World, actions: seq<Action>)
    requires Inv(w) && MixInv(w)
    ensures MixInv(Play(w, actions))
    decreases actions
  {
    if actions != [] {
      NextKeepsInv(w, actions[0]);
      NextKeepsMix(w, actions[0]);
      PlayKeepsMix(Next(w, actions[0]), actions[1..]);
    }
  }

  /** A run in which no committed request overlapped another's claim, or lost its own,
      is one in which every replay is faithful. */
  lemma CleanUnlessOverlapped(w: World, actions: seq<Action>)
    requires Fresh(w)
    requires forall q :: q in Play(w, actions).requests ==> !Overlapped(Play(w, actions).requests[q])
    ensures Play(w, actions).clean
  {
    PlayKeepsMix(w, actions);
  }

  // --- Overlaps do it ---------------------------------------------------------------------------

  lemma PlayCons(w: World, a: Action, rest: seq<Action>)
    ensures Play(w, [a] + rest) == Play(Next(w, a), rest)
  {
    assert ([a] + rest)[1..] == rest;
  }

  /** A request that has read the row as expired. */
  predicate HasRead(w: World, q: nat, request: string, seen: Row, now: int)
  {
    q in w.requests && w.requests[q].phase == Stale(seen) && w.requests[q].request == request
    && w.requests[q].now == now && w.requests[q].own.None?
  }

  /** Three steps to have read: nothing is written on the way. */
  function Reads(q: nat, request: string, endpoint: string): seq<Action>
  {
    [Start(q, request, endpoint), Insert(q), Read(q)]
  }

  lemma OneReads(w: World, q: nat, request: string, endpoint: string)
    requires q !in w.requests && Unlocked(w) && w.row.Some? && w.row.value.expires < w.now
    ensures
      var end := Play(w, Reads(q, request, endpoint));
      && HasRead(end, q, request, w.row.value, w.now) && Unlocked(end)
      && end == w.(requests := w.requests[q := end.requests[q]])
      && end.requests[q].seen == |w.claims|
  {
    PlayCons(w, Start(q, request, endpoint), [Insert(q), Read(q)]);
    PlayCons(Next(w, Start(q, request, endpoint)), Insert(q), [Read(q)]);
    PlayCons(Next(Next(w, Start(q, request, endpoint)), Insert(q)), Read(q), []);
    assert Reads(q, request, endpoint) == [Start(q, request, endpoint)] + ([Insert(q)] + ([Read(q)] + []));
  }

  function Writes(q: nat, status: int, body: string): seq<Action>
  {
    [Reclaim(q), Complete(q, status, body), Commit(q)]
  }

  /** And three to have taken the key over, if no other transaction has written. */
  lemma OneWrites(w: World, q: nat, seen: Row, status: int, body: string)
    requires q in w.requests && HasRead(w, q, w.requests[q].request, seen, w.requests[q].now) && Unlocked(w)
    requires w.row.Some?
    ensures
      var end := Play(w, Writes(q, status, body));
      var r := w.requests[q];
      && Unlocked(end) && q in end.requests && end.requests[q].phase == Committed(Reclaimed, |w.claims|)
      && end.requests[q].request == r.request
      && (forall p :: p != q ==> (p in end.requests <==> p in w.requests))
      && (forall p :: p in w.requests && p != q ==> end.requests[p] == w.requests[p])
      && end.claims == w.claims + [Claim(q, r.request, body, r.now, w.now)] && end.now == w.now
      && end.row.Some? && end.row.value.response == Some(body)
      && end.row.value.request == (if r.request != seen.request then r.request else w.row.value.request)
      && (seen.expires < r.now ==> end.row.value.expires == r.now + TTL)
  {
    TakesOver(w, q, seen, status, body);
    PlayCons(w, Reclaim(q), [Complete(q, status, body), Commit(q)]);
    PlayCons(Next(w, Reclaim(q)), Complete(q, status, body), [Commit(q)]);
    PlayCons(Next(Next(w, Reclaim(q)), Complete(q, status, body)), Commit(q), []);
    assert Writes(q, status, body) == [Reclaim(q)] + ([Complete(q, status, body)] + ([Commit(q)] + []));
  }

  lemma TakesOver(w: World, q: nat, seen: Row, status: int, body: string)
    requires q in w.requests && w.requests[q].phase == Stale(seen) && Unlocked(w) && w.row.Some?
    ensures
      var r := w.requests[q];
      var taken := Patched(w.row.value, seen, Claimed(r.request, r.endpoint, r.now));
      Next(Next(Next(w, Reclaim(q)), Complete(q, status, body)), Commit(q)) == World(
        w.now, Idempotency.Completed(Some(taken), status, body),
        w.requests[q := r.(phase := Committed(Reclaimed, |w.claims|), own := None, body := body)],
        w.claims + [Claim(q, r.request, body, r.now, w.now)], w.clean && taken.request == r.request)
  {
    var r := w.requests[q];
    var taken := Patched(w.row.value, seen, Claimed(r.request, r.endpoint, r.now));
    var a := Next(w, Reclaim(q));
    assert a.requests[q] == r.(phase := Working(Reclaimed), own := Some(taken));
    var b := Next(a, Complete(q, status, body));
    assert b.requests[q] ==
      r.(phase := Stored(Reclaimed), own := Idempotency.Completed(Some(taken), status, body), body := body);
    assert b.requests == w.requests[q := b.requests[q]];
  }

  /** Whenever a key holds an expired row, two requests that both read it before
      either commits are both told to proceed, and both commit their work, at one
      instant. */
  lemma OverlapProceedsTwice(w: World, a: nat, b: nat, first: string, second: string, endpoint: string,
                             status: int, one: string, two: string)
    requires a != b && a !in w.requests && b !in w.requests && Unlocked(w) && w.row.Some? && w.row.value.expires < w.now
    ensures
      var read := Play(Play(w, Reads(a, first, endpoint)), Reads(b, second, endpoint));
      var end := Play(Play(read, Writes(a, status, one)), Writes(b, status, two));
      && a in end.requests && b in end.requests && end.now == w.now
      && end.requests[a].phase == Committed(Reclaimed, |w.claims|)
      && end.requests[b].phase == Committed(Reclaimed, |w.claims| + 1)
      && end.row.Some? && end.row.value.response == Some(two) && end.row.value.expires == w.now + TTL
      && (second == w.row.value.request != first ==> end.row.value.request == first)
  {
    OneReads(w, a, first, endpoint);
    var afterA := Play(w, Reads(a, first, endpoint));
    OneReads(afterA, b, second, endpoint);
    var read := Play(afterA, Reads(b, second, endpoint));
    OneWrites(read, a, w.row.value, status, one);
    OneWrites(Play(read, Writes(a, status, one)), b, w.row.value, status, two);
  }

  /** A request that met an expired row, lost it to the collector, and completes after
      another has claimed the key, leaves its response on the other's row. */
  lemma LostCompletionLandsOnOther(w: World, q: nat, status: int, body: string)
    requires q in w.requests && w.requests[q].phase == Working(Lost) && w.requests[q].own.None?
    requires Unlocked(w) && w.row.Some?
    ensures
      var end := Next(Next(w, Complete(q, status, body)), Commit(q));
      end.row == Some(w.row.value.(status := Some(status), response := Some(body)))
  {
  }

  /** How a claim is lost: the row goes between the insert and the read. A second
      request then proceeds at once. */
  lemma LostClaimProceedsTwice(w: World, a: nat, b: nat, request: string, endpoint: string)
    requires a != b && a !in w.requests && b !in w.requests && Unlocked(w) && w.row.Some? && w.row.value.expires < w.now
    ensures
      var lost := Next(Next(Next(Next(w, Start(a, request, endpoint)), Insert(a)), Sweep), Read(a));
      var end := Next(Next(lost, Start(b, request, endpoint)), Insert(b));
      && a in end.requests && b in end.requests
      && end.requests[a].phase == Working(Lost) && end.requests[b].phase == Working(Inserted)
  {
  }

  // --- One request alone --------------------------------------------------------------------------

  lemma AloneInserts(w: World, q: nat, request: string, endpoint: string, status: int, body: string)
    requires q !in w.requests && Unlocked(w) && w.row.None?
    ensures
      var inserted := Next(Next(w, Start(q, request, endpoint)), Insert(q));
      var end := Next(Next(inserted, Complete(q, status, body)), Commit(q));
      && Next(Next(inserted, Read(q)), Reclaim(q)) == inserted
      && end.row == Idempotency.Completed(Some(Claimed(request, endpoint, w.now)), status, body)
      && q in end.requests && end.requests[q].phase.Committed?
  {
    var inserted := Next(Next(w, Start(q, request, endpoint)), Insert(q));
    assert inserted.requests[q].phase == Working(Inserted);
  }

  lemma AloneReads(w: World, q: nat, request: string, endpoint: string)
    requires q !in w.requests && Unlocked(w) && w.row.Some?
    ensures
      var end := Next(Next(Next(w, Start(q, request, endpoint)), Insert(q)), Read(q));
      && end == w.(requests := w.requests[q := end.requests[q]]) && Unlocked(end)
      && end.requests[q] == Request(request, endpoint, w.now,
           if w.row.value.expires < w.now then Stale(w.row.value)
           else Told(AnswerFor(w.row.value, request)), None, "", |w.claims|, w.now)
  {
  }

  /** A request with nothing between its steps is served as `Served` says. */
  lemma AloneIsServed(w: World, q: nat, request: string, endpoint: string, status: int, body: string)
    requires q !in w.requests && Unlocked(w)
    ensures
      var decided := Next(Next(Next(w, Start(q, request, endpoint)), Insert(q)), Read(q));
      var end := Next(Next(Next(decided, Reclaim(q)), Complete(q, status, body)), Commit(q));
      var (row, answer) := Served(w.row, endpoint, request, Some((status, body)), w.now);
      && end.row == row && q in end.requests
      && (answer.Proceed? <==> end.requests[q].phase.Committed?)
      && (!answer.Proceed? ==> end.requests[q].phase == Told(answer))
  {
    if w.row.None? {
      AloneInserts(w, q, request, endpoint, status, body);
    } else {
      AloneReads(w, q, request, endpoint);
      var decided := Next(Next(Next(w, Start(q, request, endpoint)), Insert(q)), Read(q));
      if w.row.value.expires < w.now {
        TakesOver(decided, q, w.row.value, status, body);
      } else {
        Finished(decided, q, status, body);
      }
    }
  }

  lemma Finished(w: World, q: nat, status: int, body: string)
    requires q in w.requests && w.requests[q].phase.Told?
    ensures Next(Next(Next(w, Reclaim(q)), Complete(q, status, body)), Commit(q)) == w
  {
  }
}
