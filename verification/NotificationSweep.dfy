/**
 Concurrent sweeps, send-nows and cancels over one database, step by step, with
 row locks, SKIP LOCKED, failed fan-outs and lost transactions: every campaign
 reaches its audience exactly once or not at all.
 */
module NotificationSweep {
  import opened Options
  import opened Notifications

  datatype Db = Db(
    now: int,
    accounts: map<nat, Account>,
    campaigns: map<nat, Campaign>,            // committed
    inbox: map<nat, multiset<nat>>,           // committed rows, by campaign: one entry per row, its user
    sentTo: map<nat, set<nat>>,               // history: whom a committed fan-out saw
    txns: map<nat, Txn>)                      // open transactions, by session

  datatype Action =
    | Tick(elapsed: nat)
    | SetAccount(user: nat, account: Account)
    | Schedule(id: nat, audience: Audience, when: int)
    | BeginSendNow(session: nat, id: nat, audience: Audience)
    | BeginSweep(session: nat, due: seq<nat>)
    | BeginCancel(session: nat, id: nat)
    | Fanout(session: nat, result: Result)
    | Commit(session: nat)
    | Crash(session: nat)                     // the transaction is rolled back

  predicate Locked(db: Db, id: nat)
  {
    exists s :: s in db.txns && id in db.txns[s].held
  }

  predicate Due(db: Db, id: nat)
  {
    id in db.campaigns && db.campaigns[id].status == SCHEDULED && db.campaigns[id].scheduledFor <= db.now
  }

  /** SELECT ... WHERE due ORDER BY scheduled_for FOR UPDATE SKIP LOCKED LIMIT 20. */
  ghost predicate Selects(db: Db, due: seq<nat>)
  {
    && (forall id :: id in due ==> Due(db, id) && !Locked(db, id))
    && (forall i, j | 0 <= i < j < |due| ::
          due[i] in due && due[j] in due
          && due[i] != due[j] && db.campaigns[due[i]].scheduledFor <= db.campaigns[due[j]].scheduledFor)
    && |due| <= SWEEP_LIMIT
    && (forall id :: Due(db, id) && !Locked(db, id) && id !in due ==>
          |due| == SWEEP_LIMIT && forall d :: d in due ==>
            db.campaigns[d].scheduledFor <= db.campaigns[id].scheduledFor)
  }

  /** An id no row has, committed or not. */
  predicate Unused(db: Db, id: nat)
  {
    id !in db.campaigns && forall s :: s in db.txns ==> id !in db.txns[s].writes
  }

  ghost predicate Enabled(db: Db, a: Action)
  {
    match a
    case Tick(_) => true
    case SetAccount(_, _) => true
    case Schedule(id, _, when) => Unused(db, id) && ScheduleProblem(when, db.now).None?
    case BeginSendNow(session, id, _) => session !in db.txns && Unused(db, id)
    case BeginSweep(session, due) => session !in db.txns && Selects(db, due)
    case BeginCancel(session, id) =>
      session !in db.txns && id in db.campaigns && !Locked(db, id) && db.campaigns[id].status == SCHEDULED
    case Fanout(session, result) =>
      && session in db.txns && db.txns[session].queue != [] && Knows(db, session, db.txns[session].queue[0])
      && (result.Delivered? ==> result.at == db.now)
    case Commit(session) => session in db.txns && db.txns[session].queue == []
    case Crash(session) => session in db.txns
  }

  predicate Knows(db: Db, session: nat, id: nat)
    requires session in db.txns
  {
    id in db.txns[session].writes || id in db.campaigns
  }

  /** A row as its own transaction sees it. */
  function SeenBy(db: Db, session: nat, id: nat): Campaign
    requires session in db.txns && Knows(db, session, id)
  {
    if id in db.txns[session].writes then db.txns[session].writes[id] else db.campaigns[id]
  }

  function Act(db: Db, a: Action): Db
    requires Enabled(db, a)
  {
    match a
    case Tick(elapsed) => db.(now := db.now + elapsed)
    case SetAccount(user, account) => db.(accounts := db.accounts[user := account])
    case Schedule(id, audience, when) =>
      db.(campaigns := db.campaigns[id := Planned(audience, when)])
    case BeginSendNow(session, id, audience) =>
      db.(txns := db.txns[session := Txn({}, [id], map[id := Planned(audience, db.now)], map[], map[])])
    case BeginSweep(session, due) =>
      db.(txns := db.txns[session := Txn((set id | id in due), due, map[], map[], map[])])
    case BeginCancel(session, id) =>
      db.(txns := db.txns[session := Txn({id}, [], map[id := db.campaigns[id].(status := CANCELLED)], map[], map[])])
    case Fanout(session, result) =>
      var t := db.txns[session];
      var id := t.queue[0];
      db.(txns := db.txns[session :=
            Dispatched(t.(queue := t.queue[1..]), id, SeenBy(db, session, id), db.accounts, result)])
    case Commit(session) =>
      var t := db.txns[session];
      db.(campaigns := db.campaigns + t.writes, inbox := db.inbox + t.inbox,
          sentTo := db.sentTo + t.audienceAt, txns := db.txns - {session})
    case Crash(session) => db.(txns := db.txns - {session})
  }

  ghost function Next(db: Db, a: Action): Db
  {
    if Enabled(db, a) then Act(db, a) else db
  }

  ghost function Play(db: Db, actions: seq<Action>): Db
    decreases actions
  {
    if actions == [] then db else Play(Next(db, actions[0]), actions[1..])
  }

  /** No campaign yet. */
  ghost predicate Fresh(db: Db)
  {
    db.campaigns == map[] && db.inbox == map[] && db.sentTo == map[] && db.txns == map[]
  }

  // --- The invariant ------------------------------------------------------------

  /** A campaign's rows, given whom its fan-out saw: one per audience member if it
      was sent, and none otherwise. */
  ghost predicate ExactlyOnce(c: Campaign, rows: multiset<nat>, sentTo: Option<set<nat>>)
  {
    if c.status == SENT then
      sentTo.Some? && rows == multiset(sentTo.value) && c.recipientCount == |sentTo.value| && c.sentAt.Some?
      && c.failure.None?
    else
      rows == multiset{} && c.recipientCount == 0 && c.pushCount == 0 && c.sentAt.None?
      && (c.failure.Some? <==> c.status == FAILED)
  }

  function Get<V>(m: map<nat, V>, id: nat): Option<V>
  {
    if id in m then Some(m[id]) else None
  }

  ghost predicate CommittedInv(db: Db)
  {
    && (forall id :: id in db.campaigns ==>
          ExactlyOnce(db.campaigns[id], RowsOf(db.inbox, id), Get(db.sentTo, id)))
    && (forall id :: id !in db.campaigns ==> id !in db.inbox)
  }

  /** What one open transaction has locked and has still to do. */
  ghost predicate QueueInv(db: Db, t: Txn)
  {
    && (forall id :: id in t.held ==> id in db.campaigns && db.campaigns[id].status == SCHEDULED)
    && (forall i, j :: 0 <= i < j < |t.queue| ==> t.queue[i] != t.queue[j])
    && (forall id :: id in t.queue ==> QueuedInv(t, id))
  }

  /** Scheduled, and nothing recorded of any fan-out. */
  predicate Untouched(c: Campaign)
  {
    c.status == SCHEDULED && c.recipientCount == 0 && c.pushCount == 0 && c.sentAt.None? && c.failure.None?
  }

  predicate QueuedInv(t: Txn, id: nat)
  {
    && id !in t.inbox && id !in t.audienceAt && (id in t.held || id in t.writes)
    && (id in t.writes ==> Untouched(t.writes[id]))
  }

  /** What it has written: only rows it locked or created, each finished. */
  ghost predicate WrittenInv(db: Db, t: Txn)
  {
    && (forall id :: id in t.inbox || id in t.audienceAt ==> id in t.writes)
    && (forall id :: id in t.writes ==> (id in t.held <==> id in db.campaigns))
    && (forall id :: id in t.writes && id !in t.queue ==>
          t.writes[id].status != SCHEDULED && ExactlyOnce(t.writes[id], RowsOf(t.inbox, id), Get(t.audienceAt, id)))
  }

  ghost predicate TxnInv(db: Db, t: Txn)
  {
    QueueInv(db, t) && WrittenInv(db, t)
  }

  /** Locks and uncommitted rows belong to one transaction each. */
  ghost predicate Separate(db: Db)
  {
    forall s, r | s in db.txns && r in db.txns && s != r ::
      db.txns[s].held !! db.txns[r].held && db.txns[s].writes.Keys !! db.txns[r].writes.Keys
  }

  ghost predicate Inv(db: Db)
  {
    CommittedInv(db) && Separate(db) && forall s :: s in db.txns ==> TxnInv(db, db.txns[s])
  }

  lemma TxnInvFrame(db: Db, db': Db, t: Txn)
    requires TxnInv(db, t) && db'.campaigns == db.campaigns
    ensures TxnInv(db', t)
  {
  }

  /** Opening or rewriting one transaction. */
  lemma PutTxnKeepsInv(db: Db, session: nat, t: Txn)
    requires Inv(db) && TxnInv(db, t)
    requires forall s :: s in db.txns && s != session ==>
      db.txns[s].held !! t.held && db.txns[s].writes.Keys !! t.writes.Keys
    ensures Inv(db.(txns := db.txns[session := t]))
  {
    var db' := db.(txns := db.txns[session := t]);
    forall s | s in db'.txns
      ensures TxnInv(db', db'.txns[s])
    {
      TxnInvFrame(db, db', db'.txns[s]);
    }
  }

  lemma SweepBegins(db: Db, session: nat, due: seq<nat>)
    requires Inv(db) && Enabled(db, BeginSweep(session, due))
    ensures Inv(Act(db, BeginSweep(session, due)))
  {
    forall s | s in db.txns
      ensures db.txns[s].held !! (set id | id in due)
    {
      forall id | id in db.txns[s].held ensures id !in due { assert Locked(db, id); }
    }
    PutTxnKeepsInv(db, session, Act(db, BeginSweep(session, due)).txns[session]);
  }

  lemma CancelBegins(db: Db, session: nat, id: nat)
    requires Inv(db) && Enabled(db, BeginCancel(session, id))
    ensures Inv(Act(db, BeginCancel(session, id)))
  {
    forall s | s in db.txns
      ensures id !in db.txns[s].held && id !in db.txns[s].writes
    {
      assert TxnInv(db, db.txns[s]);
    }
    PutTxnKeepsInv(db, session, Act(db, BeginCancel(session, id)).txns[session]);
  }

  lemma FanoutKeepsQueue(db: Db, t: Txn, campaign: Campaign, result: Result)
    requires QueueInv(db, t) && t.queue != []
    ensures QueueInv(db, Dispatched(t.(queue := t.queue[1..]), t.queue[0], campaign, db.accounts, result))
    ensures t.queue[0] !in t.queue[1..]
  {
    var id := t.queue[0];
    var t' := Dispatched(t.(queue := t.queue[1..]), id, campaign, db.accounts, result);
    assert id !in t'.queue;
    forall other | other in t'.queue
      ensures QueuedInv(t', other)
    {
      assert other in t.queue && QueuedInv(t, other);
    }
  }

  /** The one step that writes inbox rows: the campaign it dispatches had none. */
  lemma FanoutWritesOnce(t: Txn, id: nat, campaign: Campaign, accounts: map<nat, Account>, result: Result)
    requires QueuedInv(t, id) && Untouched(campaign)
    ensures
      var t' := Dispatched(t, id, campaign, accounts, result);
      id in t'.writes && t'.writes[id].status != SCHEDULED
      && ExactlyOnce(t'.writes[id], RowsOf(t'.inbox, id), Get(t'.audienceAt, id))
  {
  }

  lemma FanoutKeepsTxn(db: Db, t: Txn, campaign: Campaign, result: Result)
    requires TxnInv(db, t) && t.queue != []
    requires Untouched(campaign)
    ensures TxnInv(db, Dispatched(t.(queue := t.queue[1..]), t.queue[0], campaign, db.accounts, result))
  {
    var id, rest := t.queue[0], t.(queue := t.queue[1..]);
    var t' := Dispatched(rest, id, campaign, db.accounts, result);
    FanoutKeepsQueue(db, t, campaign, result);
    assert id in t.queue && QueuedInv(t, id) && QueuedInv(rest, id);
    FanoutWritesOnce(rest, id, campaign, db.accounts, result);
    forall other | other in t'.writes && other !in t'.queue
      ensures t'.writes[other].status != SCHEDULED
      ensures ExactlyOnce(t'.writes[other], RowsOf(t'.inbox, other), Get(t'.audienceAt, other))
    {
      if other != id { assert other !in t.queue; }
    }
  }

  /** No other transaction has written the row this one is about to dispatch. */
  lemma QueuedIsOwn(db: Db, session: nat, other: nat, id: nat)
    requires Inv(db) && session in db.txns && other in db.txns && session != other
    requires id in db.txns[session].queue
    ensures id !in db.txns[other].writes
  {
  }

  lemma RewrittenTxnKeepsInv(db: Db, session: nat, id: nat, after: Txn)
    requires Inv(db) && session in db.txns && id in db.txns[session].queue && TxnInv(db, after)
    requires after.held == db.txns[session].held && after.writes.Keys == db.txns[session].writes.Keys + {id}
    ensures Inv(db.(txns := db.txns[session := after]))
  {
    forall s | s in db.txns && s != session
      ensures db.txns[s].held !! after.held && db.txns[s].writes.Keys !! after.writes.Keys
    {
      QueuedIsOwn(db, session, s, id);
    }
    PutTxnKeepsInv(db, session, after);
  }

  lemma QueuedIsFresh(db: Db, session: nat)
    requires Inv(db) && session in db.txns && db.txns[session].queue != []
    requires Knows(db, session, db.txns[session].queue[0])
    ensures
      Untouched(SeenBy(db, session, db.txns[session].queue[0]))
  {
    var t := db.txns[session];
    var id := t.queue[0];
    assert TxnInv(db, t) && id in t.queue && QueuedInv(t, id);
    assert id in t.writes || ExactlyOnce(db.campaigns[id], RowsOf(db.inbox, id), Get(db.sentTo, id));
  }

  lemma FanoutKeepsInv(db: Db, session: nat, result: Result)
    requires Inv(db) && session in db.txns && db.txns[session].queue != []
    requires Knows(db, session, db.txns[session].queue[0])
    ensures
      var t := db.txns[session];
      var t' := Dispatched(t.(queue := t.queue[1..]), t.queue[0], SeenBy(db, session, t.queue[0]), db.accounts, result);
      Inv(db.(txns := db.txns[session := t']))
  {
    var t := db.txns[session];
    var id := t.queue[0];
    var campaign := SeenBy(db, session, id);
    QueuedIsFresh(db, session);
    FanoutKeepsTxn(db, t, campaign, result);
    var t' := Dispatched(t.(queue := t.queue[1..]), id, campaign, db.accounts, result);
    RewrittenTxnKeepsInv(db, session, id, t');
  }

  lemma CommitKeepsInv(db: Db, session: nat)
    requires Inv(db) && Enabled(db, Commit(session))
    ensures Inv(Act(db, Commit(session)))
  {
    var t := db.txns[session];
    var db' := Act(db, Commit(session));
    assert TxnInv(db, t);
    forall id | id in db'.campaigns
      ensures ExactlyOnce(db'.campaigns[id], RowsOf(db'.inbox, id), Get(db'.sentTo, id))
    {
      CommitOfOne(db, t, id);
    }
    forall s | s in db'.txns
      ensures TxnInv(db', db'.txns[s])
    {
      assert TxnInv(db, db.txns[s]);
    }
  }

  lemma CommitOfOne(db: Db, t: Txn, id: nat)
    requires CommittedInv(db) && TxnInv(db, t) && t.queue == []
    requires id in db.campaigns || id in t.writes
    ensures
      ExactlyOnce((db.campaigns + t.writes)[id], RowsOf(db.inbox + t.inbox, id), Get(db.sentTo + t.audienceAt, id))
  {
    if id in t.writes {
      assert RowsOf(db.inbox, id) == multiset{};
      assert RowsOf(db.inbox + t.inbox, id) == RowsOf(t.inbox, id);
    } else {
      assert id !in t.inbox && id !in t.audienceAt;
    }
  }

  lemma ScheduleKeepsInv(db: Db, id: nat, c: Campaign)
    requires Inv(db) && Unused(db, id) && Untouched(c)
    ensures Inv(db.(campaigns := db.campaigns[id := c]))
  {
    var db' := db.(campaigns := db.campaigns[id := c]);
    forall s | s in db.txns
      ensures TxnInv(db', db.txns[s])
    {
      assert TxnInv(db, db.txns[s]);
    }
  }

  lemma NextKeepsInv(db: Db, a: Action)
    requires Inv(db)
    ensures Inv(Next(db, a))
  {
    if Enabled(db, a) {
      var db' := Act(db, a);
      match a
      case BeginSendNow(session, id, _) => PutTxnKeepsInv(db, session, db'.txns[session]);
      case BeginSweep(session, due) => SweepBegins(db, session, due);
      case BeginCancel(session, id) => CancelBegins(db, session, id);
      case Fanout(session, result) => FanoutKeepsInv(db, session, result);
      case Commit(session) => CommitKeepsInv(db, session);
      case Schedule(id, audience, when) => ScheduleKeepsInv(db, id, Planned(audience, when));
      case _ =>
        forall s | s in db'.txns ensures TxnInv(db', db'.txns[s]) { TxnInvFrame(db, db', db.txns[s]); }
    }
  }

  lemma {:induction false} PlayKeepsInv(db: Db, actions: seq<Action>)
    requires Inv(db)
    ensures Inv(Play(db, actions))
    decreases actions
  {
    if actions != [] {
      NextKeepsInv(db, actions[0]);
      PlayKeepsInv(Next(db, actions[0]), actions[1..]);
    }
  }

  // --- What a run can show ---------------------------------------------------------

  /** In every reachable state, a SENT campaign has one committed inbox row for
      each member its fan-out saw, no other rows, and counts them; a scheduled,
      failed or cancelled one has none. */
  lemma FanoutExactlyOnce(db: Db, actions: seq<Action>, id: nat)
    requires Fresh(db) && id in Play(db, actions).campaigns
    ensures
      var end := Play(db, actions);
      var c, rows := end.campaigns[id], RowsOf(end.inbox, id);
      if c.status == SENT then
        && id in end.sentTo && c.recipientCount == |end.sentTo[id]| && c.sentAt.Some? && c.failure.None?
        && forall user :: rows[user] == if user in end.sentTo[id] then 1 else 0
      else
        && rows == multiset{} && c.recipientCount == 0 && c.pushCount == 0 && c.sentAt.None?
        && (c.failure.Some? <==> c.status == FAILED)
  {
    PlayKeepsInv(db, actions);
    var end := Play(db, actions);
    assert ExactlyOnce(end.campaigns[id], RowsOf(end.inbox, id), Get(end.sentTo, id));
  }

  lemma {:induction false} PlayLast(db: Db, actions: seq<Action>)
    requires actions != []
    ensures Play(db, actions) == Next(Play(db, actions[..|actions| - 1]), actions[|actions| - 1])
    decreases actions
  {
    var n := |actions| - 1;
    if n > 0 {
      PlayLast(Next(db, actions[0]), actions[1..]);
      assert actions[..n][1..] == actions[1..][..n - 1];
    }
  }

  /** The step at `k` ran this campaign's fan-out, and it saw these users. */
  ghost predicate FannedOutAt(db: Db, actions: seq<Action>, k: nat, id: nat, c: Campaign, users: set<nat>)
    requires k < |actions|
  {
    var before := Play(db, actions[..k]);
    && actions[k].Fanout? && actions[k].result.Delivered? && Enabled(before, actions[k])
    && before.txns[actions[k].session].queue[0] == id
    && users == AudienceOf(before.accounts, c.audience) && c.sentAt == Some(before.now)
  }

  ghost predicate FannedOut(db: Db, actions: seq<Action>, id: nat, c: Campaign, users: Option<set<nat>>)
  {
    users.Some? && exists k: nat :: k < |actions| && FannedOutAt(db, actions, k, id, c, users.value)
  }

  lemma FannedOutStays(db: Db, actions: seq<Action>, id: nat, c: Campaign, users: Option<set<nat>>)
    requires actions != [] && FannedOut(db, actions[..|actions| - 1], id, c, users)
    ensures FannedOut(db, actions, id, c, users)
  {
    var front := actions[..|actions| - 1];
    var k: nat :| k < |front| && FannedOutAt(db, front, k, id, c, users.value);
    assert front[..k] == actions[..k] && front[k] == actions[k];
    assert FannedOutAt(db, actions, k, id, c, users.value);
  }

  /** Every SENT row, committed or not, comes from such a step. */
  ghost predicate SentFrom(db: Db, actions: seq<Action>, end: Db)
  {
    && (forall id :: id in end.campaigns && end.campaigns[id].status == SENT ==>
          FannedOut(db, actions, id, end.campaigns[id], Get(end.sentTo, id)))
    && (forall s, id :: s in end.txns && id in end.txns[s].writes && end.txns[s].writes[id].status == SENT ==>
          FannedOut(db, actions, id, end.txns[s].writes[id], Get(end.txns[s].audienceAt, id)))
  }

  /** What a step adds: SENT rows move from a transaction to the tables, and only a
      fan-out makes one. */
  lemma StepSends(before: Db, a: Action, id: nat)
    requires Inv(before)
    ensures
      var after := Next(before, a);
      && (id in after.campaigns && after.campaigns[id].status == SENT ==>
            || (id in before.campaigns && after.campaigns[id] == before.campaigns[id]
               && Get(after.sentTo, id) == Get(before.sentTo, id))
            || (a.Commit? && a.session in before.txns && id in before.txns[a.session].writes
                && after.campaigns[id] == before.txns[a.session].writes[id]
                && Get(after.sentTo, id) == Get(before.txns[a.session].audienceAt, id)))
  {
    if Enabled(before, a) && a.Commit? {
      var t := before.txns[a.session];
      assert TxnInv(before, t);
      if id in t.writes && t.writes[id].status == SENT {
        assert ExactlyOnce(t.writes[id], RowsOf(t.inbox, id), Get(t.audienceAt, id));
      }
    }
  }

  lemma StepWrites(before: Db, a: Action, s: nat, id: nat)
    requires Inv(before) && s in Next(before, a).txns && id in Next(before, a).txns[s].writes
    requires Next(before, a).txns[s].writes[id].status == SENT
    ensures
      var t := Next(before, a).txns[s];
      || (s in before.txns && id in before.txns[s].writes && t.writes[id] == before.txns[s].writes[id]
          && Get(t.audienceAt, id) == Get(before.txns[s].audienceAt, id))
      || (a.Fanout? && a.session == s && a.result.Delivered? && Enabled(before, a) && before.txns[s].queue[0] == id
          && Get(t.audienceAt, id) == Some(AudienceOf(before.accounts, t.writes[id].audience))
          && t.writes[id].sentAt == Some(before.now))
  {
    if Enabled(before, a) {
      match a
      case Fanout(session, result) =>
        if session == s {
          var t := before.txns[s];
          DispatchWrites(t, t.queue[0], SeenBy(before, s, t.queue[0]), before.accounts, result, id);
        }
      case _ =>
    }
  }

  lemma DispatchWrites(t: Txn, first: nat, c: Campaign, accounts: map<nat, Account>, result: Result, id: nat)
    requires t.queue != [] && id in Dispatched(t.(queue := t.queue[1..]), first, c, accounts, result).writes
    ensures
      var after := Dispatched(t.(queue := t.queue[1..]), first, c, accounts, result);
      && (id != first ==>
          id in t.writes && after.writes[id] == t.writes[id] && Get(after.audienceAt, id) == Get(t.audienceAt, id))
      && (id == first && result.Delivered? ==>
            && Get(after.audienceAt, id) == Some(AudienceOf(accounts, after.writes[id].audience))
            && after.writes[id].sentAt == Some(result.at))
      && (id == first && result.Broken? ==> after.writes[id].status == FAILED)
  {
  }

  lemma {:induction false} SentComesFromFanout(db: Db, actions: seq<Action>)
    requires Fresh(db)
    ensures SentFrom(db, actions, Play(db, actions))
    decreases |actions|
  {
    if actions != [] {
      var n := |actions| - 1;
      var before, end := Play(db, actions[..n]), Play(db, actions);
      SentComesFromFanout(db, actions[..n]);
      PlayLast(db, actions);
      PlayKeepsInv(db, actions[..n]);
      forall id | id in end.campaigns && end.campaigns[id].status == SENT
        ensures FannedOut(db, actions, id, end.campaigns[id], Get(end.sentTo, id))
      {
        StepSends(before, actions[n], id);
        FannedOutStays(db, actions, id, end.campaigns[id], Get(end.sentTo, id));
      }
      forall s, id | s in end.txns && id in end.txns[s].writes && end.txns[s].writes[id].status == SENT
        ensures FannedOut(db, actions, id, end.txns[s].writes[id], Get(end.txns[s].audienceAt, id))
      {
        StepWrites(before, actions[n], s, id);
        var users := Get(end.txns[s].audienceAt, id);
        if s in before.txns && id in before.txns[s].writes && end.txns[s].writes[id] == before.txns[s].writes[id]
           && users == Get(before.txns[s].audienceAt, id) {
          FannedOutStays(db, actions, id, end.txns[s].writes[id], users);
        } else {
          assert FannedOutAt(db, actions, n, id, end.txns[s].writes[id], users.value);
        }
      }
    }
  }

  /** A SENT campaign's rows go to exactly the audience there was at the step of the
      run that sent it. */
  lemma SentToAudienceOfItsFanout(db: Db, actions: seq<Action>, id: nat) returns (k: nat)
    requires Fresh(db) && id in Play(db, actions).campaigns && Play(db, actions).campaigns[id].status == SENT
    ensures
      var end := Play(db, actions);
      && k < |actions| && actions[k].Fanout? && actions[k].result.Delivered?
      && var users := AudienceOf(Play(db, actions[..k]).accounts, end.campaigns[id].audience);
         && RowsOf(end.inbox, id) == multiset(users) && end.campaigns[id].recipientCount == |users|
         && end.campaigns[id].sentAt == Some(Play(db, actions[..k]).now)
  {
    SentComesFromFanout(db, actions);
    PlayKeepsInv(db, actions);
    var end := Play(db, actions);
    assert ExactlyOnce(end.campaigns[id], RowsOf(end.inbox, id), Get(end.sentTo, id));
    k :| k < |actions| && FannedOutAt(db, actions, k, id, end.campaigns[id], end.sentTo[id]);
  }

  /** Account by account: who had a row of a SENT campaign is decided by whether the
      account was active at that step, and by its role. Administrators never have one. */
  lemma SentByRole(db: Db, actions: seq<Action>, id: nat) returns (k: nat)
    requires Fresh(db) && id in Play(db, actions).campaigns && Play(db, actions).campaigns[id].status == SENT
    ensures k < |actions| && actions[k].Fanout? && actions[k].result.Delivered?
    ensures
      var c, rows := Play(db, actions).campaigns[id], RowsOf(Play(db, actions).inbox, id);
      var accounts := Play(db, actions[..k]).accounts;
      && c.recipientCount == |rows|
      && forall user :: rows[user] ==
           if user !in accounts || !accounts[user].active then 0
           else match accounts[user].role
             case CUSTOMER => if c.audience == ToCustomers || c.audience == ToAll then 1 else 0
             case VENDOR => if c.audience == ToVendors || c.audience == ToAll then 1 else 0
             case RIDER => if c.audience == ToRiders || c.audience == ToAll then 1 else 0
             case ADMIN => 0
  {
    k := SentToAudienceOfItsFanout(db, actions, id);
    var accounts, audience := Play(db, actions[..k]).accounts, Play(db, actions).campaigns[id].audience;
    AudienceByRole(accounts, audience);
  }

  lemma AudienceByRole(accounts: map<nat, Account>, audience: Audience)
    ensures forall user :: user in AudienceOf(accounts, audience) <==>
      && user in accounts && accounts[user].active
      && match accounts[user].role
         case CUSTOMER => audience == ToCustomers || audience == ToAll
         case VENDOR => audience == ToVendors || audience == ToAll
         case RIDER => audience == ToRiders || audience == ToAll
         case ADMIN => false
  {
  }

  /** Whom the fan-out saw is the audience at the moment it ran. */
  lemma FanoutSeesCurrentAudience(db: Db, session: nat, result: Result)
    requires Inv(db) && result.Delivered? && Enabled(db, Fanout(session, result))
    ensures
      var id := db.txns[session].queue[0];
      var t := Act(db, Fanout(session, result)).txns[session];
      && id in t.audienceAt
      && forall user :: user in t.audienceAt[id] <==>
           && user in db.accounts && db.accounts[user].active
           && match db.accounts[user].role
              case CUSTOMER => SeenBy(db, session, id).audience in {ToCustomers, ToAll}
              case VENDOR => SeenBy(db, session, id).audience in {ToVendors, ToAll}
              case RIDER => SeenBy(db, session, id).audience in {ToRiders, ToAll}
              case ADMIN => false
  {
    AudienceByRole(db.accounts, SeenBy(db, session, db.txns[session].queue[0]).audience);
  }

  /** A sweep leaves a due campaign that nobody holds only when it took 20, none of
      which was to go out later. */
  lemma SweepTakesOldest(db: Db, session: nat, due: seq<nat>, left: nat)
    requires Enabled(db, BeginSweep(session, due)) && left in db.campaigns && left !in due
    requires db.campaigns[left].status == SCHEDULED && db.campaigns[left].scheduledFor <= db.now
    requires forall s :: s in db.txns ==> left !in db.txns[s].held
    ensures |due| == 20
    ensures forall id :: id in due ==>
      id in db.campaigns && db.campaigns[id].scheduledFor <= db.campaigns[left].scheduledFor
  {
    assert Due(db, left) && !Locked(db, left);
    forall id | id in due
      ensures id in db.campaigns && db.campaigns[id].scheduledFor <= db.campaigns[left].scheduledFor
    {
      assert Due(db, id);
    }
  }

  // --- When a campaign goes out ---------------------------------------------------

  predicate OnTime(c: Campaign)
  {
    c.status == SENT ==> c.sentAt.Some? && c.scheduledFor <= c.sentAt.value
  }

  /** Nothing has been sent before its time, and what is queued is due. */
  ghost predicate Timely(db: Db)
  {
    && (forall id :: id in db.campaigns ==> OnTime(db.campaigns[id]))
    && (forall s :: s in db.txns ==> TxnTimely(db, s))
  }

  ghost predicate TxnTimely(db: Db, s: nat)
    requires s in db.txns
  {
    && (forall id :: id in db.txns[s].writes ==> OnTime(db.txns[s].writes[id]))
    && (forall id :: id in db.txns[s].queue && Knows(db, s, id) ==> SeenBy(db, s, id).scheduledFor <= db.now)
  }

  lemma DispatchedOnTime(t: Txn, first: nat, c: Campaign, accounts: map<nat, Account>, result: Result, now: int)
    requires (forall id :: id in t.writes ==> OnTime(t.writes[id])) && c.scheduledFor <= now
    requires result.Delivered? ==> result.at == now
    ensures
      var after := Dispatched(t, first, c, accounts, result);
      && after.queue == t.queue && (forall id :: id in after.writes ==> OnTime(after.writes[id]))
      && forall id :: id != first ==> Get(after.writes, id) == Get(t.writes, id)
  {
  }

  lemma FanoutTimely(db: Db, session: nat, result: Result)
    requires Inv(db) && Timely(db) && Enabled(db, Fanout(session, result))
    ensures TxnTimely(Act(db, Fanout(session, result)), session)
  {
    var t := db.txns[session];
    assert TxnTimely(db, session) && QueueInv(db, t) && t.queue[0] in t.queue;
    var c := SeenBy(db, session, t.queue[0]);
    var after := Dispatched(t.(queue := t.queue[1..]), t.queue[0], c, db.accounts, result);
    DispatchedOnTime(t.(queue := t.queue[1..]), t.queue[0], c, db.accounts, result, db.now);
    RewrittenTimely(db, session, after);
  }

  lemma RewrittenTimely(db: Db, session: nat, after: Txn)
    requires session in db.txns && db.txns[session].queue != [] && TxnTimely(db, session)
    requires QueueInv(db, db.txns[session])
    requires after.queue == db.txns[session].queue[1..]
    requires forall id :: id in after.writes ==> OnTime(after.writes[id])
    requires forall id :: id != db.txns[session].queue[0] ==> Get(after.writes, id) == Get(db.txns[session].writes, id)
    ensures TxnTimely(db.(txns := db.txns[session := after]), session)
  {
    var db', t := db.(txns := db.txns[session := after]), db.txns[session];
    forall id | id in after.queue && Knows(db', session, id)
      ensures SeenBy(db', session, id).scheduledFor <= db.now
    {
      assert id in t.queue && id != t.queue[0] && Get(after.writes, id) == Get(t.writes, id);
      assert Knows(db, session, id);
    }
  }

  /** A commit touches no row that another transaction has queued. */
  lemma CommitTimely(db: Db, session: nat, s: nat)
    requires Inv(db) && Timely(db) && Enabled(db, Commit(session)) && s in db.txns && s != session
    ensures TxnTimely(Act(db, Commit(session)), s)
  {
    var db' := Act(db, Commit(session));
    assert TxnTimely(db, s);
    forall id | id in db.txns[s].queue && Knows(db', s, id)
      ensures SeenBy(db', s, id).scheduledFor <= db.now
    {
      QueuedIsOwn(db, s, session, id);
      assert SeenBy(db', s, id) == SeenBy(db, s, id);
    }
  }

  /** A campaign scheduled meanwhile is not one that is queued. */
  lemma ScheduleTimely(db: Db, id: nat, audience: Audience, when: int, s: nat)
    requires Inv(db) && Timely(db) && Enabled(db, Schedule(id, audience, when)) && s in db.txns
    ensures TxnTimely(Act(db, Schedule(id, audience, when)), s)
  {
    assert TxnTimely(db, s) && TxnInv(db, db.txns[s]);
    forall other | other in db.txns[s].queue
      ensures other != id
    {
      assert QueuedInv(db.txns[s], other);
    }
  }

  lemma BeginTimely(db: Db, a: Action)
    requires Inv(db) && Timely(db) && Enabled(db, a) && (a.BeginSweep? || a.BeginSendNow? || a.BeginCancel?)
    ensures TxnTimely(Act(db, a), a.session)
  {
    if a.BeginSweep? { assert forall id :: id in a.due ==> Due(db, id); }
  }

  lemma OtherTimely(db: Db, db': Db, s: nat)
    requires Timely(db) && s in db.txns && s in db'.txns && db'.txns[s] == db.txns[s]
    requires db'.campaigns == db.campaigns && db.now <= db'.now
    ensures TxnTimely(db', s)
  {
    assert TxnTimely(db, s);
    forall id | id in db'.txns[s].queue && Knows(db', s, id)
      ensures SeenBy(db', s, id).scheduledFor <= db'.now
    {
      assert Knows(db, s, id);
    }
  }

  lemma StepKeepsTxnTimely(db: Db, a: Action, s: nat)
    requires Inv(db) && Timely(db) && Enabled(db, a) && s in Act(db, a).txns
    ensures TxnTimely(Act(db, a), s)
  {
    if (a.BeginSweep? || a.BeginSendNow? || a.BeginCancel?) && a.session == s {
      BeginTimely(db, a);
    } else if a.Fanout? && a.session == s {
      FanoutTimely(db, s, a.result);
    } else if a.Commit? {
      CommitTimely(db, a.session, s);
    } else if a.Schedule? {
      ScheduleTimely(db, a.id, a.audience, a.when, s);
    } else {
      OtherTimely(db, Act(db, a), s);
    }
  }

  lemma StepKeepsTimely(db: Db, a: Action)
    requires Inv(db) && Timely(db)
    ensures Timely(Next(db, a))
  {
    if Enabled(db, a) {
      var db' := Act(db, a);
      forall s | s in db'.txns
        ensures TxnTimely(db', s)
      {
        StepKeepsTxnTimely(db, a, s);
      }
      if a.Commit? { assert TxnTimely(db, a.session); }
    }
  }

  lemma {:induction false} PlayKeepsTimely(db: Db, actions: seq<Action>)
    requires Inv(db) && Timely(db)
    ensures Timely(Play(db, actions))
    decreases actions
  {
    if actions != [] {
      StepKeepsTimely(db, actions[0]);
      NextKeepsInv(db, actions[0]);
      PlayKeepsTimely(Next(db, actions[0]), actions[1..]);
    }
  }

  /** No campaign is ever sent before the time it was scheduled for. */
  lemma NeverSentEarly(db: Db, actions: seq<Action>, id: nat)
    requires Fresh(db) && id in Play(db, actions).campaigns && Play(db, actions).campaigns[id].status == SENT
    ensures
      var c := Play(db, actions).campaigns[id];
      c.sentAt.Some? && c.scheduledFor <= c.sentAt.value <= Play(db, actions).now
  {
    PlayKeepsTimely(db, actions);
    var k := SentToAudienceOfItsFanout(db, actions, id);
    ClockGoesOn(db, actions, k);
  }

  lemma {:induction false} ClockGoesOn(db: Db, actions: seq<Action>, k: nat)
    requires k <= |actions|
    ensures Play(db, actions[..k]).now <= Play(db, actions).now
    decreases |actions|
  {
    if k == |actions| {
      assert actions[..k] == actions;
    } else {
      var n := |actions| - 1;
      PlayLast(db, actions);
      ClockGoesOn(db, actions[..n], k);
      assert actions[..n][..k] == actions[..k];
    }
  }

  predicate Final(db: Db, id: nat)
  {
    id in db.campaigns && db.campaigns[id].status != SCHEDULED
  }

  lemma StepKeepsFinal(db: Db, a: Action, id: nat)
    requires Inv(db) && Final(db, id)
    ensures
      var db' := Next(db, a);
      id in db'.campaigns && db'.campaigns[id] == db.campaigns[id] && RowsOf(db'.inbox, id) == RowsOf(db.inbox, id)
  {
    if Enabled(db, a) && a.Commit? {
      assert TxnInv(db, db.txns[a.session]);
    }
  }

  /** SENT, FAILED and CANCELLED are final, rows and all, whatever happens next. */
  lemma {:induction false} FinalStaysFinal(db: Db, actions: seq<Action>, id: nat)
    requires Inv(db) && Final(db, id)
    ensures
      var end := Play(db, actions);
      id in end.campaigns && end.campaigns[id] == db.campaigns[id] && RowsOf(end.inbox, id) == RowsOf(db.inbox, id)
    decreases actions
  {
    if actions != [] {
      StepKeepsFinal(db, actions[0], id);
      NextKeepsInv(db, actions[0]);
      FinalStaysFinal(Next(db, actions[0]), actions[1..], id);
    }
  }

  /** Two sweeps never hold one campaign, so none is sent twice by racing workers. */
  lemma NeverHeldTwice(db: Db, actions: seq<Action>, a: nat, b: nat, id: nat)
    requires Fresh(db)
    ensures
      var txns := Play(db, actions).txns;
      a in txns && b in txns && id in txns[a].held && id in txns[b].held ==> a == b
  {
    PlayKeepsInv(db, actions);
  }

  lemma PlayCons(db: Db, a: Action, rest: seq<Action>)
    ensures Play(db, [a] + rest) == Play(Next(db, a), rest)
  {
    assert ([a] + rest)[1..] == rest;
  }

  lemma SweepOpens(db: Db, session: nat, id: nat)
    requires session !in db.txns && Selects(db, [id])
    ensures id in db.campaigns && db.campaigns[id].status == SCHEDULED
    ensures Next(db, BeginSweep(session, [id])) == db.(txns := db.txns[session := Txn({id}, [id], map[], map[], map[])])
  {
    assert id in [id] && Due(db, id);
    var t := Next(db, BeginSweep(session, [id])).txns[session];
    assert t.held == {id};
    assert t == Txn({id}, [id], map[], map[], map[]);
  }

  lemma SweepDispatches(db: Db, session: nat, t: Txn, id: nat, result: Result)
    requires t.queue == [id] && id in db.campaigns && id !in t.writes && (result.Delivered? ==> result.at == db.now)
    ensures
      Next(db.(txns := db.txns[session := t]), Fanout(session, result))
        == db.(txns := db.txns[session := Dispatched(t.(queue := []), id, db.campaigns[id], db.accounts, result)])
  {
    var open := db.(txns := db.txns[session := t]);
    assert Knows(open, session, id) && t.queue[1..] == [];
    assert open.txns[session := Dispatched(t.(queue := []), id, db.campaigns[id], db.accounts, result)]
        == db.txns[session := Dispatched(t.(queue := []), id, db.campaigns[id], db.accounts, result)];
  }

  lemma SweepCommits(db: Db, session: nat, t: Txn)
    requires session !in db.txns && t.queue == []
    ensures
      Next(db.(txns := db.txns[session := t]), Commit(session))
        == db.(campaigns := db.campaigns + t.writes, inbox := db.inbox + t.inbox, sentTo := db.sentTo + t.audienceAt)
    ensures Next(db.(txns := db.txns[session := t]), Crash(session)) == db
  {
    assert db.txns[session := t] - {session} == db.txns;
  }

  lemma DispatchedAlone(inbox: map<nat, multiset<nat>>, id: nat, c: Campaign, accounts: map<nat, Account>,
                        result: Result)
    requires RowsOf(inbox, id) == multiset{}
    ensures
      var t := Dispatched(Txn({id}, [], map[], map[], map[]), id, c, accounts, result);
      && t.queue == [] && id in t.writes && t.writes[id].status == (if result.Delivered? then SENT else FAILED)
      && RowsOf(inbox + t.inbox, id) == if result.Delivered? then multiset(AudienceOf(accounts, c.audience))
         else multiset{}
  {
    assert multiset{} + multiset(AudienceOf(accounts, c.audience)) == multiset(AudienceOf(accounts, c.audience));
  }

  /** A due campaign left alone is sent by one sweep, to the whole audience of the
      moment; a fan-out that fails is recorded instead; a crash changes nothing. */
  lemma SweepSettlesDue(db: Db, session: nat, id: nat, result: Result)
    requires CommittedInv(db) && session !in db.txns && Selects(db, [id]) && id in db.campaigns
    requires result.Delivered? ==> result.at == db.now
    ensures Play(db, [BeginSweep(session, [id]), Fanout(session, result), Crash(session)]) == db
    ensures
      var end := Play(db, [BeginSweep(session, [id]), Fanout(session, result), Commit(session)]);
      && id in end.campaigns && end.txns == db.txns
      && end.campaigns[id].status == (if result.Delivered? then SENT else FAILED)
      && RowsOf(end.inbox, id) ==
        if result.Delivered? then multiset(AudienceOf(db.accounts, db.campaigns[id].audience)) else multiset{}
  {
    SweepOpens(db, session, id);
    assert ExactlyOnce(db.campaigns[id], RowsOf(db.inbox, id), Get(db.sentTo, id));
    SettledBy(db, session, id, result);
    PlayThree(db, BeginSweep(session, [id]), Fanout(session, result), Crash(session));
    PlayThree(db, BeginSweep(session, [id]), Fanout(session, result), Commit(session));
  }

  /** From the request to the inbox: a campaign scheduled for any time in the next 90
      days, whose audience changes as it will meanwhile, is sent by the first sweep after
      that time to whoever is in its audience then. */
  lemma ScheduledIsSent(db: Db, id: nat, audience: Audience, when: int, users: seq<(nat, Account)>, late: nat,
                        session: nat, pushed: nat)
    requires CommittedInv(db) && db.txns == map[] && id !in db.campaigns
    requires db.now < when <= db.now + 90 * 86_400
    requires forall other :: other in db.campaigns && db.campaigns[other].status == SCHEDULED ==>
      db.campaigns[other].scheduledFor > when + late
    ensures
      var meanwhile := [Schedule(id, audience, when)] + SetAccounts(users) + [Tick(when + late - db.now)];
      var sweep := [BeginSweep(session, [id]), Fanout(session, Delivered(when + late, pushed)), Commit(session)];
      var end := Play(Play(db, meanwhile), sweep);
      && id in end.campaigns && end.campaigns[id].status == SENT && end.campaigns[id].audience == audience
      && end.accounts == AccountsAfter(db.accounts, users)
      && RowsOf(end.inbox, id) == multiset(AudienceOf(AccountsAfter(db.accounts, users), audience))
  {
    var meanwhile := [Schedule(id, audience, when)] + SetAccounts(users) + [Tick(when + late - db.now)];
    var due := Play(db, meanwhile);
    PlayMeanwhile(db, id, audience, when, users, when + late - db.now);
    SoleDue(due, id);
    SweepSettlesDue(due, session, id, Delivered(when + late, pushed));
    SweepKeepsAudience(due, session, id, Delivered(when + late, pushed));
  }

  lemma ScheduleAdds(db: Db, id: nat, audience: Audience, when: int)
    requires CommittedInv(db) && db.txns == map[] && id !in db.campaigns && ScheduleProblem(when, db.now).None?
    ensures
      var after := Next(db, Schedule(id, audience, when));
      after == db.(campaigns := db.campaigns[id := Planned(audience, when)]) && CommittedInv(after)
  {
  }

  lemma TickAdds(db: Db, elapsed: nat)
    ensures Next(db, Tick(elapsed)) == db.(now := db.now + elapsed)
  {
  }

  lemma PlayMeanwhile(db: Db, id: nat, audience: Audience, when: int, users: seq<(nat, Account)>, elapsed: nat)
    requires CommittedInv(db) && db.txns == map[] && id !in db.campaigns
    requires ScheduleProblem(when, db.now).None?
    ensures
      var due := Play(db, [Schedule(id, audience, when)] + SetAccounts(users) + [Tick(elapsed)]);
      && due == db.(campaigns := db.campaigns[id := Planned(audience, when)], now := db.now + elapsed,
                    accounts := AccountsAfter(db.accounts, users))
      && CommittedInv(due)
  {
    var scheduled := Next(db, Schedule(id, audience, when));
    ScheduleAdds(db, id, audience, when);
    PlaySetAccounts(scheduled, users);
    PlayCons(db, Schedule(id, audience, when), SetAccounts(users));
    PlayAppended([Schedule(id, audience, when)] + SetAccounts(users), Tick(elapsed), db);
    TickAdds(scheduled.(accounts := AccountsAfter(db.accounts, users)), elapsed);
  }

  lemma SoleDue(db: Db, id: nat)
    requires db.txns == map[] && Due(db, id)
    requires forall other :: other in db.campaigns && other != id && db.campaigns[other].status == SCHEDULED ==>
      db.campaigns[other].scheduledFor > db.now
    ensures Selects(db, [id])
  {
    assert id in [id];
  }

  lemma SweepKeepsAudience(db: Db, session: nat, id: nat, result: Result)
    requires session !in db.txns && Selects(db, [id]) && id in db.campaigns
    requires result.Delivered? ==> result.at == db.now
    ensures
      var end := Play(db, [BeginSweep(session, [id]), Fanout(session, result), Commit(session)]);
      && end.accounts == db.accounts
      && id in end.campaigns && end.campaigns[id].audience == db.campaigns[id].audience
  {
    var t := Txn({id}, [id], map[], map[], map[]);
    var c := db.campaigns[id];
    SweepOpens(db, session, id);
    SweepDispatches(db, session, t, id, result);
    SweepCommits(db, session, Dispatched(t.(queue := []), id, c, db.accounts, result));
    PlayThree(db, BeginSweep(session, [id]), Fanout(session, result), Commit(session));
    DispatchKeepsAudience(t.(queue := []), id, c, db.accounts, result);
  }

  lemma DispatchKeepsAudience(t: Txn, id: nat, c: Campaign, accounts: map<nat, Account>, result: Result)
    ensures
      var after := Dispatched(t, id, c, accounts, result);
      after.queue == t.queue && id in after.writes && after.writes[id].audience == c.audience
  {
  }

  function SetAccounts(users: seq<(nat, Account)>): seq<Action>
  {
    if users == [] then []
    else SetAccounts(users[..|users| - 1]) + [SetAccount(users[|users| - 1].0, users[|users| - 1].1)]
  }

  function AccountsAfter(accounts: map<nat, Account>, users: seq<(nat, Account)>): map<nat, Account>
  {
    if users == [] then accounts
    else AccountsAfter(accounts, users[..|users| - 1])[users[|users| - 1].0 := users[|users| - 1].1]
  }

  lemma PlayAppended(actions: seq<Action>, a: Action, db: Db)
    ensures Play(db, actions + [a]) == Next(Play(db, actions), a)
  {
    PlayLast(db, actions + [a]);
    assert (actions + [a])[..|actions|] == actions;
  }

  lemma {:induction false} PlaySetAccounts(db: Db, users: seq<(nat, Account)>)
    ensures Play(db, SetAccounts(users)) == db.(accounts := AccountsAfter(db.accounts, users))
  {
    if users != [] {
      var n := |users| - 1;
      PlaySetAccounts(db, users[..n]);
      PlayAppended(SetAccounts(users[..n]), SetAccount(users[n].0, users[n].1), db);
    }
  }

  lemma SettledBy(db: Db, session: nat, id: nat, result: Result)
    requires session !in db.txns && Selects(db, [id]) && id in db.campaigns && RowsOf(db.inbox, id) == multiset{}
    requires result.Delivered? ==> result.at == db.now
    ensures
      var done := Next(Next(db, BeginSweep(session, [id])), Fanout(session, result));
      var end := Next(done, Commit(session));
      && Next(done, Crash(session)) == db
      && id in end.campaigns && end.txns == db.txns
      && end.campaigns[id].status == (if result.Delivered? then SENT else FAILED)
      && RowsOf(end.inbox, id) ==
        if result.Delivered? then multiset(AudienceOf(db.accounts, db.campaigns[id].audience)) else multiset{}
  {
    var t := Txn({id}, [id], map[], map[], map[]);
    SweepOpens(db, session, id);
    SweepDispatches(db, session, t, id, result);
    DispatchedAlone(db.inbox, id, db.campaigns[id], db.accounts, result);
    SweepCommits(db, session, Dispatched(t.(queue := []), id, db.campaigns[id], db.accounts, result));
  }

  lemma PlayThree(db: Db, a: Action, b: Action, c: Action)
    ensures Play(db, [a, b, c]) == Next(Next(Next(db, a), b), c)
  {
    PlayCons(db, a, [b, c]);
    PlayCons(Next(db, a), b, [c]);
    PlayCons(Next(Next(db, a), b), c, []);
    assert [a, b, c] == [a] + [b, c] && [b, c] == [b] + [c] && [c] == [c] + [];
  }
}
