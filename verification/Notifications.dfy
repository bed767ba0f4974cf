/**
 Notification campaigns: the fan-out into the inbox, and the transactions that
 send, schedule and cancel campaigns (app/services/notifications.py).
 */
module Notifications {
  import opened Options

  datatype Role = CUSTOMER | VENDOR | RIDER | ADMIN
  datatype Audience = ToCustomers | ToVendors | ToRiders | ToAll
  datatype Account = Account(role: Role, active: bool)
  datatype Status = SCHEDULED | SENT | FAILED | CANCELLED
  datatype Campaign = Campaign(
    audience: Audience, status: Status, scheduledFor: int, recipientCount: nat,
    sentAt: Option<int>, pushCount: nat, failure: Option<string>)

  /** A campaign as it is created. */
  function Planned(audience: Audience, when: int): Campaign
  {
    Campaign(audience, SCHEDULED, when, 0, None, 0, None)
  }

  /** How a fan-out came out: when it was over and how many pushes went out, or the
      error. Push itself is not modelled. */
  datatype Result = Delivered(at: int, pushed: nat) | Broken(error: string)

  /** `failure_reason`, cut to 500 characters. */
  function Reason(error: string): string
  {
    var text := "Could not write the inbox rows: " + error;
    if |text| <= 500 then text else text[..500]
  }

  const SWEEP_LIMIT: nat := 20
  /** 90 days, in seconds. */
  const MAX_AHEAD: int := 7_776_000

  function RolesOf(audience: Audience): set<Role>
  {
    match audience
    case ToCustomers => {CUSTOMER}
    case ToVendors => {VENDOR}
    case ToRiders => {RIDER}
    case ToAll => {CUSTOMER, VENDOR, RIDER}
  }

  predicate InAudience(account: Account, audience: Audience)
  {
    account.active && account.role in RolesOf(audience)
  }

  function AudienceOf(accounts: map<nat, Account>, audience: Audience): set<nat>
  {
    set user | user in accounts && InAudience(accounts[user], audience)
  }

  /** An open transaction: the campaign rows it has locked, those it has still to
      dispatch, and what it has written but not committed. */
  datatype Txn = Txn(
    held: set<nat>,
    queue: seq<nat>,
    writes: map<nat, Campaign>,
    inbox: map<nat, multiset<nat>>,
    audienceAt: map<nat, set<nat>>)    // history: whom each fan-out saw

  /** Runs one fan-out. The savepoint makes it all rows or none; a failed one is
      recorded, and the campaign is done either way. */
  function Dispatched(t: Txn, id: nat, campaign: Campaign, accounts: map<nat, Account>, result: Result): Txn
  {
    var audience := AudienceOf(accounts, campaign.audience);
    match result
    case Broken(error) => t.(writes := t.writes[id := campaign.(status := FAILED, failure := Some(Reason(error)))])
    case Delivered(at, pushed) =>
      t.(writes := t.writes[id :=
           campaign.(status := SENT, recipientCount := |audience|, sentAt := Some(at), pushCount := pushed)],
         inbox := t.inbox[id := RowsOf(t.inbox, id) + multiset(audience)],
         audienceAt := t.audienceAt[id := audience])
  }

  /** The reason says what went wrong, as far as 500 characters go. */
  lemma ReasonFits(error: string)
    ensures
      var text := "Could not write the inbox rows: " + error;
      |Reason(error)| == (if |text| > 500 then 500 else |text|) && Reason(error) == text[..|Reason(error)|]
  {
  }

  function RowsOf(inbox: map<nat, multiset<nat>>, id: nat): multiset<nat>
  {
    if id in inbox then inbox[id] else multiset{}
  }

  /** A sweep's loop: each due campaign in turn, with the accounts its own
      statement sees and its own luck. */
  function DispatchedAll(t: Txn, due: seq<(nat, Campaign)>, views: seq<map<nat, Account>>, results: seq<Result>): Txn
    requires |due| == |views| == |results|
  {
    if due == [] then t
    else
      var n := |due| - 1;
      Dispatched(DispatchedAll(t, due[..n], views[..n], results[..n]), due[n].0, due[n].1, views[n], results[n])
  }

  /** A campaign once its fan-out is over. */
  predicate Settles(before: Campaign, after: Campaign, accounts: map<nat, Account>, result: Result)
  {
    match result
    case Broken(error) =>
      after == before.(status := FAILED, failure := Some(Reason(error)))
    case Delivered(at, pushed) =>
      && after.status == SENT && after.sentAt == Some(at) && after.pushCount == pushed
      && after.recipientCount == |AudienceOf(accounts, before.audience)|
      && after.(status := before.status, sentAt := before.sentAt, pushCount := before.pushCount,
                recipientCount := before.recipientCount) == before
  }

  /** A sweep settles every campaign it took, each over the accounts its own statement
      saw: one new inbox row for every member, or none where the fan-out failed, and a
      failed one stops none of the others. Nothing else is written. */
  lemma {:induction false} SweepSettlesEach(t: Txn, due: seq<(nat, Campaign)>, views: seq<map<nat, Account>>,
                                            results: seq<Result>, i: nat)
    requires |due| == |views| == |results|
    requires forall j, k :: 0 <= j < k < |due| ==> due[j].0 != due[k].0
    ensures
      var after := DispatchedAll(t, due, views, results);
      && after.held == t.held && after.queue == t.queue
      && (i < |due| ==>
            && due[i].0 in after.writes && Settles(due[i].1, after.writes[due[i].0], views[i], results[i])
            && RowsOf(after.inbox, due[i].0) == RowsOf(t.inbox, due[i].0)
                 + if results[i].Delivered? then multiset(AudienceOf(views[i], due[i].1.audience)) else multiset{})
    ensures forall id :: (forall k :: 0 <= k < |due| ==> due[k].0 != id) ==>
      var after := DispatchedAll(t, due, views, results);
      && (id in after.writes <==> id in t.writes) && (id in t.writes ==> after.writes[id] == t.writes[id])
      && RowsOf(after.inbox, id) == RowsOf(t.inbox, id)
  {
    if due != [] {
      var n := |due| - 1;
      SweepSettlesEach(t, due[..n], views[..n], results[..n], i);
      var before := DispatchedAll(t, due[..n], views[..n], results[..n]);
      var after := DispatchedAll(t, due, views, results);
      assert after == Dispatched(before, due[n].0, due[n].1, views[n], results[n]);
      forall id | forall k :: 0 <= k < |due| ==> due[k].0 != id
        ensures (id in after.writes <==> id in t.writes) && (id in t.writes ==> after.writes[id] == t.writes[id])
        ensures RowsOf(after.inbox, id) == RowsOf(t.inbox, id)
      {
        assert forall k :: 0 <= k < n ==> due[..n][k].0 != id;
        assert id != due[n].0;
      }
      if i == n {
        assert forall k :: 0 <= k < n ==> due[..n][k].0 != due[n].0;
      }
    }
  }

  /** A time from a request; `zoned` when it names its zone. */
  datatype When = When(at: int, zoned: bool)

  datatype CreateProblem = NoZone | NotInFuture | TooFarAhead

  function ScheduleProblem(when: int, now: int): Option<CreateProblem>
  {
    if when <= now then Some(NotInFuture)
    else if when - now > MAX_AHEAD then Some(TooFarAhead)
    else None
  }

  /** One database session, and the service functions that write through it. */
  class Session {
    var txn: Txn

    constructor (txn: Txn)
      ensures this.txn == txn
    {
      this.txn := txn;
    }

    method Dispatch(id: nat, campaign: Campaign, accounts: map<nat, Account>, result: Result)
      modifies this
      ensures txn == Dispatched(old(txn), id, campaign, accounts, result)
    {
      if result.Broken? {
        txn := txn.(writes := txn.writes[id := campaign.(status := FAILED, failure := Some(Reason(result.error)))]);
        return;
      }
      var audience := AudienceOf(accounts, campaign.audience);
      txn := txn.(inbox := txn.inbox[id := RowsOf(txn.inbox, id) + multiset(audience)]);
      var sent := campaign.(recipientCount := |audience|);
      sent := sent.(pushCount := result.pushed);
      sent := sent.(status := SENT, sentAt := Some(result.at));
      txn := txn.(writes := txn.writes[id := sent]);
      txn := txn.(audienceAt := txn.audienceAt[id := audience]);
    }

    method SendDue(due: seq<(nat, Campaign)>, views: seq<map<nat, Account>>, results: seq<Result>) returns (sent: nat)
      requires |due| == |views| == |results|
      modifies this
      ensures txn == DispatchedAll(old(txn), due, views, results) && sent == |due|
    {
      for i := 0 to |due|
        invariant txn == DispatchedAll(old(txn), due[..i], views[..i], results[..i])
      {
        Dispatch(due[i].0, due[i].1, views[i], results[i]);
        assert due[..i + 1][..i] == due[..i] && views[..i + 1][..i] == views[..i];
        assert results[..i + 1][..i] == results[..i];
      }
      assert due[..|due|] == due && views[..|due|] == views && results[..|due|] == results;
      sent := |due|;
    }

    /** Schedules for `when`, or sends at once when it is None. */
    method Create(id: nat, audience: Audience, when: Option<When>, now: int, accounts: map<nat, Account>,
                  result: Result)
      returns (problem: Option<CreateProblem>)
      modifies this
      ensures problem == if when.None? then None
                         else if !when.value.zoned then Some(NoZone)
                         else if when.value.at <= now then Some(NotInFuture)
                         else if when.value.at > now + 90 * 86_400 then Some(TooFarAhead)
                         else None
      ensures problem.Some? ==> txn == old(txn)
      ensures problem.None? && when.Some? ==>
        txn == old(txn).(writes := old(txn).writes[id := Planned(audience, when.value.at)])
      ensures when.None? ==>
        txn == Dispatched(old(txn).(writes := old(txn).writes[id := Planned(audience, now)]),
                          id, Planned(audience, now), accounts, result)
    {
      problem := None;
      if when.Some? {
        if !when.value.zoned { return Some(NoZone); }
        problem := ScheduleProblem(when.value.at, now);
        if problem.Some? { return; }
      }
      var campaign := Planned(audience, if when.Some? then when.value.at else now);
      txn := txn.(writes := txn.writes[id := campaign]);
      if when.None? { Dispatch(id, campaign, accounts, result); }
    }

    /** `campaign` is the row as read under its lock; None when there is none. */
    method Cancel(id: nat, campaign: Option<Campaign>) returns (cancelled: bool)
      modifies this
      ensures cancelled <==> campaign.Some? && campaign.value.status == SCHEDULED
      ensures txn == if cancelled
                     then old(txn).(writes := old(txn).writes[id := campaign.value.(status := CANCELLED)])
                     else old(txn)
    {
      if campaign.None? || campaign.value.status != SCHEDULED { return false; }
      txn := txn.(writes := txn.writes[id := campaign.value.(status := CANCELLED)]);
      return true;
    }
  }
}
