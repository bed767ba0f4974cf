/**
 Idempotency keys: claimed before the work runs, completed with its response, and
 collected once they expire (app/services/idempotency.py and
 `expire_idempotency_keys` in app/workers/tasks.py). This file is one request at a
 time; IdempotencyRuns.dfy is requests that overlap.

 Times are integer seconds; request hashes are injective, so a row keeps the
 request itself.
 */
module Idempotency {
  import opened Options

  const TTL: int := 24 * 3600

  datatype Id = Id(user: nat, key: string)
  datatype Row = Row(request: string, endpoint: string, status: Option<int>, response: Option<string>, created: int,
                     expires: int)
  datatype Answer = Proceed | Replay(body: string) | Mismatched | InProgress

  predicate Keyed(key: Option<string>) { key.Some? && key.value != "" }

  // --- What is kept under one key ----------------------------------------------

  function Claimed(request: string, endpoint: string, now: int): Row
  {
    Row(request, endpoint, None, None, now, now + TTL)
  }

  /** DELETE ... WHERE expires_at < now. */
  function Swept(row: Option<Row>, now: int): Option<Row>
  {
    if row.Some? && row.value.expires < now then None else row
  }

  function AnswerFor(row: Row, request: string): Answer
  {
    if row.request != request then Mismatched
    else if row.response.None? then InProgress
    else Replay(row.response.value)
  }

  /** `begin`: an absent or expired row is claimed. */
  function Begun(row: Option<Row>, endpoint: string, request: string, now: int): (Option<Row>, Answer)
  {
    if row.None? || row.value.expires < now then (Some(Claimed(request, endpoint, now)), Proceed)
    else (row, AnswerFor(row.value, request))
  }

  /** `complete`. */
  function Completed(row: Option<Row>, status: int, body: string): Option<Row>
  {
    if row.None? then None else Some(row.value.(status := Some(status), response := Some(body)))
  }

  // --- The mutable tables, as one session sees them -------------------------------

  class KeyStore {
    var committed: map<Id, Row>
    var rows: map<Id, Row>        // with this session's uncommitted writes

    function At(id: Id): Option<Row>
      reads this
    {
      if id in rows then Some(rows[id]) else None
    }

    constructor ()
      ensures rows == committed == map[]
    {
      rows, committed := map[], map[];
    }

    method Begin(user: nat, key: Option<string>, endpoint: string, request: string, now: int) returns (answer: Answer)
      modifies this`rows
      ensures key == None || key == Some("") ==> answer == Proceed && rows == old(rows)
      ensures key.Some? && key.value != "" ==>
        var id := Id(user, key.value);
        (At(id), answer) == Begun(old(At(id)), endpoint, request, now) && rows - {id} == old(rows) - {id}
    {
      if !Keyed(key) { return Proceed; }
      var id := Id(user, key.value);
      if id !in rows {
        rows := rows[id := Claimed(request, endpoint, now)];
        return Proceed;
      }
      var existing := rows[id];
      if existing.expires < now {
        rows := rows[id := existing.(request := request, endpoint := endpoint, status := None, response := None,
                                     created := now, expires := now + TTL)];
        return Proceed;
      }
      if existing.request != request { return Mismatched; }
      if existing.response.None? { return InProgress; }
      return Replay(existing.response.value);
    }

    method Complete(user: nat, key: Option<string>, status: int, body: string)
      modifies this`rows
      ensures key == None || key == Some("") ==> rows == old(rows)
      ensures key.Some? && key.value != "" ==>
        var id := Id(user, key.value);
        At(id) == Completed(old(At(id)), status, body) && rows - {id} == old(rows) - {id}
    {
      if !Keyed(key) { return; }
      var id := Id(user, key.value);
      if id in rows { rows := rows[id := rows[id].(status := Some(status), response := Some(body))]; }
    }

    method Commit()
      modifies this`committed
      ensures committed == rows
    {
      committed := rows;
    }

    method Rollback()
      modifies this`rows
      ensures rows == committed
    {
      rows := committed;
    }

    /** The worker's session: one DELETE, committed at once. */
    method Collect(now: int) returns (deleted: nat)
      requires rows == committed
      modifies this
      ensures rows == committed && rows.Keys <= old(rows).Keys
      ensures forall id :: id in old(rows) ==>
        (id in rows <==> old(rows)[id].expires >= now) && (id in rows ==> rows[id] == old(rows)[id])
      ensures deleted == |old(rows).Keys - rows.Keys|
    {
      var kept := map id | id in rows && rows[id].expires >= now :: rows[id];
      deleted := |rows.Keys - kept.Keys|;
      rows, committed := kept, kept;
    }
  }

  // --- Requests one after another ---------------------------------------------------

  /** A whole request, with what its work came to (None if it failed), or the
      collector. */
  datatype Event =
    | Serve(endpoint: string, request: string, outcome: Option<(int, string)>, now: int)
    | Collect(now: int)

  /** A request begins, does its work, completes and commits; a failure rolls its
      claim back. */
  function Served(row: Option<Row>, endpoint: string, request: string, outcome: Option<(int, string)>,
                  now: int): (Option<Row>, Answer)
  {
    var (claimed, answer) := Begun(row, endpoint, request, now);
    (if answer.Proceed? && outcome.Some? then Completed(claimed, outcome.value.0, outcome.value.1) else row, answer)
  }

  function Step(row: Option<Row>, e: Event): Option<Row>
  {
    match e
    case Serve(endpoint, request, outcome, now) => Served(row, endpoint, request, outcome, now).0
    case Collect(now) => Swept(row, now)
  }

  function AnswerTo(row: Option<Row>, e: Event): seq<Answer>
  {
    match e
    case Serve(endpoint, request, outcome, now) => [Served(row, endpoint, request, outcome, now).1]
    case Collect(_) => []
  }

  /** What a run's requests are told, in order. */
  function Answers(row: Option<Row>, events: seq<Event>): seq<Answer>
    decreases events
  {
    if events == [] then [] else AnswerTo(row, events[0]) + Answers(Step(row, events[0]), events[1..])
  }

  function WithoutCollecting(events: seq<Event>): seq<Event>
  {
    if events == [] then []
    else (if events[0].Collect? then [] else [events[0]]) + WithoutCollecting(events[1..])
  }

  predicate Clocked(events: seq<Event>, from: int)
  {
    events == [] || (from <= events[0].now && Clocked(events[1..], events[0].now))
  }

  /** What requests are told once `request` has been answered with `body`, read off the
      requests alone. */
  function Told(events: seq<Event>, request: string, body: string): seq<Answer>
  {
    if events == [] then []
    else
      (match events[0]
       case Collect(_) => []
       case Serve(_, r, _, _) => [if r == request then Replay(body) else Mismatched])
      + Told(events[1..], request, body)
  }

  predicate AllBy(events: seq<Event>, until: int)
  {
    forall e :: e in events ==> e.now <= until
  }

  /** A request does its work exactly when nothing is kept under its key, or what is has
      expired. If the work succeeds, every request of the next day gets its response, or
      a mismatch for another text, and none does its own; if it fails, nothing is left
      of it. */
  lemma ServedOnceADay(row: Option<Row>, endpoint: string, request: string, outcome: Option<(int, string)>, now: int,
                       events: seq<Event>)
    requires AllBy(events, now + 86_400)
    ensures
      var (after, answer) := Served(row, endpoint, request, outcome, now);
      && (answer.Proceed? <==> row.None? || row.value.expires < now)
      && (answer.Proceed? && outcome.Some? ==> Answers(after, events) == Told(events, request, outcome.value.1))
      && (!answer.Proceed? || outcome.None? ==> after == row)
  {
    var (after, answer) := Served(row, endpoint, request, outcome, now);
    if answer.Proceed? && outcome.Some? {
      AnsweredAlike(after.value, outcome.value.1, events);
    }
  }

  lemma {:induction false} AnsweredAlike(row: Row, body: string, events: seq<Event>)
    requires row.response == Some(body) && AllBy(events, row.expires)
    ensures Answers(Some(row), events) == Told(events, row.request, body)
    decreases events
  {
    if events != [] {
      assert events[0] in events;
      assert forall e :: e in events[1..] ==> e in events;
      AnsweredAlike(row, body, events[1..]);
    }
  }

  /** `slim` is `full`, or is gone where `full` has expired by `now`. */
  predicate CollectedFrom(full: Option<Row>, slim: Option<Row>, now: int)
  {
    slim == full || (slim.None? && full.value.expires < now)
  }

  lemma {:induction false} AnswersAgree(full: Option<Row>, slim: Option<Row>, events: seq<Event>, from: int)
    requires CollectedFrom(full, slim, from) && Clocked(events, from)
    ensures Answers(slim, events) == Answers(full, WithoutCollecting(events))
    decreases events
  {
    if events != [] {
      var e, rest := events[0], events[1..];
      if e.Collect? {
        AnswersAgree(full, Step(slim, e), rest, e.now);
        assert WithoutCollecting(events) == WithoutCollecting(rest);
      } else {
        AnswersAgree(Step(full, e), Step(slim, e), rest, e.now);
        assert WithoutCollecting(events) == [e] + WithoutCollecting(rest);
        assert WithoutCollecting(events)[1..] == WithoutCollecting(rest);
      }
    }
  }

  /** Taking the collector out of a run changes no answer. */
  lemma CollectingIsInvisible(row: Option<Row>, events: seq<Event>, from: int)
    requires Clocked(events, from)
    ensures Answers(row, events) == Answers(row, WithoutCollecting(events))
  {
    AnswersAgree(row, row, events, from);
  }
}
