/**
 One-time codes under requests that overlap, for one identifier and purpose. A
 verification reads its row without a lock, judges the guess on what it read, and
 writes later; a send asks for the cooldown key first and sets it after its row is
 flushed (app/services/otp_service.py). A world moves by single steps.
 */
module OtpRuns {
  import opened Options
  import opened OtpService
  import opened OtpBudget

  /** A row is visible to others from its commit; a rolled-back one never was. */
  datatype Standing = Flushed | Kept | Undone

  /** A row, and its history, which no step of the service reads: the wrong guesses
      written to it, how many of them over attempts other than those read, the
      redemptions committed, whether every write found it as read, and, of its
      send, how many rows there were when it checked the cooldown, and when. */
  datatype Entry = Entry(code: Code, standing: Standing, wrong: nat, lost: nat, redeemed: nat, asRead: bool,
                         checked: nat, checkedAt: int)

  /** What the caller is told. */
  datatype Reply = SendReply(answer: SendAnswer) | Verdict(outcome: Outcome) | Failed

  datatype Request =
    | Cleared(at: int, rows: nat)                 // a send that found no cooldown key
    | Issuing(row: nat)                           // its row flushed and its key set, nothing committed
    | Looked(glance: Glance)                      // a verification that has judged its guess
    | Holding(glance: Glance)                     // accepted and flushed; its caller has yet to commit
    | Finished(reply: Reply)

  /** What a verification read, when, and how many wrong guesses had been written. */
  datatype Glance = Glance(row: nat, seen: Code, guess: string, at: int, wrong: nat, step: nat)

  datatype Redemption = Redemption(row: nat, guess: string, at: int, read: nat, done: nat)

  datatype World = World(
    now: int, step: nat, entries: seq<Entry>, cooldown: Option<int>, requests: map<nat, Request>,
    hits: seq<Hit>, redemptions: seq<Redemption>)

  datatype Action =
    | Tick(elapsed: nat)
    | Check(req: nat)                             // send_otp: EXISTS
    | Issue(req: nat, secret: string)             // INSERT, then SETEX
    | Keep(req: nat)                              // its caller commits
    | Look(req: nat, guess: string)               // verify_and_consume: SELECT
    | Write(req: nat)                             // its UPDATE
    | Redeem(req: nat)                            // its caller commits an accepted guess
    | Drop(req: nat)                              // the request fails; what it flushed is rolled back

  /** The newest committed row not consumed, or the number of rows. */
  function Newest(entries: seq<Entry>): (k: nat)
    ensures k <= |entries|
    ensures k < |entries| ==> entries[k].standing.Kept? && entries[k].code.consumed.None?
    ensures forall i :: (if k < |entries| then k + 1 else 0) <= i < |entries| ==>
      !(entries[i].standing.Kept? && entries[i].code.consumed.None?)
  {
    if entries == [] then 0
    else
      var n := |entries| - 1;
      if entries[n].standing.Kept? && entries[n].code.consumed.None? then n
      else var k := Newest(entries[..n]); if k == n then |entries| else k
  }

  predicate CoolingDown(w: World) { w.cooldown.Some? && w.now < w.cooldown.value }

  /** A row with an uncommitted update makes other updates wait. */
  predicate Free(w: World, row: nat)
  {
    forall r :: r in w.requests && w.requests[r].Holding? ==> w.requests[r].glance.row != row
  }

  predicate Enabled(w: World, a: Action)
  {
    match a
    case Tick(_) => true
    case Check(req) => req !in w.requests
    case Issue(req, _) => req in w.requests && w.requests[req].Cleared?
    case Keep(req) => req in w.requests && w.requests[req].Issuing? && w.requests[req].row < |w.entries|
    case Look(req, _) => req !in w.requests
    case Write(req) =>
      req in w.requests && w.requests[req].Looked? && w.requests[req].glance.row < |w.entries|
      && Free(w, w.requests[req].glance.row)
    case Redeem(req) => req in w.requests && w.requests[req].Holding? && w.requests[req].glance.row < |w.entries|
    case Drop(req) => req in w.requests && !w.requests[req].Finished?
  }

  function Put(w: World, req: nat, r: Request): World { w.(requests := w.requests[req := r]) }

  function PutEntry(w: World, k: nat, e: Entry): World
    requires k < |w.entries|
  {
    w.(entries := w.entries[k := e])
  }

  function Checked(w: World, req: nat): World
  {
    if CoolingDown(w) then Put(w, req, Finished(SendReply(Wait(SecondsLeft(w.cooldown.value - w.now)))))
    else Put(w, req, Cleared(w.now, |w.entries|))
  }

  function IssuedBy(w: World, req: nat, secret: string, at: int, rows: nat): World
  {
    var e := Entry(Code(secret, w.now, w.now + TTL, 0, None), Flushed, 0, 0, 0, true, rows, at);
    Put(w, req, Issuing(|w.entries|)).(entries := w.entries + [e], cooldown := Some(w.now + COOLDOWN))
  }

  function LookedBy(w: World, req: nat, guess: string): World
  {
    var k := Newest(w.entries);
    if k == |w.entries| then Put(w, req, Finished(Verdict(NoPending)))
    else if Judged(w.entries[k].code, guess, w.now).Expired? then Put(w, req, Finished(Verdict(Expired)))
    else Put(w, req, Looked(Glance(k, w.entries[k].code, guess, w.now, w.entries[k].wrong, w.step)))
  }

  /** A wrong guess: the counter becomes one more than was read. */
  function Missed(e: Entry, g: Glance): Entry
  {
    e.(code := e.code.(attempts := g.seen.attempts + 1), wrong := e.wrong + 1,
       lost := e.lost + (if e.code.attempts != g.seen.attempts then 1 else 0),
       asRead := e.asRead && e.code == g.seen)
  }

  function Burned(e: Entry, g: Glance): Entry
  {
    e.(code := e.code.(consumed := Some(g.at)), asRead := e.asRead && e.code == g.seen)
  }

  function Spent(e: Entry, g: Glance): Entry
  {
    e.(code := e.code.(consumed := Some(g.at)), redeemed := e.redeemed + 1, asRead := e.asRead && e.code == g.seen)
  }

  function WrittenBy(w: World, req: nat, g: Glance): World
    requires g.row < |w.entries|
  {
    match Judged(g.seen, g.guess, g.at)
    case Incorrect =>
      Put(PutEntry(w, g.row, Missed(w.entries[g.row], g)), req, Finished(Verdict(Incorrect))).(
        hits := w.hits + [Hit(g.row, g.at)])
    case TooMany => Put(PutEntry(w, g.row, Burned(w.entries[g.row], g)), req, Finished(Verdict(TooMany)))
    case Accepted => Put(w, req, Holding(g))
    case other => Put(w, req, Finished(Verdict(other)))
  }

  function RedeemedBy(w: World, req: nat, g: Glance): World
    requires g.row < |w.entries|
  {
    Put(PutEntry(w, g.row, Spent(w.entries[g.row], g)), req, Finished(Verdict(Accepted))).(
      hits := w.hits + [Hit(g.row, g.at)],
      redemptions := w.redemptions + [Redemption(g.row, g.guess, g.at, g.step, w.step)])
  }

  function Dropped(w: World, req: nat): World
    requires req in w.requests
  {
    var r := w.requests[req];
    var w' := Put(w, req, Finished(Failed));
    if r.Issuing? && r.row < |w.entries| then PutEntry(w', r.row, w.entries[r.row].(standing := Undone)) else w'
  }

  function Act(w: World, a: Action): World
    requires Enabled(w, a)
  {
    match a
    case Tick(elapsed) => w.(now := w.now + elapsed)
    case Check(req) => Checked(w, req)
    case Issue(req, secret) => IssuedBy(w, req, secret, w.requests[req].at, w.requests[req].rows)
    case Keep(req) =>
      Put(PutEntry(w, w.requests[req].row, w.entries[w.requests[req].row].(standing := Kept)),
          req, Finished(SendReply(Issued)))
    case Look(req, guess) => LookedBy(w, req, guess)
    case Write(req) => WrittenBy(w, req, w.requests[req].glance)
    case Redeem(req) => RedeemedBy(w, req, w.requests[req].glance)
    case Drop(req) => Dropped(w, req)
  }

  function Next(w: World, a: Action): World
  {
    (if Enabled(w, a) then Act(w, a) else w).(step := w.step + 1)
  }

  function Play(w: World, actions: seq<Action>): World
    decreases actions
  {
    if actions == [] then w else Play(Next(w, actions[0]), actions[1..])
  }

  predicate Fresh(w: World)
  {
    w.entries == [] && w.cooldown.None? && w.requests == map[] && w.hits == [] && w.redemptions == []
  }

  // --- Rows and the requests that have read them ---------------------------------------

  /** What a row's columns say of its history. */
  predicate EntryInv(e: Entry)
  {
    && e.code.expires == e.code.issued + TTL
    && e.code.attempts <= e.wrong && e.code.attempts <= MAX_ATTEMPTS
    && (e.code.attempts == e.wrong <==> e.lost == 0)
    && (e.code.consumed.None? ==> e.redeemed == 0)
    && (e.asRead ==> e.lost == 0 && e.redeemed <= 1 && e.wrong + e.redeemed <= MAX_ATTEMPTS)
  }

  /** What a verification still knows of its row. */
  predicate GlanceInv(g: Glance, e: Entry)
  {
    && g.seen.secret == e.code.secret && g.seen.issued == e.code.issued && g.seen.expires == e.code.expires
    && g.seen.consumed.None?
    && g.seen.attempts <= g.wrong <= e.wrong && (g.wrong == e.wrong ==> g.seen.attempts == e.code.attempts)
  }

  predicate Reading(r: Request) { r.Looked? || r.Holding? }

  predicate RequestInv(entries: seq<Entry>, r: Request)
  {
    && (Reading(r) ==> r.glance.row < |entries| && GlanceInv(r.glance, entries[r.glance.row]))
    && (r.Looked? ==> !Judged(r.glance.seen, r.glance.guess, r.glance.at).Expired?)
    && (r.Holding? ==> Judged(r.glance.seen, r.glance.guess, r.glance.at).Accepted?)
  }

  ghost predicate Inv(w: World)
  {
    && (forall k :: 0 <= k < |w.entries| ==> EntryInv(w.entries[k]))
    && (forall q :: q in w.requests ==> RequestInv(w.entries, w.requests[q]))
  }

  /** What a step may change of a row. */
  predicate Follows(e: Entry, after: Entry)
  {
    && after.code.secret == e.code.secret && after.code.issued == e.code.issued && after.code.expires == e.code.expires
    && after.wrong >= e.wrong && (after.wrong == e.wrong ==> after.code.attempts == e.code.attempts)
  }

  predicate Grows(a: seq<Entry>, b: seq<Entry>)
  {
    |a| <= |b| && forall k :: 0 <= k < |a| ==> Follows(a[k], b[k])
  }

  lemma RequestFrame(a: seq<Entry>, b: seq<Entry>, r: Request)
    requires RequestInv(a, r) && Grows(a, b)
    ensures RequestInv(b, r)
  {
  }

  /** One request moves on, and the rows grow. */
  lemma StepInv(w: World, after: World, req: nat, r: Request)
    requires Inv(w) && Grows(w.entries, after.entries) && after.requests == w.requests[req := r]
    requires forall k :: 0 <= k < |after.entries| ==> EntryInv(after.entries[k])
    requires RequestInv(after.entries, r)
    ensures Inv(after)
  {
    forall q | q in after.requests
      ensures RequestInv(after.entries, after.requests[q])
    {
      if q != req { RequestFrame(w.entries, after.entries, w.requests[q]); }
    }
  }

  /** And one row is rewritten. */
  lemma RowInv(w: World, after: World, req: nat, r: Request, k: nat, e: Entry)
    requires Inv(w) && k < |w.entries| && EntryInv(e) && Follows(w.entries[k], e)
    requires after.entries == w.entries[k := e] && after.requests == w.requests[req := r]
    requires !Reading(r)
    ensures Inv(after)
  {
    StepInv(w, after, req, r);
  }

  lemma MissedKeepsEntry(e: Entry, g: Glance)
    requires EntryInv(e) && GlanceInv(g, e) && Judged(g.seen, g.guess, g.at).Incorrect?
    ensures EntryInv(Missed(e, g)) && Follows(e, Missed(e, g))
  {
  }

  lemma BurnedKeepsEntry(e: Entry, g: Glance)
    requires EntryInv(e) && GlanceInv(g, e)
    ensures EntryInv(Burned(e, g)) && Follows(e, Burned(e, g))
  {
  }

  lemma SpentKeepsEntry(e: Entry, g: Glance)
    requires EntryInv(e) && GlanceInv(g, e) && Judged(g.seen, g.guess, g.at).Accepted?
    ensures EntryInv(Spent(e, g)) && Follows(e, Spent(e, g))
  {
  }

  lemma LookKeepsInv(w: World, req: nat, guess: string)
    requires Inv(w)
    ensures Inv(LookedBy(w, req, guess))
  {
    var after := LookedBy(w, req, guess);
    StepInv(w, after, req, after.requests[req]);
  }

  lemma WriteKeepsInv(w: World, req: nat, g: Glance)
    requires Inv(w) && req in w.requests && w.requests[req] == Looked(g) && g.row < |w.entries|
    ensures Inv(WrittenBy(w, req, g))
  {
    var e, after := w.entries[g.row], WrittenBy(w, req, g);
    assert RequestInv(w.entries, w.requests[req]) && EntryInv(e);
    match Judged(g.seen, g.guess, g.at)
    case Incorrect =>
      MissedKeepsEntry(e, g);
      RowInv(w, after, req, after.requests[req], g.row, Missed(e, g));
    case TooMany =>
      BurnedKeepsEntry(e, g);
      RowInv(w, after, req, after.requests[req], g.row, Burned(e, g));
    case Accepted => StepInv(w, after, req, Holding(g));
    case _ =>
  }

  lemma RedeemKeepsInv(w: World, req: nat, g: Glance)
    requires Inv(w) && req in w.requests && w.requests[req] == Holding(g) && g.row < |w.entries|
    ensures Inv(RedeemedBy(w, req, g))
  {
    var e := w.entries[g.row];
    assert RequestInv(w.entries, w.requests[req]) && EntryInv(e);
    SpentKeepsEntry(e, g);
    RowInv(w, RedeemedBy(w, req, g), req, Finished(Verdict(Accepted)), g.row, Spent(e, g));
  }

  lemma SettleKeepsInv(w: World, req: nat, k: nat, standing: Standing, reply: Reply)
    requires Inv(w) && k < |w.entries|
    ensures Inv(Put(PutEntry(w, k, w.entries[k].(standing := standing)), req, Finished(reply)))
  {
    var e := w.entries[k].(standing := standing);
    RowInv(w, Put(PutEntry(w, k, e), req, Finished(reply)), req, Finished(reply), k, e);
  }

  lemma ActKeepsInv(w: World, a: Action)
    requires Inv(w) && Enabled(w, a)
    ensures Inv(Act(w, a))
  {
    match a
    case Tick(_) =>
    case Check(req) => StepInv(w, Act(w, a), req, Act(w, a).requests[req]);
    case Issue(req, _) => StepInv(w, Act(w, a), req, Act(w, a).requests[req]);
    case Keep(req) => SettleKeepsInv(w, req, w.requests[req].row, Kept, SendReply(Issued));
    case Look(req, guess) => LookKeepsInv(w, req, guess);
    case Write(req) => WriteKeepsInv(w, req, w.requests[req].glance);
    case Redeem(req) => RedeemKeepsInv(w, req, w.requests[req].glance);
    case Drop(req) => DropKeepsInv(w, req);
  }

  lemma DropKeepsInv(w: World, req: nat)
    requires Inv(w) && req in w.requests
    ensures Inv(Dropped(w, req))
  {
    var r := w.requests[req];
    if r.Issuing? && r.row < |w.entries| {
      SettleKeepsInv(w, req, r.row, Undone, Failed);
    } else {
      StepInv(w, Dropped(w, req), req, Finished(Failed));
    }
  }

  lemma NextKeepsInv(w: World, a: Action)
    requires Inv(w)
    ensures Inv(Next(w, a))
  {
    if Enabled(w, a) { ActKeepsInv(w, a); }
  }

  lemma {:induction false} PlayKeepsInv(w: World, actions: seq<Action>)
    requires Inv(w)
    ensures Inv(Play(w, actions))
    decreases actions
  {
    if actions != [] {
      NextKeepsInv(w, actions[0]);
      PlayKeepsInv(Next(w, actions[0]), actions[1..]);
    }
  }

  // --- What is logged ----------------------------------------------------------------------

  function RedeemedOn(log: seq<Redemption>, c: nat): nat
  {
    if log == [] then 0
    else RedeemedOn(log[..|log| - 1], c) + if log[|log| - 1].row == c then 1 else 0
  }

  function WrongOf(w: World, c: nat): nat { if c < |w.entries| then w.entries[c].wrong else 0 }

  function RedeemedOf(w: World, c: nat): nat { if c < |w.entries| then w.entries[c].redeemed else 0 }

  /** The logs agree with the rows' counts. */
  ghost predicate CountsInv(w: World)
  {
    forall c: nat ::
      HitsOn(w.hits, c) == WrongOf(w, c) + RedeemedOf(w, c) && RedeemedOn(w.redemptions, c) == RedeemedOf(w, c)
  }

  /** The step compares nothing for good. */
  ghost predicate Quiet(w: World, after: World)
  {
    && after.hits == w.hits && after.redemptions == w.redemptions
    && forall c: nat :: WrongOf(after, c) == WrongOf(w, c) && RedeemedOf(after, c) == RedeemedOf(w, c)
  }

  predicate Misses(w: World, a: Action)
  {
    && a.Write? && Enabled(w, a)
    && var g := w.requests[a.req].glance; Judged(g.seen, g.guess, g.at).Incorrect?
  }

  predicate Redeems(w: World, a: Action) { a.Redeem? && Enabled(w, a) }

  lemma OtherStepsAreQuiet(w: World, a: Action)
    requires !Misses(w, a) && !Redeems(w, a)
    ensures Quiet(w, Next(w, a))
  {
  }

  lemma HitLogged(hits: seq<Hit>, h: Hit)
    ensures forall c: nat :: HitsOn(hits + [h], c) == HitsOn(hits, c) + if h.row == c then 1 else 0
  {
    forall c: nat
      ensures HitsOn(hits + [h], c) == HitsOn(hits, c) + if h.row == c then 1 else 0
    {
      HitsOneMore(hits, h, c);
    }
  }

  lemma RedemptionLogged(log: seq<Redemption>, r: Redemption)
    ensures forall c: nat :: RedeemedOn(log + [r], c) == RedeemedOn(log, c) + if r.row == c then 1 else 0
  {
    assert (log + [r])[..|log|] == log;
  }

  lemma NextKeepsCounts(w: World, a: Action)
    requires CountsInv(w)
    ensures CountsInv(Next(w, a))
  {
    if Misses(w, a) {
      var g := w.requests[a.req].glance;
      HitLogged(w.hits, Hit(g.row, g.at));
    } else if Redeems(w, a) {
      var g := w.requests[a.req].glance;
      HitLogged(w.hits, Hit(g.row, g.at));
      RedemptionLogged(w.redemptions, Redemption(g.row, g.guess, g.at, g.step, w.step));
    } else {
      OtherStepsAreQuiet(w, a);
    }
  }

  /** Rows were issued in the past, and read after that. */
  ghost predicate TimedInv(w: World)
  {
    && (forall k :: 0 <= k < |w.entries| ==> w.entries[k].code.issued <= w.now)
    && (forall q :: q in w.requests && Reading(w.requests[q]) ==> GlanceTimed(w, w.requests[q].glance))
  }

  predicate GlanceTimed(w: World, g: Glance)
  {
    g.row < |w.entries| && w.entries[g.row].code.issued <= g.at <= w.now && g.step < w.step
  }

  predicate SameRows(w: World, after: World)
  {
    && w.now <= after.now && w.step < after.step && |w.entries| <= |after.entries|
    && (forall k :: 0 <= k < |w.entries| ==>
          after.entries[k].code.issued == w.entries[k].code.issued
          && after.entries[k].code.secret == w.entries[k].code.secret)
    && (forall k :: |w.entries| <= k < |after.entries| ==> after.entries[k].code.issued <= after.now)
  }

  lemma StepKeepsRows(w: World, a: Action)
    ensures SameRows(w, Next(w, a))
  {
  }

  /** A request that has read had read before, or has just. */
  predicate ReadBefore(w: World, q: nat, r: Request)
  {
    && Reading(r)
    && (|| (q in w.requests && Reading(w.requests[q]) && r.glance == w.requests[q].glance)
        || (r.glance.row < |w.entries| && r.glance.at == w.now && r.glance.step == w.step))
  }

  lemma StepReads(w: World, a: Action)
    ensures forall q :: q in Next(w, a).requests && Reading(Next(w, a).requests[q]) ==>
      ReadBefore(w, q, Next(w, a).requests[q])
  {
  }

  lemma TimesFrame(w: World, after: World)
    requires TimedInv(w) && SameRows(w, after)
    requires forall q :: q in after.requests && Reading(after.requests[q]) ==> ReadBefore(w, q, after.requests[q])
    ensures TimedInv(after)
  {
    forall q | q in after.requests && Reading(after.requests[q])
      ensures GlanceTimed(after, after.requests[q].glance)
    {
      assert ReadBefore(w, q, after.requests[q]);
      if q in w.requests && Reading(w.requests[q]) { assert GlanceTimed(w, w.requests[q].glance); }
    }
  }

  lemma NextKeepsTimes(w: World, a: Action)
    requires TimedInv(w)
    ensures TimedInv(Next(w, a)) && SameRows(w, Next(w, a))
  {
    StepKeepsRows(w, a);
    StepReads(w, a);
    TimesFrame(w, Next(w, a));
  }

  predicate HitInLife(w: World, h: Hit)
  {
    h.row < |w.entries| && w.entries[h.row].code.issued <= h.now < w.entries[h.row].code.issued + TTL
  }

  predicate RedemptionInLife(w: World, r: Redemption)
  {
    r.row < |w.entries| && w.entries[r.row].code.issued <= r.at < w.entries[r.row].code.issued + TTL
    && r.guess == w.entries[r.row].code.secret && r.read < r.done < w.step
  }

  predicate LifeInv(w: World)
  {
    (forall h :: h in w.hits ==> HitInLife(w, h)) && (forall r :: r in w.redemptions ==> RedemptionInLife(w, r))
  }

  lemma NextKeepsLife(w: World, a: Action)
    requires Inv(w) && TimedInv(w) && LifeInv(w)
    ensures LifeInv(Next(w, a))
  {
    NextKeepsTimes(w, a);
    if Misses(w, a) || Redeems(w, a) {
      assert RequestInv(w.entries, w.requests[a.req]) && EntryInv(w.entries[w.requests[a.req].glance.row]);
    } else {
      OtherStepsAreQuiet(w, a);
    }
  }

  /** Whoever read a row read it before any redemption of it was committed. */
  predicate ReadFirst(log: seq<Redemption>, g: Glance)
  {
    forall i :: 0 <= i < |log| && log[i].row == g.row ==> g.step < log[i].done
  }

  ghost predicate OverlapInv(w: World)
  {
    && (forall i, j :: 0 <= i < j < |w.redemptions| && w.redemptions[i].row == w.redemptions[j].row ==>
          w.redemptions[j].read < w.redemptions[i].done)
    && (forall q :: q in w.requests && Reading(w.requests[q]) ==> ReadFirst(w.redemptions, w.requests[q].glance))
  }

  lemma {:induction false} NoneLogged(log: seq<Redemption>, c: nat)
    requires RedeemedOn(log, c) == 0
    ensures forall i :: 0 <= i < |log| ==> log[i].row != c
  {
    if log != [] { NoneLogged(log[..|log| - 1], c); }
  }

  /** A row that can be read has no redemption to have been read after. */
  lemma PendingIsUnredeemed(w: World)
    requires Inv(w) && CountsInv(w) && Newest(w.entries) < |w.entries|
    ensures forall i :: 0 <= i < |w.redemptions| ==> w.redemptions[i].row != Newest(w.entries)
  {
    var k := Newest(w.entries);
    assert EntryInv(w.entries[k]) && RedeemedOn(w.redemptions, k) == RedeemedOf(w, k);
    NoneLogged(w.redemptions, k);
  }

  lemma NextKeepsOverlap(w: World, a: Action)
    requires Inv(w) && CountsInv(w) && TimedInv(w) && OverlapInv(w)
    ensures OverlapInv(Next(w, a))
  {
    if Redeems(w, a) {
      assert GlanceTimed(w, w.requests[a.req].glance);
    } else if Misses(w, a) {
    } else {
      OtherStepsAreQuiet(w, a);
      if a.Look? && Newest(w.entries) < |w.entries| { PendingIsUnredeemed(w); }
    }
  }

  ghost predicate FullInv(w: World)
  {
    Inv(w) && CountsInv(w) && TimedInv(w) && LifeInv(w) && OverlapInv(w)
  }

  lemma {:induction false} PlayKeepsAll(w: World, actions: seq<Action>)
    requires FullInv(w)
    ensures FullInv(Play(w, actions))
    decreases actions
  {
    if actions != [] {
      var a := actions[0];
      NextKeepsInv(w, a);
      NextKeepsCounts(w, a);
      NextKeepsTimes(w, a);
      NextKeepsLife(w, a);
      NextKeepsOverlap(w, a);
      PlayKeepsAll(Next(w, a), actions[1..]);
    }
  }

  lemma FreshHasInv(w: World)
    requires Fresh(w)
    ensures FullInv(w)
  {
  }

  // --- What a run can show: one code ------------------------------------------------------------

  /** The stored counter never exceeds the budget, and it is the number of wrong
      guesses if and only if none of them was written over attempts other than
      those it had read. */
  lemma CounterIsExactIff(w: World, actions: seq<Action>, c: nat)
    requires Fresh(w) && c < |Play(w, actions).entries|
    ensures
      var e := Play(w, actions).entries[c];
      && e.code.attempts <= MAX_ATTEMPTS && e.code.attempts <= e.wrong
      && (e.code.attempts == e.wrong <==> e.lost == 0)
  {
    FreshHasInv(w);
    PlayKeepsInv(w, actions);
    assert EntryInv(Play(w, actions).entries[c]);
  }

  /** A code whose row every write found as its verification had read it is compared
      at most MAX_ATTEMPTS times, and accepted at most once. */
  lemma EachCodeIsBounded(w: World, actions: seq<Action>, c: nat)
    requires Fresh(w) && c < |Play(w, actions).entries| && Play(w, actions).entries[c].asRead
    ensures HitsOn(Play(w, actions).hits, c) <= MAX_ATTEMPTS && RedeemedOn(Play(w, actions).redemptions, c) <= 1
  {
    FreshHasInv(w);
    PlayKeepsAll(w, actions);
    assert EntryInv(Play(w, actions).entries[c]);
  }

  /** Two redemptions of one row, the later having read it before the earlier was
      committed. */
  predicate Overlapping(log: seq<Redemption>, c: nat)
  {
    exists i, j :: 0 <= i < j < |log| && log[i].row == c == log[j].row && log[j].read < log[i].done
  }

  lemma {:induction false} RedeemedOnce(log: seq<Redemption>, c: nat) returns (i: nat)
    requires RedeemedOn(log, c) > 0
    ensures i < |log| && log[i].row == c
  {
    if log[|log| - 1].row == c {
      i := |log| - 1;
    } else {
      i := RedeemedOnce(log[..|log| - 1], c);
    }
  }

  lemma {:induction false} RedeemedTwice(log: seq<Redemption>, c: nat) returns (i: nat, j: nat)
    requires RedeemedOn(log, c) > 1
    ensures i < j < |log| && log[i].row == c == log[j].row
  {
    var n := |log| - 1;
    if log[n].row == c {
      i := RedeemedOnce(log[..n], c);
      j := n;
    } else {
      i, j := RedeemedTwice(log[..n], c);
    }
  }

  lemma {:induction false} RedeemedBoth(log: seq<Redemption>, c: nat, i: nat, j: nat)
    requires i < j < |log| && log[i].row == c == log[j].row
    ensures RedeemedOn(log, c) > 1
  {
    var n := |log| - 1;
    if j < n {
      RedeemedBoth(log[..n], c, i, j);
    } else {
      assert log[..n][i].row == c;
      if RedeemedOn(log[..n], c) == 0 { NoneLogged(log[..n], c); }
    }
  }

  /** Over any run, a code is accepted more than once if and only if two acceptances
      of it overlapped. */
  lemma AcceptedOnceIff(w: World, actions: seq<Action>, c: nat)
    requires Fresh(w)
    ensures
      var log := Play(w, actions).redemptions;
      RedeemedOn(log, c) <= 1 <==> !Overlapping(log, c)
  {
    FreshHasInv(w);
    PlayKeepsAll(w, actions);
    var log := Play(w, actions).redemptions;
    if RedeemedOn(log, c) > 1 {
      var i, j := RedeemedTwice(log, c);
      assert log[j].read < log[i].done;
    }
    if Overlapping(log, c) {
      var i, j :| 0 <= i < j < |log| && log[i].row == c == log[j].row && log[j].read < log[i].done;
      RedeemedBoth(log, c, i, j);
    }
  }

  /** An accepted guess is the code its row was sent with, within TTL of the send. */
  lemma AcceptedWasSent(w: World, actions: seq<Action>, i: nat)
    requires Fresh(w) && i < |Play(w, actions).redemptions|
    ensures
      var end := Play(w, actions);
      var r := end.redemptions[i];
      && r.row < |end.entries| && r.guess == end.entries[r.row].code.secret
      && end.entries[r.row].code.issued <= r.at < end.entries[r.row].code.issued + TTL
  {
    FreshHasInv(w);
    PlayKeepsAll(w, actions);
    assert RedemptionInLife(Play(w, actions), Play(w, actions).redemptions[i]);
  }

  // --- Overlaps do it ---------------------------------------------------------------------------

  /** Two verifications that read one row with the right guess are both accepted,
      from any state. */
  lemma OverlapAcceptsTwice(w: World, a: nat, b: nat)
    requires a in w.requests && b in w.requests && a != b && w.requests[a].Looked? && w.requests[b].Looked?
    requires
      var g, h := w.requests[a].glance, w.requests[b].glance;
      && g.row == h.row < |w.entries| && Free(w, g.row)
      && Judged(g.seen, g.guess, g.at).Accepted? && Judged(h.seen, h.guess, h.at).Accepted?
    ensures
      var c := w.requests[a].glance.row;
      var end := Next(Next(Next(Next(w, Write(a)), Redeem(a)), Write(b)), Redeem(b));
      c < |end.entries| && end.entries[c].redeemed == w.entries[c].redeemed + 2
  {
  }

  /** Two wrong guesses that read one row cost it one attempt between them. */
  lemma OverlapLosesGuess(w: World, a: nat, b: nat)
    requires a in w.requests && b in w.requests && a != b && w.requests[a].Looked? && w.requests[b].Looked?
    requires
      var g, h := w.requests[a].glance, w.requests[b].glance;
      && g.row == h.row < |w.entries| && Free(w, g.row) && g.seen == h.seen == w.entries[g.row].code
      && Judged(g.seen, g.guess, g.at).Incorrect? && Judged(h.seen, h.guess, h.at).Incorrect?
    ensures
      var c := w.requests[a].glance.row;
      var end := Next(Next(w, Write(a)), Write(b));
      && c < |end.entries| && end.entries[c].wrong == w.entries[c].wrong + 2
      && end.entries[c].code.attempts == w.entries[c].code.attempts + 1 && end.entries[c].lost == w.entries[c].lost + 1
  {
  }

  predicate Readable(w: World, c: nat)
  {
    c < |w.entries| && Newest(w.entries) == c && Free(w, c) && w.now < w.entries[c].code.expires
    && w.entries[c].code.attempts < MAX_ATTEMPTS
  }

  lemma BothLook(w: World, a: nat, b: nat, guess: string, c: nat)
    requires Readable(w, c) && a !in w.requests && b !in w.requests && a != b
    ensures
      var end := Next(Next(w, Look(a, guess)), Look(b, guess));
      && end.entries == w.entries && Free(end, c)
      && a in end.requests
      && end.requests[a] == Looked(Glance(c, w.entries[c].code, guess, w.now, w.entries[c].wrong, w.step))
      && b in end.requests
      && end.requests[b] == Looked(Glance(c, w.entries[c].code, guess, w.now, w.entries[c].wrong, w.step + 1))
  {
  }

  /** So whenever a code is there to be guessed, two right guesses at once are both
      accepted, and two wrong ones at once use up one attempt. */
  lemma AnyCodeCanBeOverlapped(w: World, a: nat, b: nat, guess: string, c: nat)
    requires Readable(w, c) && a !in w.requests && b !in w.requests && a != b
    ensures
      var both := Next(Next(w, Look(a, guess)), Look(b, guess));
      var right := Next(Next(Next(Next(both, Write(a)), Redeem(a)), Write(b)), Redeem(b));
      var wrong := Next(Next(both, Write(a)), Write(b));
      && (guess == w.entries[c].code.secret ==>
          c < |right.entries| && right.entries[c].redeemed == w.entries[c].redeemed + 2)
      && (guess != w.entries[c].code.secret ==>
            c < |wrong.entries| && wrong.entries[c].wrong == w.entries[c].wrong + 2
            && wrong.entries[c].code.attempts == w.entries[c].code.attempts + 1)
  {
    BothLook(w, a, b, guess, c);
    var both := Next(Next(w, Look(a, guess)), Look(b, guess));
    if guess == w.entries[c].code.secret { OverlapAcceptsTwice(both, a, b); } else { OverlapLosesGuess(both, a, b); }
  }

  // --- One guess after another -------------------------------------------------------------------

  /** `n` guesses, none reading before the one before it has written. */
  function Guesses(req: nat, guess: string, n: nat): seq<Action>
    decreases n
  {
    if n == 0 then [] else [Look(req, guess), Write(req)] + Guesses(req + 1, guess, n - 1)
  }

  /** The row is the one a verification would read, and it would miss. */
  predicate Missable(w: World, c: nat, guess: string)
  {
    && c < |w.entries| && Newest(w.entries) == c && Free(w, c)
    && w.now < w.entries[c].code.expires && guess != w.entries[c].code.secret
  }

  predicate Unused(w: World, req: nat) { forall q :: q in w.requests ==> q < req }

  lemma NewestIsUnique(entries: seq<Entry>, k: nat)
    requires k < |entries| && entries[k].standing.Kept? && entries[k].code.consumed.None?
    requires forall i :: k < i < |entries| ==> !(entries[i].standing.Kept? && entries[i].code.consumed.None?)
    ensures Newest(entries) == k
  {
  }

  lemma OneGuess(w: World, c: nat, guess: string, req: nat)
    requires Missable(w, c, guess) && Unused(w, req) && w.entries[c].code.attempts < MAX_ATTEMPTS
    ensures
      var end := Next(Next(w, Look(req, guess)), Write(req));
      && Missable(end, c, guess) && Unused(end, req + 1)
      && end.entries[c].wrong == w.entries[c].wrong + 1
      && end.entries[c].code.attempts == w.entries[c].code.attempts + 1
  {
    var looked := Next(w, Look(req, guess));
    var end := Next(looked, Write(req));
    var g := looked.requests[req].glance;
    assert looked.entries == w.entries && g == Glance(c, w.entries[c].code, guess, w.now, w.entries[c].wrong, w.step);
    assert Free(looked, c);
    assert end.entries == w.entries[c := Missed(w.entries[c], g)];
    NewestIsUnique(end.entries, c);
  }

  lemma PlayTwo(w: World, a: Action, b: Action, rest: seq<Action>)
    ensures Play(w, [a, b] + rest) == Play(Next(Next(w, a), b), rest)
  {
    assert ([a, b] + rest)[1..] == [b] + rest && ([b] + rest)[1..] == rest;
  }

  lemma GuessesUnfold(w: World, req: nat, guess: string, n: nat)
    requires n > 0
    ensures Play(w, Guesses(req, guess, n)) ==
      Play(Next(Next(w, Look(req, guess)), Write(req)), Guesses(req + 1, guess, n - 1))
  {
    PlayTwo(w, Look(req, guess), Write(req), Guesses(req + 1, guess, n - 1));
  }

  lemma {:induction false} GuessesCount(w: World, c: nat, guess: string, req: nat, n: nat)
    requires Missable(w, c, guess) && Unused(w, req) && w.entries[c].code.attempts + n <= MAX_ATTEMPTS
    ensures
      var end := Play(w, Guesses(req, guess, n));
      && Missable(end, c, guess)
      && end.entries[c].wrong == w.entries[c].wrong + n
      && end.entries[c].code.attempts == w.entries[c].code.attempts + n
    decreases n
  {
    if n > 0 {
      var next := Next(Next(w, Look(req, guess)), Write(req));
      OneGuess(w, c, guess, req);
      GuessesUnfold(w, req, guess, n);
      GuessesCount(next, c, guess, req + 1, n - 1);
    }
  }

  /** Guessing on, one at a time, until the counter is full: the code has then been
      guessed at most MAX_ATTEMPTS times in all if and only if no guess at it was
      ever lost to an overlap; each lost one buys another. */
  lemma BudgetHoldsIff(w: World, actions: seq<Action>, c: nat, guess: string, req: nat)
    requires Fresh(w) && Missable(Play(w, actions), c, guess) && Unused(Play(w, actions), req)
    ensures Play(w, actions).entries[c].code.attempts <= MAX_ATTEMPTS
    ensures
      var now := Play(w, actions);
      var end := Play(now, Guesses(req, guess, MAX_ATTEMPTS - now.entries[c].code.attempts));
      && c < |end.entries| && end.entries[c].code.attempts == MAX_ATTEMPTS
      && end.entries[c].wrong == MAX_ATTEMPTS + (now.entries[c].wrong - now.entries[c].code.attempts)
      && (end.entries[c].wrong <= MAX_ATTEMPTS <==> now.entries[c].lost == 0)
  {
    CounterIsExactIff(w, actions, c);
    var now := Play(w, actions);
    GuessesCount(now, c, guess, req, MAX_ATTEMPTS - now.entries[c].code.attempts);
  }

  // --- One request alone ---------------------------------------------------------------------------

  function Codes(entries: seq<Entry>): seq<Code>
  {
    seq(|entries|, k requires 0 <= k < |entries| => entries[k].code)
  }

  predicate AllKept(entries: seq<Entry>) { forall k :: 0 <= k < |entries| ==> entries[k].standing.Kept? }

  lemma NewestIsPending(entries: seq<Entry>)
    requires AllKept(entries)
    ensures Newest(entries) == Pending(Codes(entries))
  {
    PendingIsUnique(Codes(entries), Newest(entries));
  }

  /** A verification with nothing between its steps does what `Verified` says. */
  lemma AloneIsVerified(w: World, req: nat, guess: string)
    requires AllKept(w.entries) && req !in w.requests && forall q :: q in w.requests ==> !w.requests[q].Holding?
    ensures
      var end := Next(Next(Next(w, Look(req, guess)), Write(req)), Redeem(req));
      var (desk, outcome) := Verified(Desk(Codes(w.entries), w.cooldown), guess, w.now);
      && Codes(end.entries) == desk.codes && end.cooldown == desk.cooldown
      && req in end.requests && end.requests[req] == Finished(Verdict(outcome))
      && AllKept(end.entries)
      && forall k :: 0 <= k < |w.entries| ==> end.entries[k].asRead == w.entries[k].asRead
  {
    NewestIsPending(w.entries);
    var k := Newest(w.entries);
    if k < |w.entries| && !Judged(w.entries[k].code, guess, w.now).Expired? {
      AloneIsMarked(w, req, guess, k);
    } else {
      AloneIsTurnedAway(w, req, guess);
    }
  }

  lemma AloneIsTurnedAway(w: World, req: nat, guess: string)
    requires req !in w.requests
    requires
      var k := Newest(w.entries);
      k < |w.entries| ==> Judged(w.entries[k].code, guess, w.now).Expired?
    ensures
      var end := Next(Next(Next(w, Look(req, guess)), Write(req)), Redeem(req));
      && end.entries == w.entries && end.cooldown == w.cooldown && req in end.requests
      && end.requests[req] == Finished(Verdict(if Newest(w.entries) == |w.entries| then NoPending else Expired))
  {
  }

  lemma AloneIsMarked(w: World, req: nat, guess: string, k: nat)
    requires req !in w.requests && forall q :: q in w.requests ==> !w.requests[q].Holding?
    requires k == Newest(w.entries) < |w.entries| && !Judged(w.entries[k].code, guess, w.now).Expired?
    ensures
      var outcome := Judged(w.entries[k].code, guess, w.now);
      var end := Next(Next(Next(w, Look(req, guess)), Write(req)), Redeem(req));
      && Codes(end.entries) == Codes(w.entries)[k := Marked(w.entries[k].code, outcome, w.now)]
      && end.cooldown == w.cooldown && req in end.requests && end.requests[req] == Finished(Verdict(outcome))
      && forall j :: 0 <= j < |w.entries| ==>
           end.entries[j].asRead == w.entries[j].asRead && end.entries[j].standing == w.entries[j].standing
  {
    var outcome := Judged(w.entries[k].code, guess, w.now);
    var looked := Next(w, Look(req, guess));
    assert looked.entries == w.entries && Free(looked, k);
    var end := Next(Next(looked, Write(req)), Redeem(req));
    assert |end.entries| == |w.entries| && end.entries[k].code == Marked(w.entries[k].code, outcome, w.now);
    assert forall j :: 0 <= j < |w.entries| && j != k ==> end.entries[j] == w.entries[j];
  }

  /** And a send, kept, what `Sent` says. */
  lemma AloneIsSent(w: World, req: nat, secret: string)
    requires req !in w.requests
    ensures
      var end := Next(Next(Next(w, Check(req)), Issue(req, secret)), Keep(req));
      var (desk, answer) := Sent(Desk(Codes(w.entries), w.cooldown), secret, w.now);
      && Desk(Codes(end.entries), end.cooldown) == desk
      && req in end.requests && end.requests[req] == Finished(SendReply(answer))
      && (AllKept(w.entries) ==> AllKept(end.entries))
      && (|end.entries| > |w.entries| ==> end.entries[|w.entries|].asRead)
  {
    var end := Next(Next(Next(w, Check(req)), Issue(req, secret)), Keep(req));
    if CoolingDown(w) {
      assert end.entries == w.entries;
    } else {
      assert |end.entries| == |w.entries| + 1;
      assert forall k :: 0 <= k < |w.entries| ==> end.entries[k] == w.entries[k];
    }
  }
}
