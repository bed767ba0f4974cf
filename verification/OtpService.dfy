/**
 One-time codes: issue under a resend cooldown, and verification under an attempt
 budget (app/services/otp_service.py, app/core/config.py:86-94).

 Times are integer seconds. A code's hash is injective, so a row keeps the code.
 */
module OtpService {
  import opened Options
  import opened Text

  const TTL: int := 300
  const COOLDOWN: int := 60
  const MAX_ATTEMPTS: nat := 3

  datatype Code = Code(secret: string, issued: int, expires: int, attempts: nat, consumed: Option<int>)

  /** What is kept for one identifier and purpose: its rows, oldest first, and when
      the cooldown key expires. */
  datatype Desk = Desk(codes: seq<Code>, cooldown: Option<int>)

  datatype SendAnswer = Issued | Wait(seconds: int)
  datatype Outcome = NoPending | Expired | TooMany | Incorrect | Accepted

  const NEW := Desk([], None)

  function Unspaced(s: string): string
  {
    if s == "" then "" else (if s[0] == ' ' then "" else [s[0]]) + Unspaced(s[1..])
  }

  function Normalised(identifier: string): string
  {
    var value := Trim(identifier);
    if '@' in value then Lower(value) else Unspaced(value)
  }

  /** The newest row not consumed, or the number of rows if there is none. */
  function Pending(codes: seq<Code>): (k: nat)
    ensures k <= |codes|
    ensures k < |codes| ==> codes[k].consumed.None?
    ensures forall i :: (if k < |codes| then k + 1 else 0) <= i < |codes| ==> codes[i].consumed.Some?
  {
    if codes == [] then 0
    else
      var n := |codes| - 1;
      if codes[n].consumed.None? then n
      else var k := Pending(codes[..n]); if k == n then |codes| else k
  }

  function Cooling(d: Desk, now: int): bool { d.cooldown.Some? && now < d.cooldown.value }

  function SecondsLeft(ttl: int): int { if ttl > 1 then ttl else 1 }

  function Sent(d: Desk, secret: string, now: int): (Desk, SendAnswer)
  {
    if Cooling(d, now) then (d, Wait(SecondsLeft(d.cooldown.value - now)))
    else (Desk(d.codes + [Code(secret, now, now + TTL, 0, None)], Some(now + COOLDOWN)), Issued)
  }

  /** What a guess at this row comes to, in the order the service asks. */
  function Judged(row: Code, guess: string, now: int): Outcome
  {
    if row.expires <= now then Expired
    else if row.attempts >= MAX_ATTEMPTS then TooMany
    else if guess != row.secret then Incorrect
    else Accepted
  }

  /** The write that follows, from the row as it was read. */
  function Marked(row: Code, outcome: Outcome, now: int): Code
  {
    match outcome
    case Incorrect => row.(attempts := row.attempts + 1)
    case TooMany => row.(consumed := Some(now))
    case Accepted => row.(consumed := Some(now))
    case _ => row
  }

  function Verified(d: Desk, guess: string, now: int): (Desk, Outcome)
  {
    var k := Pending(d.codes);
    if k == |d.codes| then (d, NoPending)
    else
      var outcome := Judged(d.codes[k], guess, now);
      (if outcome.Expired? then d else d.(codes := d.codes[k := Marked(d.codes[k], outcome, now)]), outcome)
  }

  // --- The mutable tables --------------------------------------------------------

  datatype Channel = Channel(identifier: string, purpose: string)

  class OtpStore {
    var codes: map<Channel, seq<Code>>     // `otp_codes`
    var cooldowns: map<Channel, int>       // the cooldown keys

    function At(channel: Channel): Desk
      reads this
    {
      Desk(if channel in codes then codes[channel] else [],
           if channel in cooldowns then Some(cooldowns[channel]) else None)
    }

    constructor ()
      ensures forall channel :: At(channel) == NEW
    {
      codes, cooldowns := map[], map[];
    }

    method SendOtp(identifier: string, purpose: string, secret: string, now: int) returns (answer: SendAnswer)
      modifies this
      ensures
        var channel := Channel(Normalised(identifier), purpose);
        && (At(channel), answer) == Sent(old(At(channel)), secret, now)
        && forall other :: other != channel ==> At(other) == old(At(other))
    {
      var channel := Channel(Normalised(identifier), purpose);
      if channel in cooldowns && now < cooldowns[channel] {
        var ttl := cooldowns[channel] - now;
        return Wait(if ttl > 1 then ttl else 1);
      }
      var row := Code(secret, now, now + TTL, 0, None);
      codes := codes[channel := At(channel).codes + [row]];
      cooldowns := cooldowns[channel := now + COOLDOWN];
      return Issued;
    }

    method VerifyAndConsume(identifier: string, guess: string, purpose: string, now: int) returns (outcome: Outcome)
      modifies this`codes
      ensures
        var channel := Channel(Normalised(identifier), purpose);
        && (At(channel), outcome) == Verified(old(At(channel)), guess, now)
        && forall other :: other != channel ==> At(other) == old(At(other))
    {
      var channel := Channel(Normalised(identifier), purpose);
      var rows := At(channel).codes;
      var k := Pending(rows);
      if k == |rows| { return NoPending; }
      var row := rows[k];
      if row.expires <= now { return Expired; }
      if row.attempts >= MAX_ATTEMPTS {
        codes := codes[channel := rows[k := row.(consumed := Some(now))]];
        return TooMany;
      }
      if guess != row.secret {
        codes := codes[channel := rows[k := row.(attempts := row.attempts + 1)]];
        return Incorrect;
      }
      codes := codes[channel := rows[k := row.(consumed := Some(now))]];
      return Accepted;
    }
  }

  // --- Requests one after another, for one identifier and purpose --------------------

  /** `kept` is false when the caller's transaction is rolled back afterwards: a
      new row, or the consumption of an accepted one, is undone. What the service
      commits itself, and the cooldown key, stay. */
  datatype Event =
    | Send(secret: string, kept: bool, now: int)
    | Verify(guess: string, kept: bool, now: int)

  function Step(d: Desk, e: Event): Desk
  {
    match e
    case Send(secret, kept, now) =>
      var after := Sent(d, secret, now).0;
      if kept then after else after.(codes := d.codes)
    case Verify(guess, kept, now) =>
      var (after, outcome) := Verified(d, guess, now);
      if outcome.Accepted? && !kept then d else after
  }

  function DeskAt(events: seq<Event>, i: nat): Desk
    requires i <= |events|
  {
    if i == 0 then NEW else Step(DeskAt(events, i - 1), events[i - 1])
  }

  predicate Clocked(events: seq<Event>)
  {
    forall i, j :: 0 <= i < j < |events| ==> events[i].now <= events[j].now
  }

  function OutcomeAt(events: seq<Event>, i: nat): Outcome
    requires i < |events| && events[i].Verify?
  {
    Verified(DeskAt(events, i), events[i].guess, events[i].now).1
  }

  /** The row a verification looks at. */
  function Target(events: seq<Event>, i: nat): nat
    requires i < |events|
  {
    Pending(DeskAt(events, i).codes)
  }

  /** Event `s` sent a code, and every event since was a wrong guess. */
  predicate OnlyWrongSince(events: seq<Event>, s: nat, i: nat)
    requires s < i <= |events|
  {
    && events[s].Send? && events[s].kept && !Cooling(DeskAt(events, s), events[s].now)
    && forall j: nat :: s < j < i ==> WrongAt(events, j)
  }

  predicate WrongAt(events: seq<Event>, j: nat)
    requires j < |events|
  {
    events[j].Verify? && OutcomeAt(events, j).Incorrect?
  }

  lemma NewCode(events: seq<Event>, s: nat)
    requires s < |events| && events[s].Send? && events[s].kept && !Cooling(DeskAt(events, s), events[s].now)
    ensures DeskAt(events, s + 1).codes ==
      DeskAt(events, s).codes + [Code(events[s].secret, events[s].now, events[s].now + TTL, 0, None)]
  {
  }

  lemma WrongGuess(events: seq<Event>, i: nat, older: seq<Code>, newest: Code)
    requires i < |events| && WrongAt(events, i)
    requires DeskAt(events, i).codes == older + [newest] && newest.consumed.None?
    ensures DeskAt(events, i + 1).codes == older + [newest.(attempts := newest.attempts + 1)]
  {
    assert Pending(DeskAt(events, i).codes) == |older|;
  }

  lemma {:induction false} WrongGuessesCount(events: seq<Event>, s: nat, i: nat, older: seq<Code>, sent: Code)
    requires s < i <= |events| && sent.consumed.None? && forall j: nat :: s < j < i ==> WrongAt(events, j)
    requires DeskAt(events, s + 1).codes == older + [sent]
    ensures DeskAt(events, i).codes == older + [sent.(attempts := sent.attempts + (i - s - 1))]
    decreases i
  {
    if s < i - 1 {
      var n := i - 1;
      WrongGuessesCount(events, s, n, older, sent);
      WrongGuess(events, n, older, sent.(attempts := sent.attempts + (n - s - 1)));
    }
  }

  /** A code just sent is accepted, whatever older codes there are, after any
      number of wrong guesses below three; after that many it is burned. */
  lemma SentCodeWorks(events: seq<Event>, s: nat, i: nat)
    requires s < i < |events| && OnlyWrongSince(events, s, i)
    requires events[i].Verify? && events[i].now < events[s].now + 300
    ensures
      OutcomeAt(events, i) ==
        if i - s - 1 >= 3 then TooMany
        else if events[i].guess == events[s].secret then Accepted
        else Incorrect
  {
    NewCode(events, s);
    var sent := Code(events[s].secret, events[s].now, events[s].now + TTL, 0, None);
    WrongGuessesCount(events, s, i, DeskAt(events, s).codes, sent);
  }

  /** After a code is sent, or its sender's transaction is rolled back, another is
      refused for exactly a minute, and the wait reported is what is left of it. Only a
      send that is kept leaves a code. */
  lemma WaitIsExact(d: Desk, secret: string, kept: bool, now: int, other: string, later: int)
    requires !Cooling(d, now) && now <= later
    ensures
      var sent := Step(d, Send(secret, kept, now));
      && Sent(d, secret, now).1 == Issued
      && sent.codes == (if kept then d.codes + [Code(secret, now, now + 300, 0, None)] else d.codes)
      && Sent(sent, other, later).1 == (if later < now + 60 then Wait(now + 60 - later) else Issued)
      && (later < now + 60 ==> Sent(sent, other, later).0 == sent)
  {
  }

  // --- Outside the promise ------------------------------------------------------------------

  lemma PendingIsUnique(codes: seq<Code>, k: nat)
    requires k <= |codes| && (k < |codes| ==> codes[k].consumed.None?)
    requires forall i :: (if k < |codes| then k + 1 else 0) <= i < |codes| ==> codes[i].consumed.Some?
    ensures Pending(codes) == k
  {
  }

  lemma PendingAfterConsuming(codes: seq<Code>, spent: Code)
    requires Pending(codes) < |codes| && spent.consumed.Some?
    ensures
      var k := Pending(codes);
      var p := Pending(codes[..k]);
      Pending(codes[k := spent]) == if p < k then p else |codes|
  {
    var k := Pending(codes);
    var p := Pending(codes[..k]);
    var after := codes[k := spent];
    assert forall i :: k <= i < |codes| ==> after[i].consumed.Some?;
    assert forall i :: 0 <= i < k ==> after[i] == codes[..k][i];
    PendingIsUnique(after, if p < k then p else |codes|);
  }

  /** Once a code is redeemed, a later guess is accepted exactly when it matches the
      newest older code that is neither consumed, expired nor used up. */
  lemma OlderCodeComesBackIff(d: Desk, right: string, now: int, guess: string, later: int)
    requires Verified(d, right, now).1.Accepted?
    ensures
      var k := Pending(d.codes);
      var p := Pending(d.codes[..k]);
      Verified(Verified(d, right, now).0, guess, later).1.Accepted?
      <==>
      p < k && later < d.codes[p].expires && d.codes[p].attempts < MAX_ATTEMPTS && guess == d.codes[p].secret
  {
    var k := Pending(d.codes);
    PendingAfterConsuming(d.codes, d.codes[k].(consumed := Some(now)));
  }

  /** Two codes sent a minute apart can both be redeemed. */
  lemma OlderCodeComesBack(first: string, second: string)
    ensures
      var events := [Send(first, true, 0), Send(second, true, 60), Verify(second, true, 100), Verify(first, true, 120)];
      Clocked(events) && OutcomeAt(events, 2) == Accepted && OutcomeAt(events, 3) == Accepted
  {
    var events := [Send(first, true, 0), Send(second, true, 60), Verify(second, true, 100), Verify(first, true, 120)];
    var a := Code(first, 0, TTL, 0, None);
    var b := Code(second, 60, 60 + TTL, 0, None);
    NextDesk(events, 0);
    NextDesk(events, 1);
    NextDesk(events, 2);
    assert [] + [a] == [a] && [a] + [b] == [a, b];
    RightGuess(Desk([a, b], Some(120)), [a], b, 100);
    RightGuess(Desk([a, b.(consumed := Some(100))], Some(120)), [], a, 120);
  }

  lemma NextDesk(events: seq<Event>, i: nat)
    requires i < |events|
    ensures DeskAt(events, 0) == NEW && DeskAt(events, i + 1) == Step(DeskAt(events, i), events[i])
  {
  }

  /** The newest code still pending, guessed right in time. */
  lemma RightGuess(d: Desk, older: seq<Code>, pending: Code, now: int)
    requires |older| < |d.codes| && d.codes[..|older|] == older && d.codes[|older|] == pending
    requires forall i :: |older| < i < |d.codes| ==> d.codes[i].consumed.Some?
    requires pending.consumed.None? && now < pending.expires && pending.attempts < MAX_ATTEMPTS
    ensures
      Verified(d, pending.secret, now)
        == (d.(codes := d.codes[|older| := pending.(consumed := Some(now))]), Accepted)
  {
    PendingIsUnique(d.codes, |older|);
  }

  /** When the caller's transaction fails after a right guess, the code is not
      spent: the same guess is accepted again. */
  lemma RolledBackCodeStillWorks(events: seq<Event>, i: nat, now: int)
    requires i < |events| && events[i].Verify? && OutcomeAt(events, i).Accepted? && !events[i].kept
    ensures Verified(DeskAt(events, i + 1), events[i].guess, now).1 == Accepted
       <==> now < DeskAt(events, i).codes[Target(events, i)].expires
  {
  }

  // --- Identifiers ----------------------------------------------------------------------------

  lemma {:induction false} UnspacedFixed(s: string)
    requires ' ' !in s
    ensures Unspaced(s) == s
  {
    if s != "" { UnspacedFixed(s[1..]); }
  }

  lemma {:induction false} UnspacedHasNoSpace(s: string)
    ensures ' ' !in Unspaced(s) && ('@' in Unspaced(s) <==> '@' in s)
  {
    if s != "" {
      UnspacedHasNoSpace(s[1..]);
      assert s == [s[0]] + s[1..];
    }
  }

  predicate Trimmed(s: string) { s == "" || (!IsSpace(s[0]) && !IsSpace(s[|s| - 1])) }

  lemma {:induction false} TrimLeftStarts(s: string)
    ensures TrimLeft(s) == "" || !IsSpace(TrimLeft(s)[0])
  {
    if s != "" && IsSpace(s[0]) { TrimLeftStarts(s[1..]); }
  }

  lemma {:induction false} TrimRightEnds(s: string)
    requires s == "" || !IsSpace(s[0])
    ensures Trimmed(TrimRight(s))
  {
    if s != "" && IsSpace(s[|s| - 1]) { TrimRightEnds(s[..|s| - 1]); }
  }

  lemma TrimTrims(s: string)
    ensures Trimmed(Trim(s))
  {
    TrimLeftStarts(s);
    TrimRightEnds(TrimLeft(s));
  }

  lemma {:induction false} UnspacedKeepsEnds(s: string)
    requires s != "" && s[|s| - 1] != ' '
    ensures Unspaced(s) != "" && Unspaced(s)[|Unspaced(s)| - 1] == s[|s| - 1]
    ensures s[0] != ' ' ==> Unspaced(s)[0] == s[0]
  {
    if |s| > 1 { UnspacedKeepsEnds(s[1..]); }
  }

  lemma LowerKeepsEnds(s: string)
    requires Trimmed(s)
    ensures Trimmed(Lower(s)) && ('@' in s ==> '@' in Lower(s))
  {
  }

  /** Normalising twice is normalising once: the endpoints normalise before they
      call, and the service normalises again. */
  lemma NormalisedOnce(identifier: string)
    ensures Normalised(Normalised(identifier)) == Normalised(identifier)
  {
    var value := Trim(identifier);
    TrimTrims(identifier);
    if '@' in value {
      LowerKeepsEnds(value);
      LowerTwice(value);
    } else {
      UnspacedHasNoSpace(value);
      UnspacedFixed(Unspaced(value));
      if value != "" { UnspacedKeepsEnds(value); }
    }
  }

  lemma {:induction false} TrimLeftPadded(s: string, c: char)
    requires IsSpace(c)
    ensures TrimLeft(s + [c]) == if TrimLeft(s) == "" then "" else TrimLeft(s) + [c]
  {
    if s == "" {
      assert "" + [c] == [c] && TrimLeft([c]) == TrimLeft([c][1..]);
    } else if IsSpace(s[0]) {
      assert (s + [c])[1..] == s[1..] + [c];
      TrimLeftPadded(s[1..], c);
    }
  }

  /** Whitespace around an identifier makes no difference. */
  lemma PaddingIgnored(s: string, c: char)
    requires IsSpace(c)
    ensures Normalised([c] + s) == Normalised(s) == Normalised(s + [c])
  {
    assert ([c] + s)[1..] == s;
    TrimLeftPadded(s, c);
    var left := TrimLeft(s);
    assert (left + [c])[..|left|] == left;
    assert TrimRight(left + [c]) == TrimRight(left);
  }

  lemma {:induction false} UnspacedJoined(x: string, y: string)
    ensures Unspaced(x + y) == Unspaced(x) + Unspaced(y)
  {
    if x == "" {
      assert x + y == y;
    } else {
      assert (x + y)[1..] == x[1..] + y;
      UnspacedJoined(x[1..], y);
    }
  }

  lemma PlainNumber(s: string)
    requires Trimmed(s) && '@' !in s
    ensures Normalised(s) == Unspaced(s)
  {
  }

  lemma OneSpace()
    ensures Unspaced(" ") == ""
  {
    assert Unspaced(" "[1..]) == "";
  }

  lemma UnspacedAround(x: string, y: string)
    ensures Unspaced(x + " " + y) == Unspaced(x + y)
  {
    OneSpace();
    UnspacedJoined(x + " ", y);
    UnspacedJoined(x, " ");
    UnspacedJoined(x, y);
    assert Unspaced(x) + "" == Unspaced(x);
  }

  lemma EndsStay(x: string, middle: string, y: string)
    requires x != "" && y != "" && !IsSpace(x[0]) && !IsSpace(y[|y| - 1])
    requires '@' !in x && '@' !in middle && '@' !in y
    ensures Normalised(x + middle + y) == Unspaced(x + middle + y)
  {
    var all := x + middle + y;
    assert all[0] == x[0] && all[|all| - 1] == y[|y| - 1];
    PlainNumber(all);
  }

  lemma SpaceInside(x: string, y: string)
    requires x != "" && y != "" && !IsSpace(x[0]) && !IsSpace(y[|y| - 1]) && '@' !in x && '@' !in y
    ensures Normalised(x + " " + y) == Normalised(x + y)
  {
    EndsStay(x, " ", y);
    EndsStay(x, "", y);
    assert x + "" + y == x + y;
    UnspacedAround(x, y);
  }

  lemma SpaceFirst(y: string)
    ensures Normalised("" + " " + y) == Normalised("" + y)
  {
    assert "" + " " + y == [' '] + y && "" + y == y;
    PaddingIgnored(y, ' ');
  }

  lemma SpaceLast(x: string)
    ensures Normalised(x + " " + "") == Normalised(x + "")
  {
    assert x + " " + "" == x + [' '] && x + "" == x;
    PaddingIgnored(x, ' ');
  }

  lemma SpaceAfterPadding(x: string, y: string)
    requires x != "" && IsSpace(x[0]) && Normalised(x[1..] + " " + y) == Normalised(x[1..] + y)
    ensures Normalised(x + " " + y) == Normalised(x + y)
  {
    var rest, c := x[1..], x[0];
    assert x + " " + y == [c] + (rest + " " + y) && x + y == [c] + (rest + y);
    PaddingIgnored(rest + " " + y, c);
    PaddingIgnored(rest + y, c);
  }

  lemma SpaceBeforePadding(x: string, y: string)
    requires y != "" && IsSpace(y[|y| - 1])
    requires Normalised(x + " " + y[..|y| - 1]) == Normalised(x + y[..|y| - 1])
    ensures Normalised(x + " " + y) == Normalised(x + y)
  {
    var rest, c := y[..|y| - 1], y[|y| - 1];
    assert x + " " + y == (x + " " + rest) + [c] && x + y == (x + rest) + [c];
    PaddingIgnored(x + " " + rest, c);
    PaddingIgnored(x + rest, c);
  }

  /** Nor does a space anywhere in a phone number. */
  lemma {:induction false} SpaceIgnored(x: string, y: string)
    requires '@' !in x && '@' !in y
    ensures Normalised(x + " " + y) == Normalised(x + y)
    decreases |x| + |y|
  {
    if x == "" {
      SpaceFirst(y);
    } else if y == "" {
      SpaceLast(x);
    } else if IsSpace(x[0]) {
      SpaceIgnored(x[1..], y);
      SpaceAfterPadding(x, y);
    } else if IsSpace(y[|y| - 1]) {
      SpaceIgnored(x, y[..|y| - 1]);
      SpaceBeforePadding(x, y);
    } else {
      SpaceInside(x, y);
    }
  }

  lemma {:induction false} TrimLeftLowered(s: string)
    ensures TrimLeft(Lower(s)) == Lower(TrimLeft(s))
  {
    if s != "" && IsSpace(s[0]) {
      assert Lower(s)[1..] == Lower(s[1..]);
      TrimLeftLowered(s[1..]);
    }
  }

  lemma {:induction false} TrimRightLowered(s: string)
    ensures TrimRight(Lower(s)) == Lower(TrimRight(s))
  {
    if s != "" && IsSpace(s[|s| - 1]) {
      assert Lower(s)[..|s| - 1] == Lower(s[..|s| - 1]);
      TrimRightLowered(s[..|s| - 1]);
    }
  }

  lemma {:induction false} TrimKeepsSign(s: string)
    ensures '@' in TrimLeft(s) <==> '@' in s
    ensures '@' in TrimRight(s) <==> '@' in s
  {
    if s != "" {
      TrimKeepsSign(s[1..]);
      TrimKeepsSign(s[..|s| - 1]);
      assert s == [s[0]] + s[1..] && s == s[..|s| - 1] + [s[|s| - 1]];
    }
  }

  /** Nor does the case of an email address. */
  lemma CaseIgnored(s: string)
    requires '@' in s
    ensures Normalised(Lower(s)) == Normalised(s)
  {
    TrimLeftLowered(s);
    TrimRightLowered(TrimLeft(s));
    TrimKeepsSign(s);
    TrimKeepsSign(TrimLeft(s));
    var value := Trim(s);
    assert Trim(Lower(s)) == Lower(value) && '@' in value;
    var at :| 0 <= at < |value| && value[at] == '@';
    assert Lower(value)[at] == '@';
    LowerTwice(value);
  }

  /** Nothing else does: what has no such difference to lose is left as it is. */
  lemma PlainIsKept(s: string)
    requires Trimmed(s) && if '@' in s then Lower(s) == s else ' ' !in s
    ensures Normalised(s) == s
  {
    if '@' !in s { UnspacedFixed(s); }
  }
}
