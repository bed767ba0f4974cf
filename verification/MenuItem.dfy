/**
 A menu item's variants as the service mutates them, one flush at a time. `Flush`
 may only be called when the partial unique index would accept the rows, so every
 method here proves that no flush ever sees two defaults.
 */
module MenuItem {
  import opened Options
  import opened Text
  import opened Money
  import opened MenuVariants
  import opened MenuFlush

  // --- Helpers about the specification ------------------------------------------

  lemma {:induction false} AfterKeepsIdentity(v: Variant, entries: seq<Entry>)
    ensures AfterEntries(v, entries).id == v.id && AfterEntries(v, entries).isDefault == v.isDefault
  {
    if entries != [] { AfterKeepsIdentity(v, entries[..|entries| - 1]); }
  }

  lemma AfterOneMore(v: Variant, entries: seq<Entry>, i: nat)
    requires i < |entries|
    ensures AfterEntries(v, entries[..i + 1]) ==
      if entries[i].id.Known? && v.id == Some(entries[i].id.id) then
        Overwritten(AfterEntries(v, entries[..i]), entries[i])
      else AfterEntries(v, entries[..i])
  {
    assert entries[..i + 1][..i] == entries[..i];
    AfterKeepsIdentity(v, entries[..i]);
  }

  /** One more entry overwrites the row whose id it names, and no other. */
  lemma AllAfterOneMore(rows: seq<Variant>, entries: seq<Entry>, i: nat)
    requires i < |entries|
    ensures |AllAfter(rows, entries[..i + 1])| == |rows| == |AllAfter(rows, entries[..i])|
    ensures forall k :: 0 <= k < |rows| ==>
      AllAfter(rows, entries[..i + 1])[k] ==
        if entries[i].id.Known? && rows[k].id == Some(entries[i].id.id) then
          Overwritten(AllAfter(rows, entries[..i])[k], entries[i])
        else AllAfter(rows, entries[..i])[k]
  {
    forall k | 0 <= k < |rows|
      ensures AfterEntries(rows[k], entries[..i + 1]) ==
        if entries[i].id.Known? && rows[k].id == Some(entries[i].id.id) then
          Overwritten(AfterEntries(rows[k], entries[..i]), entries[i])
        else AfterEntries(rows[k], entries[..i])
    {
      AfterOneMore(rows[k], entries, i);
    }
  }

  /** What one entry does to the collection. */
  lemma OneMoreEntry(rows: seq<Variant>, entries: seq<Entry>, i: nat, next: nat)
    requires DistinctIds(rows, next) && i < |entries|
    ensures
      var before := AllAfter(rows, entries[..i]) + NewRows(entries[..i]);
      var after := AllAfter(rows, entries[..i + 1]) + NewRows(entries[..i + 1]);
      && (entries[i].id.Absent? ==> after == before + [NewRow(entries[i])])
      && (entries[i].id.Known? ==>
            var k := IndexOf(rows, entries[i].id.id);
            k < |rows| ==> |before| >= |rows| && after == before[k := Overwritten(before[k], entries[i])])
  {
    AllAfterOneMore(rows, entries, i);
    NewRowsOneMore(entries, i);
    if entries[i].id.Known? && IndexOf(rows, entries[i].id.id) < |rows| {
      OnlyOneHasId(rows, IndexOf(rows, entries[i].id.id), next);
    }
  }

  lemma OnlyOneHasId(rows: seq<Variant>, k: nat, next: nat)
    requires DistinctIds(rows, next) && k < |rows|
    ensures forall j :: 0 <= j < |rows| && j != k ==> rows[j].id != rows[k].id
  {
  }

  lemma NewRowsOneMore(entries: seq<Entry>, i: nat)
    requires i < |entries|
    ensures NewRows(entries[..i + 1]) ==
      NewRows(entries[..i]) + if entries[i].id.Absent? then [NewRow(entries[i])] else []
  {
    assert entries[..i + 1][..i] == entries[..i];
  }

  lemma {:induction false} NewRowsAreNew(entries: seq<Entry>)
    ensures forall i :: 0 <= i < |NewRows(entries)| ==> NewRows(entries)[i].id.None? && !NewRows(entries)[i].isDefault
  {
    if entries != [] { NewRowsAreNew(entries[..|entries| - 1]); }
  }

  lemma {:induction false} SameIdsSameProblem(rows: seq<Variant>, a: seq<Entry>, b: seq<Entry>)
    requires |a| == |b| && forall i :: 0 <= i < |a| ==> a[i].id == b[i].id
    ensures FirstProblem(rows, a) == FirstProblem(rows, b)
    decreases a
  {
    if a != [] {
      assert a[0].id == b[0].id;
      SameIdsSameProblem(rows, a[1..], b[1..]);
    }
  }

  lemma {:induction false} NumberedFixed(rows: seq<Variant>, next: nat)
    requires forall i :: 0 <= i < |rows| ==> rows[i].id.Some?
    ensures Numbered(rows, next) == rows
  {
    if rows != [] { NumberedFixed(rows[1..], next); }
  }

  lemma {:induction false} NumberedKeepsRest(rows: seq<Variant>, next: nat)
    ensures |Numbered(rows, next)| == |rows|
    ensures forall i :: 0 <= i < |rows| ==>
      var r := Numbered(rows, next)[i];
      r.id.Some? && r == rows[i].(id := r.id) && (rows[i].id.Some? ==> r == rows[i])
  {
    if rows != [] {
      NumberedKeepsRest(rows[1..], if rows[0].id.None? then next + 1 else next);
    }
  }

  lemma KeptOneMore(rows: seq<Variant>, entries: seq<Entry>, i: nat)
    requires i < |rows|
    ensures AllAfter(KeptRows(rows[..i + 1], entries), entries) ==
      AllAfter(KeptRows(rows[..i], entries), entries)
      + if Mentions(entries, rows[i].id) then [AfterEntries(rows[i], entries)] else []
  {
    assert rows[..i + 1][..i] == rows[..i];
  }

  // --- The payload ------------------------------------------------------------------

  method ApplyPositionalOrder(payload: seq<Entry>) returns (entries: seq<Entry>)
    ensures entries == Positional(payload)
  {
    entries := payload;
    if forall i :: 0 <= i < |payload| ==> payload[i].sortOrder == 0 {
      for position := 0 to |payload|
        invariant |entries| == |payload|
        invariant forall i :: 0 <= i < position ==> entries[i] == payload[i].(sortOrder := i)
        invariant forall i :: position <= i < |payload| ==> entries[i] == payload[i]
      {
        entries := entries[position := entries[position].(sortOrder := position)];
      }
    }
  }

  method ResolveDefault(payload: seq<Entry>) returns (problem: Option<Problem>, entries: seq<Entry>)
    ensures problem == if TwoFlagged(payload) then Some(TwoDefaults) else None
    ensures problem.None? ==> entries == WithDefault(payload)
  {
    entries := payload;
    problem := None;
    var flagged := false;
    for i := 0 to |payload|
      invariant flagged <==> exists k :: 0 <= k < i && payload[k].isDefault
      invariant !TwoFlagged(payload[..i])
    {
      assert forall a, b :: 0 <= a < b < |payload[..i + 1]| ==>
        payload[..i + 1][a] == payload[a] && payload[..i + 1][b] == payload[b];
      if payload[i].isDefault {
        if flagged { return Some(TwoDefaults), entries; }
        flagged := true;
      }
      assert !TwoFlagged(payload[..i + 1]) by {
        forall a, b | 0 <= a < b < i + 1 ensures !(payload[a].isDefault && payload[b].isDefault) {
          if b < i { assert payload[..i][a] == payload[a] && payload[..i][b] == payload[b]; }
        }
      }
    }
    assert payload[..|payload|] == payload;
    if payload != [] && !flagged {
      entries := entries[0 := entries[0].(isDefault := true)];
    }
  }

  // --- The item -----------------------------------------------------------------------

  class Item {
    var variants: seq<Variant>    // the loaded collection
    var stored: seq<Variant>      // the rows as last flushed
    var next: nat
    const rank: nat -> nat        // the order of the ids

    predicate Valid()
      reads this
    {
      variants == stored && DistinctIds(stored, next) && AtMostOneDefault(stored) && DistinctNames(stored)
    }

    constructor (rank: nat -> nat)
      ensures Valid() && stored == [] && this.rank == rank
    {
      variants, stored, next, this.rank := [], [], 0, rank;
    }

    /** Sends the collection to the database. It is refused when some row takes a name
        another still has, or, where the database can fail, for a reason of its own.
        Whichever rows have been written, no two are ever flagged. */
    method Flush(faults: bool) returns (ok: bool)
      requires NeverTwoFlagged(stored, variants)
      modifies this
      ensures ok ==> NamesFree(old(stored), old(variants), rank)
      ensures !faults && NamesFree(old(stored), old(variants), rank) ==> ok
      ensures ok ==>
        variants == Numbered(old(variants), old(next)) == stored && old(next) <= next && DistinctNames(stored)
      ensures ok && DistinctIdsWhereAny(old(variants), old(next)) ==> DistinctIds(stored, next)
      ensures !ok ==> variants == old(variants) && stored == old(stored) && next == old(next)
    {
      var refused: bool := *;
      if (faults && refused) || !NamesFree(stored, variants, rank) { return false; }
      var numbered := Numbered(variants, next);
      NumberedKeepsRest(variants, next);
      SameNames(variants, numbered);
      if DistinctIdsWhereAny(variants, next) { NumberedDistinct(variants, next); }
      next := next + |variants|;
      variants, stored := numbered, numbered;
      return true;
    }

    method Rollback(rows: seq<Variant>)
      modifies this`variants, this`stored
      ensures variants == rows == stored
    {
      variants, stored := rows, rows;
    }

    method ClearDefaults()
      modifies this`variants
      ensures variants == Cleared(old(variants))
    {
      for i := 0 to |variants|
        invariant |variants| == |old(variants)|
        invariant forall k :: 0 <= k < i ==> variants[k] == old(variants)[k].(isDefault := false)
        invariant forall k :: i <= k < |variants| ==> variants[k] == old(variants)[k]
      {
        variants := variants[i := variants[i].(isDefault := false)];
      }
    }

    /** A flush whose failure ends the request: the transaction is rolled back to
        the rows it began with. */
    method FlushOrRollback(rows: seq<Variant>, faults: bool) returns (ok: bool)
      requires NeverTwoFlagged(stored, variants)
      modifies this
      ensures ok ==> NamesFree(old(stored), old(variants), rank)
      ensures !faults && NamesFree(old(stored), old(variants), rank) ==> ok
      ensures ok ==>
        variants == stored == Numbered(old(variants), old(next)) && old(next) <= next && DistinctNames(stored)
      ensures ok && DistinctIdsWhereAny(old(variants), old(next)) ==> DistinctIds(stored, next)
      ensures !ok ==> variants == stored == rows
    {
      ok := Flush(faults);
      if !ok { Rollback(rows); }
    }

    method SyncVariants(payload: seq<Entry>, faults: bool) returns (problem: Option<Problem>)
      requires Valid()
      modifies this
      ensures SyncProblem(old(stored), payload).Some? ==> problem == SyncProblem(old(stored), payload)
      ensures problem.Some? ==> variants == stored == old(stored)
      ensures problem.None? ==>
        variants == stored == Synced(old(stored), payload, old(next)) && DistinctIds(stored, next)
        && DistinctNames(stored)
      ensures SyncProblem(old(stored), payload).None? && problem.Some? ==> problem == Some(Conflict)
      ensures
        !faults && SyncProblem(old(stored), payload).None? ==>
          (problem.None? <==> NamesFree(old(stored), KeptAndNew(old(stored), Prepared(payload)), rank))
    {
      var rows := variants;
      var positioned := ApplyPositionalOrder(payload);
      var entries;
      problem, entries := ResolveDefault(positioned);
      SamePayload(rows, payload);
      if problem.Some? { return; }
      problem := ReplaceRows(entries, faults);
      if problem.Some? { return; }
      ReplacedIsNumbered(rows, entries, old(next));
      var ok := FlagAndFlush(rows, DefaultName(entries), faults);
      if !ok { problem := Some(Conflict); }
    }

    /** The second pass over `is_default`: the one winner is set. */
    method FlagAndFlush(rows: seq<Variant>, name: Option<string>, faults: bool) returns (ok: bool)
      requires variants == stored && DistinctIds(variants, next) && DistinctNames(variants)
      requires forall i :: 0 <= i < |variants| ==> !variants[i].isDefault
      modifies this
      ensures ok ==>
        variants == stored == WithDefaultNamed(old(variants), name) && DistinctIds(stored, next)
        && DistinctNames(stored)
      ensures !ok ==> variants == stored == rows && faults
    {
      DefaultIsNumbered(variants, name, next);
      DefaultIsFree(variants, name, rank);
      SetDefault(name);
      ok := FlushOrRollback(rows, faults);
    }

    /** Everything before the default is set, ending in the flush that clears the
        old one. */
    method ReplaceRows(entries: seq<Entry>, faults: bool) returns (problem: Option<Problem>)
      requires variants == stored && DistinctIds(variants, next) && AtMostOneDefault(variants)
      modifies this
      ensures FirstProblem(old(variants), entries).Some? ==> problem == FirstProblem(old(variants), entries)
      ensures problem.Some? ==> variants == stored == old(stored)
      ensures problem.None? ==>
        variants == stored == Replaced(old(variants), entries, old(next)) && DistinctIds(variants, next)
        && old(next) <= next
      ensures FirstProblem(old(variants), entries).None? && problem.Some? ==> problem == Some(Conflict)
      ensures problem.None? ==> DistinctNames(variants)
      ensures
        !faults && FirstProblem(old(variants), entries).None? ==>
          (problem.None? <==> NamesFree(old(stored), KeptAndNew(old(stored), entries), rank))
      ensures problem.None? ==> NamesFree(old(stored), KeptAndNew(old(stored), entries), rank)
    {
      var rows := variants;
      problem := ApplyEntries(entries);
      if problem.Some? {
        Rollback(rows);
        return;
      }
      DropUnmentioned(rows, entries);
      var ok := ClearAndFlush(rows, entries, faults);
      if !ok { problem := Some(Conflict); }
    }

    /** The first of the two passes over `is_default`. */
    method ClearAndFlush(rows: seq<Variant>, entries: seq<Entry>, faults: bool) returns (ok: bool)
      requires stored == rows && DistinctIds(rows, next)
      requires variants == AllAfter(KeptRows(rows, entries), entries) + NewRows(entries)
      modifies this
      ensures ok ==>
        && variants == stored == Replaced(rows, entries, old(next)) && DistinctIds(stored, next) && old(next) <= next
        && DistinctNames(stored) && NamesFree(rows, KeptAndNew(rows, entries), rank)
      ensures !ok ==> variants == stored == rows
      ensures !faults && NamesFree(rows, KeptAndNew(rows, entries), rank) ==> ok
    {
      ClearDefaults();
      ReplacedIsFlushable(rows, entries, next);
      ok := FlushOrRollback(rows, faults);
    }

    /** The loop over the payload: overwrite in place, or append. */
    method ApplyEntries(entries: seq<Entry>) returns (problem: Option<Problem>)
      requires DistinctIds(variants, next)
      modifies this`variants
      ensures problem == FirstProblem(old(variants), entries)
      ensures problem.None? ==> variants == AllAfter(old(variants), entries) + NewRows(entries)
    {
      var rows := variants;
      for i := 0 to |entries|
        invariant variants == AllAfter(rows, entries[..i]) + NewRows(entries[..i])
        invariant FirstProblem(rows, entries) == FirstProblem(rows, entries[i..])
      {
        var entry := entries[i];
        assert entries[i..][1..] == entries[i + 1..];
        OneMoreEntry(rows, entries, i, next);
        match entry.id
        case Malformed => return Some(BadId);
        case Absent => variants := variants + [NewRow(entry)];
        case Known(id) =>
          var k := IndexOf(rows, id);
          if k == |rows| { return Some(NotThisItem); }
          variants := variants[k := Overwritten(variants[k], entry)];
      }
      assert entries[..|entries|] == entries;
      return None;
    }

    /** Deletes the loaded rows the payload did not name. */
    method DropUnmentioned(ghost rows: seq<Variant>, entries: seq<Entry>)
      requires DistinctIds(rows, next)
      requires variants == AllAfter(rows, entries) + NewRows(entries)
      modifies this`variants
      ensures variants == AllAfter(KeptRows(rows, entries), entries) + NewRows(entries)
    {
      var all, kept := variants, [];
      NewRowsAreNew(entries);
      for i := 0 to |all|
        invariant i <= |rows| ==> kept == AllAfter(KeptRows(rows[..i], entries), entries)
        invariant i >= |rows| ==> kept == AllAfter(KeptRows(rows, entries), entries) + NewRows(entries)[..i - |rows|]
      {
        if i < |rows| {
          AfterKeepsIdentity(rows[i], entries);
          KeptOneMore(rows, entries, i);
          assert all[i] == AfterEntries(rows[i], entries);
        } else {
          assert all[i] == NewRows(entries)[i - |rows|];
        }
        if all[i].id.None? || Mentions(entries, all[i].id) { kept := kept + [all[i]]; }
        assert rows[..|rows|] == rows;
      }
      variants := kept;
    }

    /** Flags the first row of that name. */
    method SetDefault(name: Option<string>)
      modifies this`variants
      ensures variants == WithDefaultNamed(old(variants), name)
    {
      if name.None? { return; }
      for i := 0 to |variants|
        invariant variants == old(variants)
        invariant forall k :: 0 <= k < i ==> variants[k].name != name.value
      {
        if variants[i].name == name.value {
          variants := variants[i := variants[i].(isDefault := true)];
          return;
        }
      }
    }

    method AddVariant(name: string, price: real, isDefault: bool, available: bool, sortOrder: Option<int>, faults: bool)
      returns (problem: Option<Problem>)
      requires Valid()
      modifies this
      ensures |old(stored)| >= 50 ==> problem == Some(TooMany)
      ensures problem.Some? ==> variants == stored == old(stored)
      ensures problem.None? ==>
        && Valid() && |stored| == |old(stored)| + 1
        && stored == Added(old(stored), name, price, isDefault, available, sortOrder, old(next))
      ensures |old(stored)| < 50 && problem.Some? ==> problem == Some(Conflict)
      ensures
        !faults && |old(stored)| < 50 ==>
          (problem.None? <==>
           DistinctNames(Added(old(stored), name, price, isDefault, available, sortOrder, old(next))))
    {
      var rows := variants;
      if |variants| >= MAX_OPTIONS { return Some(TooMany); }
      var makeDefault := isDefault || variants == [];
      if makeDefault {
        var ok := DemoteAll(rows, 0, faults);
        if !ok { return Some(Conflict); }
      }
      var order := if sortOrder.Some? then sortOrder.value else NextSortOrder(variants);
      var v := Variant(None, Trim(name), ToMinor(price), makeDefault, available, order);
      AddedIsAppended(rows, variants, v, name, price, isDefault, available, sortOrder, next);
      var added := AppendAndFlush(rows, v, faults);
      return if added then None else Some(Conflict);
    }

    /** Clear every flag and flush, so that the index never meets two. The row at `k`
        may have a new name. */
    method DemoteAll(rows: seq<Variant>, ghost k: nat, faults: bool) returns (ok: bool)
      requires DistinctIds(stored, next) && DistinctNames(stored) && OneRenamed(stored, variants, k)
      modifies this`variants, this`stored
      ensures ok ==> variants == stored == Cleared(old(variants)) && DistinctNames(old(variants))
      ensures !ok ==> variants == stored == rows
      ensures !faults && DistinctNames(old(variants)) ==> ok
    {
      SameNames(variants, Cleared(variants));
      ClearDefaults();
      ok := FlushKeepingIds(k, faults);
      if !ok { Rollback(rows); }
    }

    method AppendAndFlush(rows: seq<Variant>, v: Variant, faults: bool) returns (ok: bool)
      requires variants == stored && DistinctNames(stored) && NeverTwoFlagged(stored, variants + [v])
      requires v.id.None? && DistinctIds(variants, next)
      modifies this
      ensures ok ==> variants == stored == old(variants) + [v.(id := Some(old(next)))] && DistinctIds(stored, next)
      ensures ok ==> DistinctNames(stored)
      ensures ok ==> DistinctNames(old(variants) + [v])
      ensures !faults && DistinctNames(old(variants) + [v]) ==> ok
      ensures !ok ==> variants == stored == rows
      ensures !ok ==> next == old(next)
    {
      AppendIsFree(stored, v, rank);
      AppendedIds(variants, v, next);
      variants := variants + [v];
      ok := Flush(faults);
      if !ok { Rollback(rows); }
    }

    /** A flush of the stored rows, of which the one at `k` may have a new name, uses
        up no id. */
    method FlushKeepingIds(ghost k: nat, faults: bool) returns (ok: bool)
      requires DistinctIds(stored, next) && DistinctNames(stored)
      requires OneRenamed(stored, variants, k) && NeverTwoFlagged(stored, variants)
      modifies this`stored
      ensures ok ==> stored == variants && DistinctNames(variants)
      ensures !faults && DistinctNames(variants) ==> ok
      ensures !ok ==> stored == old(stored)
    {
      OneRenameIsFree(stored, variants, rank, k);
      var refused: bool := *;
      if (faults && refused) || !NamesFree(stored, variants, rank) { return false; }
      stored := variants;
      return true;
    }

    /** Set the flag of a row where none is set, and flush. */
    method PromoteAndFlush(rows: seq<Variant>, k: nat, faults: bool) returns (ok: bool)
      requires variants == stored && DistinctIds(stored, next) && DistinctNames(stored) && k < |variants|
      requires forall i :: 0 <= i < |variants| ==> !variants[i].isDefault
      modifies this`variants, this`stored
      ensures ok ==>
        variants == stored == old(variants)[k := old(variants)[k].(isDefault := true)] && DistinctNames(stored)
      ensures !ok ==> variants == stored == rows && faults
    {
      variants := variants[k := variants[k].(isDefault := true)];
      SameNames(stored, variants);
      ok := FlushKeepingIds(k, faults);
      if !ok { Rollback(rows); }
    }

    /** The row at `k` has been edited; make it the default, or just flush. */
    method FlushEdited(rows: seq<Variant>, k: nat, promote: bool, faults: bool) returns (ok: bool)
      requires stored == rows && DistinctIds(stored, next) && DistinctNames(stored) && k < |stored|
      requires OneRenamed(stored, variants, k) && NeverTwoFlagged(stored, variants)
      modifies this`variants, this`stored
      ensures ok ==>
        && variants == stored && DistinctNames(stored)
        && stored == if promote then Cleared(old(variants))[k := old(variants)[k].(isDefault := true)]
           else old(variants)
      ensures !ok ==> variants == stored == rows
      ensures !faults && DistinctNames(old(variants)) ==> ok
      ensures ok ==> DistinctNames(old(variants))
    {
      if promote {
        SameNames(variants, Cleared(variants));
        ok := DemoteAll(rows, k, faults);
        if !ok { return; }
        ok := PromoteAndFlush(rows, k, faults);
      } else {
        ok := FlushKeepingIds(k, faults);
        if !ok { Rollback(rows); }
      }
    }

    method UpdateVariant(id: nat, f: Fields, faults: bool) returns (problem: Option<Problem>)
      requires Valid()
      modifies this
      ensures problem.Some? ==> variants == stored == old(stored)
      ensures
        var k := IndexOf(old(stored), id);
        && (k == |old(stored)| ==> problem == Some(NotFound))
        && (k < |old(stored)| && f.isDefault == Some(false) && old(stored)[k].isDefault ==>
            problem == Some(CannotUndefault))
        && (problem.None? ==> k < |old(stored)| && Valid() && stored == Updated(old(stored), k, f))
        && (k < |old(stored)| && !(f.isDefault == Some(false) && old(stored)[k].isDefault) && problem.Some? ==>
              problem == Some(Conflict) && (faults || !DistinctNames(Updated(old(stored), k, f))))
    {
      var rows := variants;
      var k := IndexOf(variants, id);
      if k == |variants| { return Some(NotFound); }
      variants := variants[k := Edited(variants[k], f)];
      if f.isDefault == Some(false) && variants[k].isDefault {
        Rollback(rows);
        return Some(CannotUndefault);
      }
      EditedIsFlushable(rows, k, f, next);
      var ok := FlushEdited(rows, k, f.isDefault == Some(true) && !variants[k].isDefault, faults);
      return if ok then None else Some(Conflict);
    }

    method DeleteVariant(id: nat, faults: bool) returns (problem: Option<Problem>)
      requires Valid()
      modifies this
      ensures problem.Some? ==> variants == stored == old(stored)
      ensures
        var k := IndexOf(old(stored), id);
        && (k == |old(stored)| ==> problem == Some(NotFound))
        && (problem.None? ==> k < |old(stored)| && Valid() && stored == Deleted(old(stored), k))
        && (k < |old(stored)| && problem.Some? ==> problem == Some(Conflict) && faults)
    {
      var rows := variants;
      var k := IndexOf(variants, id);
      if k == |variants| { return Some(NotFound); }
      DeletedIsSound(rows, k, next);
      var ok := RemoveAndPromote(rows, k, faults);
      return if ok then None else Some(Conflict);
    }

    method RemoveAndPromote(rows: seq<Variant>, k: nat, faults: bool) returns (ok: bool)
      requires variants == stored == rows && DistinctIds(stored, next) && k < |stored|
      requires AtMostOneDefault(stored) && DistinctNames(stored)
      modifies this`variants, this`stored
      ensures ok ==> variants == stored == Deleted(rows, k)
      ensures !ok ==> variants == stored == rows && faults
    {
      DeletedIsSound(rows, k, next);
      var wasDefault := variants[k].isDefault;
      ok := RemoveAndFlush(rows, k, faults);
      if ok && wasDefault && variants != [] {
        ok := PromoteAndFlush(rows, FirstShown(variants), faults);
      }
    }

    method RemoveAndFlush(rows: seq<Variant>, k: nat, faults: bool) returns (ok: bool)
      requires variants == stored == rows && DistinctIds(stored, next) && k < |stored|
      requires AtMostOneDefault(stored) && DistinctNames(stored)
      modifies this`variants, this`stored
      ensures ok ==> variants == stored == Without(rows, k)
      ensures !ok ==> variants == stored == rows && faults
    {
      DropIsFree(stored, k, rank);
      variants := Without(variants, k);
      var refused: bool := *;
      if (faults && refused) || !NamesFree(stored, variants, rank) {
        Rollback(rows);
        return false;
      }
      stored := variants;
      return true;
    }
  }

  // --- What those methods rest on ------------------------------------------------------

  /** Ids, where a row has one, are distinct and below the counter. */
  predicate DistinctIdsWhereAny(rows: seq<Variant>, next: nat)
  {
    && (forall i :: 0 <= i < |rows| && rows[i].id.Some? ==> rows[i].id.value < next)
    && (forall i, j :: 0 <= i < j < |rows| && rows[i].id.Some? ==> rows[i].id != rows[j].id)
  }

  lemma {:induction false} NumberedDistinctFrom(rows: seq<Variant>, next: nat, start: nat)
    requires start <= next
    requires forall i :: 0 <= i < |rows| && rows[i].id.Some? ==> rows[i].id.value < start
    requires forall i, j :: 0 <= i < j < |rows| && rows[i].id.Some? ==> rows[i].id != rows[j].id
    ensures |Numbered(rows, next)| == |rows|
    ensures forall i :: 0 <= i < |rows| ==>
      var id := Numbered(rows, next)[i].id;
      id.Some? && id.value < next + |rows| && (rows[i].id.Some? ==> id == rows[i].id)
      && (rows[i].id.None? ==> next <= id.value)
    ensures forall i, j :: 0 <= i < j < |rows| ==> Numbered(rows, next)[i].id != Numbered(rows, next)[j].id
    decreases rows
  {
    if rows != [] {
      NumberedDistinctFrom(rows[1..], if rows[0].id.None? then next + 1 else next, start);
    }
  }

  lemma NumberedDistinct(rows: seq<Variant>, next: nat)
    requires DistinctIdsWhereAny(rows, next)
    ensures DistinctIds(Numbered(rows, next), next + |rows|)
  {
    NumberedDistinctFrom(rows, next, next);
  }

  lemma {:induction false} NumberedAppended(rows: seq<Variant>, next: nat)
    requires rows != [] && rows[|rows| - 1].id.None?
    requires forall i :: 0 <= i < |rows| - 1 ==> rows[i].id.Some?
    ensures Numbered(rows, next) == rows[..|rows| - 1] + [rows[|rows| - 1].(id := Some(next))]
    decreases rows
  {
    if |rows| > 1 {
      NumberedAppended(rows[1..], next);
    }
  }

  lemma AppendedIds(rows: seq<Variant>, v: Variant, next: nat)
    requires v.id.None? && DistinctIds(rows, next)
    ensures Numbered(rows + [v], next) == rows + [v.(id := Some(next))] && DistinctIdsWhereAny(rows + [v], next)
  {
    NumberedAppended(rows + [v], next);
    assert (rows + [v])[..|rows|] == rows;
  }

  lemma {:induction false} KeptRowsAreRows(rows: seq<Variant>, entries: seq<Entry>, next: nat)
    requires DistinctIds(rows, next)
    ensures DistinctIds(KeptRows(rows, entries), next)
    ensures forall v :: v in KeptRows(rows, entries) <==> v in rows && Mentions(entries, v.id)
  {
    if rows != [] {
      var n := |rows| - 1;
      KeptRowsAreRows(rows[..n], entries, next);
      assert forall v :: v in rows <==> v in rows[..n] || v == rows[n];
      var front := KeptRows(rows[..n], entries);
      forall i | 0 <= i < |front|
        ensures front[i].id != rows[n].id
      {
        assert front[i] in rows[..n];
      }
    }
  }

  lemma ReplacedIsFlushable(rows: seq<Variant>, entries: seq<Entry>, next: nat)
    requires DistinctIds(rows, next)
    ensures DistinctIdsWhereAny(KeptAndNew(rows, entries), next)
  {
    KeptRowsAreRows(rows, entries, next);
    NewRowsAreNew(entries);
    var kept := KeptRows(rows, entries);
    forall i | 0 <= i < |kept|
      ensures AllAfter(kept, entries)[i].id == kept[i].id
    {
      AfterKeepsIdentity(kept[i], entries);
    }
  }

  /** Neither positions nor the promoted default change what the loop refuses. */
  lemma SamePayload(rows: seq<Variant>, payload: seq<Entry>)
    ensures TwoFlagged(Positional(payload)) <==> TwoFlagged(payload)
    ensures FirstProblem(rows, Prepared(payload)) == FirstProblem(rows, payload)
  {
    var positioned := Positional(payload);
    assert forall i :: 0 <= i < |payload| ==> positioned[i].isDefault == payload[i].isDefault;
    SameIdsSameProblem(rows, payload, Prepared(payload));
  }

  lemma ReplacedIsNumbered(rows: seq<Variant>, entries: seq<Entry>, next: nat)
    ensures forall i :: 0 <= i < |Replaced(rows, entries, next)| ==>
      Replaced(rows, entries, next)[i].id.Some? && !Replaced(rows, entries, next)[i].isDefault
  {
    NumberedKeepsRest(KeptAndNew(rows, entries), next);
  }

  lemma DefaultIsNumbered(rows: seq<Variant>, name: Option<string>, next: nat)
    requires forall i :: 0 <= i < |rows| ==> rows[i].id.Some? && !rows[i].isDefault
    ensures Numbered(WithDefaultNamed(rows, name), next) == WithDefaultNamed(rows, name)
    ensures AtMostOneDefault(WithDefaultNamed(rows, name))
    ensures DistinctIds(rows, next) ==> DistinctIdsWhereAny(WithDefaultNamed(rows, name), next)
  {
    NumberedFixed(WithDefaultNamed(rows, name), next);
  }

  lemma SameNames(a: seq<Variant>, b: seq<Variant>)
    requires |a| == |b| && forall i :: 0 <= i < |a| ==> a[i].name == b[i].name
    ensures DistinctNames(a) <==> DistinctNames(b)
  {
  }

  /** What the flush appends to is the rows, or the demoted rows, and the result is
      what the specification adds. */
  lemma AddedIsAppended(rows: seq<Variant>, before: seq<Variant>, v: Variant, name: string, price: real,
                        isDefault: bool,
                        available: bool, sortOrder: Option<int>, next: nat)
    requires AtMostOneDefault(rows) && before == if isDefault || rows == [] then Cleared(rows) else rows
    requires v == Variant(None, Trim(name), ToMinor(price), isDefault || rows == [], available,
                          if sortOrder.Some? then sortOrder.value else NextSortOrder(before))
    ensures
      var after := Added(rows, name, price, isDefault, available, sortOrder, next);
      && after == before + [v.(id := Some(next))]
      && AtMostOneDefault(after) && NeverTwoFlagged(before, before + [v])
      && (DistinctNames(before + [v]) <==> DistinctNames(after))
  {
    NextSortOrderOfCleared(rows);
    AddedHasOneDefault(rows, name, price, isDefault, available, sortOrder, next);
    SameNames(before + [v], before + [v.(id := Some(next))]);
    AppendedFlags(rows, before, v);
  }

  lemma AppendedFlags(rows: seq<Variant>, before: seq<Variant>, v: Variant)
    requires AtMostOneDefault(rows) && before == if v.isDefault then Cleared(rows) else rows
    ensures NeverTwoFlagged(before, before + [v])
  {
  }

  lemma EditedIsFlushable(rows: seq<Variant>, k: nat, f: Fields, next: nat)
    requires k < |rows| && AtMostOneDefault(rows) && DistinctIds(rows, next)
    ensures
      var edited := rows[k := Edited(rows[k], f)];
      && OneRenamed(rows, edited, k) && NeverTwoFlagged(rows, edited)
      && (DistinctNames(edited) <==> DistinctNames(Updated(rows, k, f)))
      && AtMostOneDefault(Updated(rows, k, f)) && DistinctIds(Updated(rows, k, f), next)
  {
    SameNames(rows[k := Edited(rows[k], f)], Updated(rows, k, f));
    UpdatedHasOneDefault(rows, k, f);
    UpdatedIsDistinct(rows, k, f, next);
  }

  lemma UpdatedIsDistinct(rows: seq<Variant>, k: nat, f: Fields, next: nat)
    requires DistinctIds(rows, next) && k < |rows|
    ensures DistinctIds(Updated(rows, k, f), next)
  {
  }

  lemma DeletedIsSound(rows: seq<Variant>, k: nat, next: nat)
    requires k < |rows| && AtMostOneDefault(rows) && DistinctIds(rows, next) && DistinctNames(rows)
    ensures AtMostOneDefault(Deleted(rows, k)) && DistinctIds(Deleted(rows, k), next) && DistinctNames(Deleted(rows, k))
    ensures DistinctIds(Without(rows, k), next) && DistinctNames(Without(rows, k))
    ensures rows[k].isDefault ==> forall i :: 0 <= i < |Without(rows, k)| ==> !Without(rows, k)[i].isDefault
  {
    DeletedHasOneDefault(rows, k);
    WithoutIsDistinct(rows, k, next);
    WithoutStaysDistinct(rows, k);
    DeletedNames(rows, k, next);
  }

  lemma DeletedNames(rows: seq<Variant>, k: nat, next: nat)
    requires k < |rows| && DistinctIds(Without(rows, k), next) && DistinctNames(Without(rows, k))
    ensures DistinctIds(Deleted(rows, k), next) && DistinctNames(Deleted(rows, k))
  {
    SameNames(Without(rows, k), Deleted(rows, k));
  }

  /** Setting a flag where none is set. */
  lemma DefaultIsFree(rows: seq<Variant>, name: Option<string>, rank: nat -> nat)
    requires Identified(rows) && DistinctNames(rows) && forall i :: 0 <= i < |rows| ==> !rows[i].isDefault
    ensures NamesFree(rows, WithDefaultNamed(rows, name), rank) && NeverTwoFlagged(rows, WithDefaultNamed(rows, name))
    ensures DistinctNames(WithDefaultNamed(rows, name))
  {
    var flagged := WithDefaultNamed(rows, name);
    SameNames(flagged, rows);
    OneRenameIsFree(rows, flagged, rank, 0);
  }

  lemma WithoutIsDistinct(rows: seq<Variant>, k: nat, next: nat)
    requires k < |rows| && DistinctIds(rows, next)
    ensures DistinctIds(Without(rows, k), next)
  {
  }

  lemma {:induction false} NextSortOrderOfCleared(rows: seq<Variant>)
    ensures MaxSortOrder(Cleared(rows)) == MaxSortOrder(rows)
  {
    if rows != [] {
      NextSortOrderOfCleared(rows[..|rows| - 1]);
      assert Cleared(rows)[..|rows| - 1] == Cleared(rows[..|rows| - 1]);
    }
  }

  /** The first variant is always the default, and a new default demotes the old; an
      item keeps its default, and one without has one again if and only if the new
      variant is it. */
  lemma AddedHasOneDefault(rows: seq<Variant>, name: string, price: real, isDefault: bool, available: bool,
                           sortOrder: Option<int>, next: nat)
    requires AtMostOneDefault(rows)
    ensures
      var after := Added(rows, name, price, isDefault, available, sortOrder, next);
      && AtMostOneDefault(after) && (isDefault || rows == [] ==> after[|rows|].isDefault)
      && (HasDefault(after) <==> isDefault || rows == [] || HasDefault(rows))
  {
    var after := Added(rows, name, price, isDefault, available, sortOrder, next);
    if isDefault || rows == [] {
      assert after[|rows|].isDefault;
    } else {
      assert forall i :: 0 <= i < |rows| ==> after[i] == rows[i];
      assert !after[|rows|].isDefault;
    }
  }

  /** An edit keeps the default there is, and a promotion makes it this row. */
  lemma UpdatedHasOneDefault(rows: seq<Variant>, k: nat, f: Fields)
    requires AtMostOneDefault(rows) && k < |rows|
    ensures AtMostOneDefault(Updated(rows, k, f))
    ensures f.isDefault == Some(true) ==> Updated(rows, k, f)[k].isDefault
    ensures HasDefault(Updated(rows, k, f)) <==> HasDefault(rows) || f.isDefault == Some(true)
  {
    var after := Updated(rows, k, f);
    if f.isDefault == Some(true) {
      assert after[k].isDefault;
    } else {
      assert forall i :: 0 <= i < |rows| ==> after[i].isDefault == rows[i].isDefault;
    }
  }

  /** Deleting keeps a default where there was one, as long as a row is left. */
  lemma DeletedHasOneDefault(rows: seq<Variant>, k: nat)
    requires AtMostOneDefault(rows) && k < |rows|
    ensures AtMostOneDefault(Without(rows, k)) && AtMostOneDefault(Deleted(rows, k))
    ensures rows[k].isDefault ==> !HasDefault(Without(rows, k))
    ensures HasDefault(Deleted(rows, k)) <==> HasDefault(rows) && |rows| > 1
  {
    var rest, after := Without(rows, k), Deleted(rows, k);
    assert forall i :: 0 <= i < |rest| ==> rest[i] == rows[if i < k then i else i + 1];
    if rest != [] && rows[k].isDefault {
      assert after[FirstShown(rest)].isDefault;
    } else if HasDefault(rows) && rest != [] {
      var i :| 0 <= i < |rows| && rows[i].isDefault;
      assert rest[if i < k then i else i - 1].isDefault;
    }
  }
}
