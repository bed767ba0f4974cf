/**
 One flush of an item's variants, row by row. The ORM updates the rows that stay, in
 the order of their ids, then inserts the new ones in turn, then deletes the rest,
 and the unique name is checked at every row (app/models/menu.py:153-164). `rank` is
 the order of the ids: UUIDs are random, so it has nothing to do with age.
 */
module MenuFlush {
  import opened Options
  import opened MenuVariants

  predicate Stays(v: Variant, target: seq<Variant>)
  {
    v.id.Some? && IndexOf(target, v.id.value) < |target|
  }

  /** A stored row's name once the updates are done; one to be deleted still has its
      own. */
  function Renamed(v: Variant, target: seq<Variant>): string
  {
    if Stays(v, target) then target[IndexOf(target, v.id.value)].name else v.name
  }

  /** And once the rows ranked below `k` are updated. */
  function RenamedBelow(v: Variant, target: seq<Variant>, rank: nat -> nat, k: nat): string
  {
    if Stays(v, target) && rank(v.id.value) < k then Renamed(v, target) else v.name
  }

  /** No two rows have one name while the updates have come as far as `k`. */
  predicate UpdatedTo(stored: seq<Variant>, target: seq<Variant>, rank: nat -> nat, k: nat)
  {
    forall i, j :: 0 <= i < j < |stored| ==>
      RenamedBelow(stored[i], target, rank, k) != RenamedBelow(stored[j], target, rank, k)
  }

  /** The new row at `m` finds its name unused. */
  predicate Inserts(stored: seq<Variant>, target: seq<Variant>, m: nat)
    requires m < |target|
  {
    && (forall i :: 0 <= i < |stored| ==> Renamed(stored[i], target) != target[m].name)
    && (forall e :: 0 <= e < m && target[e].id.None? ==> target[e].name != target[m].name)
  }

  /** Every row of the flush is accepted. Deletes cannot be refused. */
  ghost predicate FlushAccepted(stored: seq<Variant>, target: seq<Variant>, rank: nat -> nat)
  {
    && (forall k: nat :: UpdatedTo(stored, target, rank, k))
    && (forall m :: 0 <= m < |target| && target[m].id.None? ==> Inserts(stored, target, m))
  }

  /** No row takes a name that another still has when its turn comes. */
  predicate NamesFree(stored: seq<Variant>, target: seq<Variant>, rank: nat -> nat)
  {
    && DistinctNames(target)
    && (forall i, j | 0 <= i < |stored| && 0 <= j < |stored| && i != j && Stays(stored[i], target)
                      && Renamed(stored[i], target) == stored[j].name ::
          Stays(stored[j], target) && rank(stored[j].id.value) <= rank(stored[i].id.value))
    && (forall m, j ::
        0 <= m < |target| && target[m].id.None? && 0 <= j < |stored| && target[m].name == stored[j].name ==>
          Stays(stored[j], target))
  }

  /** The rows to flush are stored ones, each at most once, and new ones. */
  predicate Follows(stored: seq<Variant>, target: seq<Variant>)
  {
    && (forall i, j :: 0 <= i < j < |target| && target[i].id.Some? ==> target[i].id != target[j].id)
    && (forall i :: 0 <= i < |stored| ==> stored[i].id.Some?)
    && (forall i, j :: 0 <= i < j < |stored| ==> stored[i].id != stored[j].id)
    && (forall i :: 0 <= i < |target| && target[i].id.Some? ==>
        exists j :: 0 <= j < |stored| && stored[j].id == target[i].id)
  }

  lemma IndexOfRow(target: seq<Variant>, i: nat)
    requires i < |target| && target[i].id.Some?
    requires forall a, b :: 0 <= a < b < |target| && target[a].id.Some? ==> target[a].id != target[b].id
    ensures IndexOf(target, target[i].id.value) == i
  {
  }

  /** Two rows that stay end as two rows of the target. */
  lemma StayApart(stored: seq<Variant>, target: seq<Variant>, i: nat, j: nat)
    requires Follows(stored, target) && DistinctNames(target) && i < |stored| && j < |stored| && i != j
    requires Stays(stored[i], target) && Stays(stored[j], target)
    ensures Renamed(stored[i], target) != Renamed(stored[j], target)
  {
    var a, b := IndexOf(target, stored[i].id.value), IndexOf(target, stored[j].id.value);
    assert target[a].id == stored[i].id && target[b].id == stored[j].id;
  }

  lemma FreeIsAccepted(stored: seq<Variant>, target: seq<Variant>, rank: nat -> nat)
    requires Follows(stored, target) && DistinctNames(stored) && NamesFree(stored, target, rank)
    ensures FlushAccepted(stored, target, rank)
  {
    forall k: nat, i, j | 0 <= i < j < |stored|
      ensures RenamedBelow(stored[i], target, rank, k) != RenamedBelow(stored[j], target, rank, k)
    {
      if Stays(stored[i], target) && Stays(stored[j], target) { StayApart(stored, target, i, j); }
    }
    forall m | 0 <= m < |target| && target[m].id.None?
      ensures Inserts(stored, target, m)
    {
      forall i | 0 <= i < |stored|
        ensures Renamed(stored[i], target) != target[m].name
      {
        if Stays(stored[i], target) { assert target[IndexOf(target, stored[i].id.value)].id != target[m].id; }
      }
    }
  }

  /** Far enough, every row that stays has its new name. */
  lemma BothRenamed(stored: seq<Variant>, target: seq<Variant>, rank: nat -> nat, i: nat, j: nat)
    requires FlushAccepted(stored, target, rank) && i < |stored| && j < |stored| && i != j
    requires Stays(stored[i], target) && Stays(stored[j], target)
    ensures Renamed(stored[i], target) != Renamed(stored[j], target)
  {
    assert UpdatedTo(stored, target, rank, rank(stored[i].id.value) + rank(stored[j].id.value) + 1);
  }

  /** When `i` has been updated and `j` has not. */
  lemma OneOfTwoRenamed(stored: seq<Variant>, target: seq<Variant>, rank: nat -> nat, i: nat, j: nat)
    requires FlushAccepted(stored, target, rank) && i < |stored| && j < |stored| && i != j && Stays(stored[i], target)
    requires Stays(stored[j], target) ==> rank(stored[i].id.value) < rank(stored[j].id.value)
    ensures Renamed(stored[i], target) != stored[j].name
  {
    assert UpdatedTo(stored, target, rank, rank(stored[i].id.value) + 1);
  }

  lemma AcceptedIsFree(stored: seq<Variant>, target: seq<Variant>, rank: nat -> nat)
    requires Follows(stored, target) && FlushAccepted(stored, target, rank)
    ensures NamesFree(stored, target, rank)
  {
    forall a, b | 0 <= a < b < |target|
      ensures target[a].name != target[b].name
    {
      TargetApart(stored, target, rank, a, b);
    }
    forall i, j | 0 <= i < |stored| && 0 <= j < |stored| && i != j && Stays(stored[i], target)
                  && !(Stays(stored[j], target) && rank(stored[j].id.value) <= rank(stored[i].id.value))
      ensures Renamed(stored[i], target) != stored[j].name
    {
      OneOfTwoRenamed(stored, target, rank, i, j);
    }
    forall m, j | 0 <= m < |target| && target[m].id.None? && 0 <= j < |stored| && !Stays(stored[j], target)
      ensures target[m].name != stored[j].name
    {
      assert Inserts(stored, target, m);
    }
  }

  lemma TargetApart(stored: seq<Variant>, target: seq<Variant>, rank: nat -> nat, a: nat, b: nat)
    requires Follows(stored, target) && FlushAccepted(stored, target, rank) && a < b < |target|
    ensures target[a].name != target[b].name
  {
    var i := if target[a].id.Some? then StoredAs(stored, target, a) else 0;
    var j := if target[b].id.Some? then StoredAs(stored, target, b) else 0;
    if target[a].id.Some? && target[b].id.Some? {
      BothRenamed(stored, target, rank, i, j);
    } else if target[a].id.Some? {
      assert Inserts(stored, target, b);
    } else if target[b].id.Some? {
      assert Inserts(stored, target, a);
    } else {
      assert Inserts(stored, target, b);
    }
  }

  /** The stored row that a row of the target updates. */
  function StoredAs(stored: seq<Variant>, target: seq<Variant>, a: nat): (i: nat)
    requires Follows(stored, target) && a < |target| && target[a].id.Some?
    ensures i < |stored| && stored[i].id == target[a].id && Stays(stored[i], target)
    ensures Renamed(stored[i], target) == target[a].name
  {
    IndexOfRow(target, a);
    IndexOf(stored, target[a].id.value)
  }

  /** Row by row, a flush is accepted if and only if no row takes a name that another
      still has when its turn comes. */
  lemma FlushAcceptedIff(stored: seq<Variant>, target: seq<Variant>, rank: nat -> nat)
    requires Follows(stored, target) && DistinctNames(stored)
    ensures FlushAccepted(stored, target, rank) <==> NamesFree(stored, target, rank)
  {
    if NamesFree(stored, target, rank) { FreeIsAccepted(stored, target, rank); }
    if FlushAccepted(stored, target, rank) { AcceptedIsFree(stored, target, rank); }
  }

  /** The partial unique index on the default, at any point of the flush: whichever
      rows have been written, no two are flagged. */
  predicate NeverTwoFlagged(stored: seq<Variant>, target: seq<Variant>)
  {
    && AtMostOneDefault(target)
    && forall i, j | 0 <= i < |target| && 0 <= j < |stored| && target[i].isDefault && stored[j].isDefault ::
         target[i].id == stored[j].id
  }

  /** The same rows, of which only the one at `k` may have another name. */
  predicate OneRenamed(stored: seq<Variant>, target: seq<Variant>, k: nat)
  {
    |target| == |stored| && forall i :: 0 <= i < |stored| ==>
      target[i].id == stored[i].id && (i != k ==> target[i].name == stored[i].name)
  }

  // --- What is always refused ----------------------------------------------------------------

  /** Sending a removed size again by name, without its id or on another row, is
      refused whatever the order. */
  lemma ResentNameIsRefused(stored: seq<Variant>, target: seq<Variant>, rank: nat -> nat, j: nat, m: nat)
    requires Follows(stored, target) && j < |stored| && !Stays(stored[j], target) && m < |target|
    requires target[m].name == stored[j].name
    ensures !NamesFree(stored, target, rank)
  {
    if target[m].id.Some? { var i := StoredAs(stored, target, m); }
  }

  /** Two rows that swap their names are refused whatever the order, if no two ids
      rank alike. */
  lemma SwapIsRefused(stored: seq<Variant>, target: seq<Variant>, rank: nat -> nat, i: nat, j: nat)
    requires i < |stored| && j < |stored| && i != j && Stays(stored[i], target) && Stays(stored[j], target)
    requires Renamed(stored[i], target) == stored[j].name && Renamed(stored[j], target) == stored[i].name
    requires rank(stored[i].id.value) != rank(stored[j].id.value)
    ensures !NamesFree(stored, target, rank)
  {
  }

  // --- Flushes that cannot collide on the way ------------------------------------------------

  predicate Identified(rows: seq<Variant>)
  {
    && (forall i :: 0 <= i < |rows| ==> rows[i].id.Some?)
    && (forall i, j :: 0 <= i < j < |rows| ==> rows[i].id != rows[j].id)
  }

  /** Every stored row stays, and at most the name at `k` changes. */
  lemma OneRenameIsFree(stored: seq<Variant>, target: seq<Variant>, rank: nat -> nat, k: nat)
    requires Identified(stored) && DistinctNames(stored) && OneRenamed(stored, target, k)
    ensures NamesFree(stored, target, rank) <==> DistinctNames(target)
  {
    forall i | 0 <= i < |stored|
      ensures Stays(stored[i], target) && Renamed(stored[i], target) == target[i].name
    {
      IndexOfRow(target, i);
    }
  }

  /** No stored row that stays changes its name. */
  lemma UnrenamedIsFree(stored: seq<Variant>, target: seq<Variant>, rank: nat -> nat)
    requires DistinctNames(stored)
    requires forall i :: 0 <= i < |stored| && Stays(stored[i], target) ==> Renamed(stored[i], target) == stored[i].name
    requires forall m :: 0 <= m < |target| && target[m].id.None? ==>
      forall j :: 0 <= j < |stored| ==> Stays(stored[j], target)
    ensures NamesFree(stored, target, rank) <==> DistinctNames(target)
  {
  }

  /** A new row after all the stored ones. */
  lemma AppendIsFree(stored: seq<Variant>, v: Variant, rank: nat -> nat)
    requires Identified(stored) && DistinctNames(stored) && v.id.None?
    ensures NamesFree(stored, stored + [v], rank) <==> DistinctNames(stored + [v])
  {
    forall i | 0 <= i < |stored|
      ensures Stays(stored[i], stored + [v]) && Renamed(stored[i], stored + [v]) == stored[i].name
    {
      RowAppears(stored, stored + [v], i, i);
    }
    UnrenamedIsFree(stored, stored + [v], rank);
  }

  lemma RowAppears(stored: seq<Variant>, target: seq<Variant>, i: nat, a: nat)
    requires i < |stored| && a < |target| && target[a] == stored[i] && stored[i].id.Some?
    requires forall c, b :: 0 <= c < b < |target| && target[c].id.Some? ==> target[c].id != target[b].id
    ensures Stays(stored[i], target) && Renamed(stored[i], target) == stored[i].name
  {
    IndexOfRow(target, a);
  }

  /** One row fewer. */
  lemma DropIsFree(stored: seq<Variant>, k: nat, rank: nat -> nat)
    requires k < |stored| && Identified(stored) && DistinctNames(stored)
    ensures NamesFree(stored, Without(stored, k), rank)
  {
    var target := Without(stored, k);
    forall i | 0 <= i < |stored| && Stays(stored[i], target)
      ensures Renamed(stored[i], target) == stored[i].name
    {
      DroppedKeepsName(stored, k, i);
    }
    WithoutStaysDistinct(stored, k);
    UnrenamedIsFree(stored, target, rank);
  }

  lemma WithoutStaysDistinct(rows: seq<Variant>, k: nat)
    requires k < |rows| && Identified(rows) && DistinctNames(rows)
    ensures Identified(Without(rows, k)) && DistinctNames(Without(rows, k))
  {
    var rest := Without(rows, k);
    assert forall i :: 0 <= i < |rest| ==> rest[i] == rows[if i < k then i else i + 1];
  }

  lemma DroppedKeepsName(stored: seq<Variant>, k: nat, i: nat)
    requires k < |stored| && i < |stored| && Identified(stored) && Stays(stored[i], Without(stored, k))
    ensures Renamed(stored[i], Without(stored, k)) == stored[i].name
  {
    var target := Without(stored, k);
    var a := IndexOf(target, stored[i].id.value);
    assert target[a] == stored[if a < k then a else a + 1];
  }
}
