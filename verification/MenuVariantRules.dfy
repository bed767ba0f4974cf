/**
 What a replace-set of variants guarantees, and what every sequence of variant
 operations keeps.
 */
module MenuVariantRules {
  import opened Options
  import opened Text
  import opened Money
  import opened MenuVariants
  import opened MenuFlush
  import opened MenuItem

  // --- Which entry wrote which row -----------------------------------------------

  /** The entry that decides a row's fields: a new one, or the last for its id. */
  predicate Decides(entries: seq<Entry>, j: nat)
    requires j < |entries|
  {
    !entries[j].id.Malformed? && (entries[j].id.Known? ==>
      forall k :: j < k < |entries| ==> entries[k].id != entries[j].id)
  }

  predicate DistinctEntryIds(entries: seq<Entry>)
  {
    forall i, j :: 0 <= i < j < |entries| && entries[i].id.Known? ==> entries[i].id != entries[j].id
  }

  lemma {:induction false} LastEntryWins(v: Variant, entries: seq<Entry>, j: nat)
    requires j < |entries| && Decides(entries, j) && entries[j].id.Known? && v.id == Some(entries[j].id.id)
    ensures AfterEntries(v, entries) == Overwritten(v, entries[j])
    decreases |entries|
  {
    var n := |entries| - 1;
    if j < n {
      assert entries[n].id != entries[j].id;
      forall k | j < k < n ensures entries[..n][k].id != entries[j].id { assert entries[k].id != entries[j].id; }
      LastEntryWins(v, entries[..n], j);
    }
  }

  lemma {:induction false} MentionedHasDecider(entries: seq<Entry>, id: nat) returns (j: nat)
    requires Mentions(entries, Some(id))
    ensures j < |entries| && Decides(entries, j) && entries[j].id == Known(id)
    decreases |entries|
  {
    var n := |entries| - 1;
    if entries[n].id == Known(id) {
      j := n;
    } else {
      var i :| 0 <= i < |entries| && entries[i].id.Known? && Some(id) == Some(entries[i].id.id);
      assert entries[..n][i] == entries[i];
      j := MentionedHasDecider(entries[..n], id);
      forall k | j < k < |entries| ensures entries[k].id != entries[j].id {
        if k < n { assert entries[..n][k].id != entries[..n][j].id; }
      }
    }
  }

  /** Each new row comes from an entry without an id, in payload order. */
  lemma {:induction false} NewRowHasEntry(entries: seq<Entry>, m: nat) returns (j: nat)
    requires m < |NewRows(entries)|
    ensures j < |entries| && entries[j].id.Absent? && NewRows(entries)[m] == NewRow(entries[j])
    ensures NewRows(entries[..j]) == NewRows(entries)[..m]
    decreases |entries|
  {
    var n := |entries| - 1;
    if m < |NewRows(entries[..n])| {
      j := NewRowHasEntry(entries[..n], m);
      assert entries[..n][..j] == entries[..j];
    } else {
      j := n;
    }
  }

  lemma {:induction false} AbsentEntryHasRow(entries: seq<Entry>, j: nat)
    requires j < |entries| && entries[j].id.Absent?
    ensures |NewRows(entries[..j])| < |NewRows(entries)|
    ensures NewRows(entries)[|NewRows(entries[..j])|] == NewRow(entries[j])
    decreases |entries|
  {
    var n := |entries| - 1;
    if j < n {
      assert entries[..n][..j] == entries[..j];
      AbsentEntryHasRow(entries[..n], j);
    }
  }

  /** A row as its deciding entry wrote it, its id and flag aside. */
  predicate WrittenBy(row: Variant, e: Entry)
  {
    row.name == Trim(e.name) && row.price == ToMinor(e.price) && row.available == e.available
    && row.sortOrder == e.sortOrder
  }

  predicate AllKnown(rows: seq<Variant>, entries: seq<Entry>)
  {
    forall j :: 0 <= j < |entries| ==>
      !entries[j].id.Malformed? && (entries[j].id.Known? ==> IndexOf(rows, entries[j].id.id) < |rows|)
  }

  lemma {:induction false} NoProblemMeansKnown(rows: seq<Variant>, entries: seq<Entry>)
    ensures FirstProblem(rows, entries).None? <==> AllKnown(rows, entries)
    decreases entries
  {
    if entries != [] {
      NoProblemMeansKnown(rows, entries[1..]);
      assert forall j :: 0 <= j < |entries[1..]| ==> entries[1..][j] == entries[j + 1];
      assert forall j :: 0 < j < |entries| ==> entries[j] == entries[1..][j - 1];
    }
  }

  /** Every row left has a deciding entry that wrote it: its own id's, or, for a
      new row, one without an id. */
  lemma RowHasEntry(rows: seq<Variant>, entries: seq<Entry>, next: nat, i: nat) returns (j: nat)
    requires DistinctIds(rows, next) && i < |Replaced(rows, entries, next)|
    ensures j < |entries| && Decides(entries, j) && WrittenBy(Replaced(rows, entries, next)[i], entries[j])
    ensures i < |KeptRows(rows, entries)| ==>
      entries[j].id.Known?
      && Replaced(rows, entries, next)[i].id == Some(entries[j].id.id) == KeptRows(rows, entries)[i].id
    ensures i >= |KeptRows(rows, entries)| ==>
      entries[j].id.Absent? && |NewRows(entries[..j])| == i - |KeptRows(rows, entries)|
  {
    var kept := KeptRows(rows, entries);
    var before := AllAfter(kept, entries) + NewRows(entries);
    NumberedKeepsRest(Cleared(before), next);
    if i < |kept| {
      KeptRowsAreRows(rows, entries, next);
      assert kept[i] in kept;
      var id := kept[i].id.value;
      j := MentionedHasDecider(entries, id);
      LastEntryWins(kept[i], entries, j);
      assert before[i] == Overwritten(kept[i], entries[j]);
    } else {
      j := NewRowHasEntry(entries, i - |kept|);
      assert before[i] == NewRow(entries[j]);
    }
  }

  /** And every deciding entry has a row it wrote. */
  lemma EntryHasRow(rows: seq<Variant>, entries: seq<Entry>, next: nat, j: nat) returns (i: nat)
    requires DistinctIds(rows, next) && AllKnown(rows, entries) && j < |entries| && Decides(entries, j)
    ensures i < |Replaced(rows, entries, next)| && WrittenBy(Replaced(rows, entries, next)[i], entries[j])
    ensures entries[j].id.Known? ==> Replaced(rows, entries, next)[i].id == Some(entries[j].id.id)
  {
    var kept := KeptRows(rows, entries);
    var before := AllAfter(kept, entries) + NewRows(entries);
    NumberedKeepsRest(Cleared(before), next);
    if entries[j].id.Known? {
      KeptRowsAreRows(rows, entries, next);
      var v := rows[IndexOf(rows, entries[j].id.id)];
      assert v in rows && Mentions(entries, v.id);
      assert v in kept;
      i :| 0 <= i < |kept| && kept[i] == v;
      LastEntryWins(v, entries, j);
      assert before[i] == Overwritten(v, entries[j]);
    } else {
      AbsentEntryHasRow(entries, j);
      i := |kept| + |NewRows(entries[..j])|;
      assert before[i] == NewRow(entries[j]);
    }
  }

  // --- Ids --------------------------------------------------------------------------

  /** Setting the default changes one flag and nothing else. */
  lemma DefaultChangesFlagOnly(rows: seq<Variant>, name: Option<string>)
    ensures |WithDefaultNamed(rows, name)| == |rows|
    ensures forall i :: 0 <= i < |rows| ==>
      WithDefaultNamed(rows, name)[i] == rows[i].(isDefault := WithDefaultNamed(rows, name)[i].isDefault)
  {
  }

  lemma PreparedSame(payload: seq<Entry>)
    ensures |Prepared(payload)| == |payload|
    ensures forall i :: 0 <= i < |payload| ==>
      Prepared(payload)[i].id == payload[i].id && Prepared(payload)[i].name == payload[i].name
  {
  }

  /** The old ids that survive are exactly those the payload names; every other
      row is new. */
  lemma SyncKeepsExactlyTheNamedIds(rows: seq<Variant>, payload: seq<Entry>, next: nat, id: nat)
    requires DistinctIds(rows, next) && SyncProblem(rows, payload).None? && id < next
    ensures (exists i :: 0 <= i < |Synced(rows, payload, next)| && Synced(rows, payload, next)[i].id == Some(id))
       <==> Mentions(payload, Some(id))
    ensures |Synced(rows, payload, next)| == |KeptRows(rows, Prepared(payload))| + |NewRows(Prepared(payload))|
  {
    var entries := Prepared(payload);
    var replaced := Replaced(rows, entries, next);
    DefaultChangesFlagOnly(replaced, DefaultName(entries));
    SamePayload(rows, payload);
    NoProblemMeansKnown(rows, entries);
    PreparedSame(payload);
    NumberedKeepsRest(KeptAndNew(rows, entries), next);
    if Mentions(payload, Some(id)) {
      var k :| 0 <= k < |payload| && payload[k].id.Known? && Some(id) == Some(payload[k].id.id);
      assert entries[k].id == Known(id);
      var j := MentionedHasDecider(entries, id);
      var i := EntryHasRow(rows, entries, next, j);
      assert Synced(rows, payload, next)[i].id == Some(id);
    }
    if i :| 0 <= i < |Synced(rows, payload, next)| && Synced(rows, payload, next)[i].id == Some(id) {
      NewIdsAreNew(rows, entries, next, i);
      var j := RowHasEntry(rows, entries, next, i);
      assert payload[j].id == Known(id);
    }
  }

  lemma NewIdsAreNew(rows: seq<Variant>, entries: seq<Entry>, next: nat, i: nat)
    requires DistinctIds(rows, next) && i < |Replaced(rows, entries, next)|
    ensures i >= |KeptRows(rows, entries)| ==>
      Replaced(rows, entries, next)[i].id.Some? && Replaced(rows, entries, next)[i].id.value >= next
  {
    ReplacedIsFlushable(rows, entries, next);
    NewRowsAreNew(entries);
    NumberedDistinctFrom(KeptAndNew(rows, entries), next, next);
  }

  // --- The default ---------------------------------------------------------------------

  /** The default entry's name is still some row's when the loop is done: some
      deciding entry, itself or another, has it. */
  predicate DefaultSurvives(entries: seq<Entry>)
  {
    exists j :: 0 <= j < |entries| && Decides(entries, j) && Some(Trim(entries[j].name)) == DefaultName(entries)
  }

  lemma {:induction false} DefaultNameOfFlagged(entries: seq<Entry>) returns (j: nat)
    requires exists k :: 0 <= k < |entries| && entries[k].isDefault
    ensures j < |entries| && entries[j].isDefault && DefaultName(entries) == Some(Trim(entries[j].name))
    decreases entries
  {
    if entries[0].isDefault {
      j := 0;
    } else {
      var k :| 0 <= k < |entries| && entries[k].isDefault;
      assert entries[1..][k - 1].isDefault;
      var m := DefaultNameOfFlagged(entries[1..]);
      j := m + 1;
    }
  }

  lemma PreparedHasFlag(payload: seq<Entry>)
    requires payload != []
    ensures exists k :: 0 <= k < |Prepared(payload)| && Prepared(payload)[k].isDefault
  {
    var positioned := Positional(payload);
    if NoneFlagged(positioned) {
      assert Prepared(payload)[0].isDefault;
    } else {
      var k :| 0 <= k < |positioned| && positioned[k].isDefault;
      assert Prepared(payload)[k].isDefault;
    }
  }

  /** After a replace-set the item has exactly one default if and only if the
      default entry's name survives the payload's own overwriting. */
  lemma SyncHasOneDefaultIff(rows: seq<Variant>, payload: seq<Entry>, next: nat)
    requires DistinctIds(rows, next) && SyncProblem(rows, payload).None?
    ensures OneDefault(Synced(rows, payload, next)) <==> payload == [] || DefaultSurvives(Prepared(payload))
  {
    var entries := Prepared(payload);
    var replaced := Replaced(rows, entries, next);
    SamePayload(rows, payload);
    NoProblemMeansKnown(rows, entries);
    ReplacedIsNumbered(rows, entries, next);
    DefaultIsNumbered(replaced, DefaultName(entries), next);
    if payload == [] {
      NothingReplaced(rows, next);
    } else {
      PreparedHasFlag(payload);
      var d := DefaultNameOfFlagged(entries);
      var name := DefaultName(entries).value;
      var k := IndexOfName(replaced, name);
      if DefaultSurvives(entries) {
        var j :| 0 <= j < |entries| && Decides(entries, j) && Some(Trim(entries[j].name)) == DefaultName(entries);
        var i := EntryHasRow(rows, entries, next, j);
        assert replaced[i].name == name;
        assert Synced(rows, payload, next)[k].isDefault;
      } else {
        if k < |replaced| {
          var j := RowHasEntry(rows, entries, next, k);
        }
        NotEmptied(rows, entries, next);
      }
    }
  }

  lemma NothingReplaced(rows: seq<Variant>, next: nat)
    requires DistinctIds(rows, next)
    ensures Synced(rows, [], next) == []
  {
    KeptRowsAreRows(rows, [], next);
    if KeptRows(rows, []) != [] {
      assert KeptRows(rows, [])[0] in KeptRows(rows, []);
    }
    assert Prepared([]) == [];
  }

  /** A payload that is not empty leaves rows. */
  lemma NotEmptied(rows: seq<Variant>, entries: seq<Entry>, next: nat)
    requires DistinctIds(rows, next) && AllKnown(rows, entries) && entries != []
    ensures Replaced(rows, entries, next) != []
  {
    var n := |entries| - 1;
    var i := EntryHasRow(rows, entries, next, n);
  }

  /** Distinct ids in the payload are enough. */
  lemma DistinctIdsKeepDefault(payload: seq<Entry>)
    requires payload != [] && DistinctEntryIds(payload)
    requires forall j :: 0 <= j < |payload| ==> !payload[j].id.Malformed?
    ensures DefaultSurvives(Prepared(payload))
  {
    var entries := Prepared(payload);
    PreparedSame(payload);
    PreparedHasFlag(payload);
    var d := DefaultNameOfFlagged(entries);
    assert Decides(entries, d);
  }

  /** Naming one id twice can leave an item with variants and no default. */
  lemma RepeatedIdCanLoseDefault()
    ensures
      var rows := [Variant(Some(0), "Half", 100, true, true, 0)];
      var payload := [Entry(Known(0), "Half", 1.0, true, true, 0), Entry(Known(0), "Full", 2.0, false, true, 0)];
      && DistinctIds(rows, 1) && OneDefault(rows) && SyncProblem(rows, payload).None?
      && !OneDefault(Synced(rows, payload, 1))
  {
    assert Trim("Half") == "Half" && Trim("Full") == "Full" && "Half"[0] != "Full"[0];
    RepeatedIdLosesDefault("Half", "Full", 100, 1.0, 2.0);
  }

  /** Whatever the two names, if they differ when trimmed. */
  lemma RepeatedIdLosesDefault(first: string, second: string, stored: int, one: real, two: real)
    requires Trim(first) != Trim(second)
    ensures
      var rows := [Variant(Some(0), first, stored, true, true, 0)];
      var payload := [Entry(Known(0), first, one, true, true, 0), Entry(Known(0), second, two, false, true, 0)];
      && DistinctIds(rows, 1) && OneDefault(rows) && SyncProblem(rows, payload).None?
      && !OneDefault(Synced(rows, payload, 1))
  {
    var rows := [Variant(Some(0), first, stored, true, true, 0)];
    var payload := [Entry(Known(0), first, one, true, true, 0), Entry(Known(0), second, two, false, true, 0)];
    assert rows[0].isDefault;
    assert IndexOf(rows, 0) == 0;
    NoProblemMeansKnown(rows, payload);
    OverwrittenDefaultIsLost(payload);
    SyncHasOneDefaultIff(rows, payload, 1);
  }

  lemma OverwrittenDefaultIsLost(payload: seq<Entry>)
    requires |payload| == 2 && payload[0].id.Known? && payload[0].id == payload[1].id
    requires payload[0].isDefault && !payload[1].isDefault && Trim(payload[0].name) != Trim(payload[1].name)
    ensures !DefaultSurvives(Prepared(payload))
  {
    var entries := Prepared(payload);
    PreparedSame(payload);
    assert entries[0].isDefault && !Decides(entries, 0) by { assert entries[1].id == entries[0].id; }
    assert DefaultName(entries) == Some(Trim(entries[0].name));
  }

  // --- Whether the database accepts it -------------------------------------------------------

  /** The rows a replace-set flushes are stored ones, each once, and new ones. */
  lemma KeptAndNewFollows(rows: seq<Variant>, entries: seq<Entry>, next: nat)
    requires DistinctIds(rows, next)
    ensures Follows(rows, KeptAndNew(rows, entries))
  {
    ReplacedIsFlushable(rows, entries, next);
    KeptRowsAreRows(rows, entries, next);
    NewRowsAreNew(entries);
    var kept, target := KeptRows(rows, entries), KeptAndNew(rows, entries);
    forall i | 0 <= i < |target| && target[i].id.Some?
      ensures exists j :: 0 <= j < |rows| && rows[j].id == target[i].id
    {
      AfterKeepsIdentity(kept[i], entries);
      assert kept[i] in rows;
    }
  }

  /** Row by row, the database accepts a replace-set if and only if no size takes a
      name that another still has when its turn comes: a condition on the payload,
      the stored rows and the order of their ids. */
  lemma SyncAcceptedIff(rows: seq<Variant>, payload: seq<Entry>, next: nat, rank: nat -> nat)
    requires DistinctIds(rows, next) && DistinctNames(rows)
    ensures FlushAccepted(rows, KeptAndNew(rows, Prepared(payload)), rank) <==>
            NamesFree(rows, KeptAndNew(rows, Prepared(payload)), rank)
  {
    KeptAndNewFollows(rows, Prepared(payload), next);
    FlushAcceptedIff(rows, KeptAndNew(rows, Prepared(payload)), rank);
  }

  // --- The promoted variant ---------------------------------------------------------------

  lemma ShownTransitive(a: Variant, b: Variant, c: Variant)
    requires ShownBefore(a, b) && ShownBefore(b, c)
    ensures ShownBefore(a, c)
  {
    if a.sortOrder == b.sortOrder == c.sortOrder { LessIsTransitive(a.name, b.name, c.name); }
  }

  lemma ShownTotal(a: Variant, b: Variant)
    ensures ShownBefore(a, b) || ShownBefore(b, a) || (a.sortOrder == b.sortOrder && a.name == b.name)
  {
    LessIsTotal(a.name, b.name);
  }

  /** The row picked is the first in display order, and of rows that tie, the
      earliest. */
  lemma {:induction false} FirstShownIsFirst(rows: seq<Variant>)
    requires rows != []
    ensures forall j :: 0 <= j < |rows| ==> !ShownBefore(rows[j], rows[FirstShown(rows)])
    ensures forall j :: 0 <= j < FirstShown(rows) ==> ShownBefore(rows[FirstShown(rows)], rows[j])
  {
    var n := |rows| - 1;
    if n == 0 {
      NotBeforeItself(rows[0]);
    } else {
      FirstShownIsFirst(rows[..n]);
      var k := FirstShown(rows[..n]);
      NotBeforeItself(rows[n]);
      if ShownBefore(rows[n], rows[k]) {
        forall j | 0 <= j < n
          ensures !ShownBefore(rows[j], rows[n]) && ShownBefore(rows[n], rows[j])
        {
          assert rows[..n][j] == rows[j];
          if ShownBefore(rows[j], rows[n]) { ShownTransitive(rows[j], rows[n], rows[k]); }
          ShownTotal(rows[k], rows[j]);
          if ShownBefore(rows[k], rows[j]) { ShownTransitive(rows[n], rows[k], rows[j]); }
        }
      } else {
        assert forall j :: 0 <= j < n ==> rows[..n][j] == rows[j];
      }
    }
  }

  lemma {:induction false} NotLessThanItself(s: string)
    ensures !Less(s, s)
  {
    if s != [] { NotLessThanItself(s[1..]); }
  }

  lemma NotBeforeItself(v: Variant)
    ensures !ShownBefore(v, v)
  {
    NotLessThanItself(v.name);
  }

  /** Deleting the default promotes the first of the rest in display order, and
      changes nothing else. */
  lemma DeletePromotesFirstShown(rows: seq<Variant>, k: nat) returns (p: nat)
    requires k < |rows| && AtMostOneDefault(rows) && rows[k].isDefault && |rows| > 1
    ensures p < |Without(rows, k)| && Deleted(rows, k) == Without(rows, k)[p := Without(rows, k)[p].(isDefault := true)]
    ensures forall j :: 0 <= j < |Without(rows, k)| ==> !ShownBefore(Without(rows, k)[j], Without(rows, k)[p])
    ensures forall j :: 0 <= j < |Deleted(rows, k)| ==> (Deleted(rows, k)[j].isDefault <==> j == p)
  {
    var rest := Without(rows, k);
    p := FirstShown(rest);
    FirstShownIsFirst(rest);
    NoneLeftFlagged(rows, k);
  }

  lemma NoneLeftFlagged(rows: seq<Variant>, k: nat)
    requires k < |rows| && AtMostOneDefault(rows) && rows[k].isDefault
    ensures forall j :: 0 <= j < |Without(rows, k)| ==> !Without(rows, k)[j].isDefault
  {
    var rest := Without(rows, k);
    assert forall i :: 0 <= i < |rest| ==> rest[i] == rows[if i < k then i else i + 1];
  }

  // --- What a replace-set writes -----------------------------------------------------------

  /** The row says what entry `j` of the payload says, the price to the nearest paisa;
      its place is the entry's own, unless the payload sets none. */
  predicate Says(row: Variant, payload: seq<Entry>, j: nat)
    requires j < |payload|
  {
    && row.name == Trim(payload[j].name) && row.available == payload[j].available
    && -0.5 <= row.price as real - payload[j].price * 100.0 <= 0.5
    && row.sortOrder ==
         if forall k :: 0 <= k < |payload| ==> payload[k].sortOrder == 0 then j else payload[j].sortOrder
  }

  lemma PreparedSays(row: Variant, payload: seq<Entry>, j: nat)
    requires j < |payload| && WrittenBy(row, Prepared(payload)[j])
    ensures Says(row, payload, j)
  {
    RoundHalfUpIsNearest(payload[j].price * 100.0);
  }

  lemma PreparedDecides(payload: seq<Entry>, j: nat)
    requires j < |payload|
    ensures Decides(Prepared(payload), j) <==> Decides(payload, j)
  {
    PreparedSame(payload);
    var entries := Prepared(payload);
    if entries[j].id.Known? {
      assert forall k :: j < k < |payload| ==> entries[k].id == payload[k].id;
      assert forall k :: j < k < |payload| ==> payload[k].id == entries[k].id;
    }
  }

  /** After a replace-set each row says what its entry says: an old row the last entry
      with its id, a new row an entry without one. */
  lemma SyncedRowSays(rows: seq<Variant>, payload: seq<Entry>, next: nat, i: nat) returns (j: nat)
    requires DistinctIds(rows, next) && i < |Synced(rows, payload, next)|
    ensures j < |payload| && Decides(payload, j) && Says(Synced(rows, payload, next)[i], payload, j)
    ensures
      var id := Synced(rows, payload, next)[i].id;
      id.Some? && payload[j].id == if id.value < next then Known(id.value) else Absent
  {
    var entries := Prepared(payload);
    PreparedSame(payload);
    DefaultChangesFlagOnly(Replaced(rows, entries, next), DefaultName(entries));
    j := RowHasEntryFor(rows, entries, next, i);
    PreparedDecides(payload, j);
    PreparedSays(Synced(rows, payload, next)[i], payload, j);
  }

  /** And every entry has its row, unless a later one has its id. */
  lemma SyncedEntryHasRow(rows: seq<Variant>, payload: seq<Entry>, next: nat, j: nat) returns (i: nat)
    requires DistinctIds(rows, next) && SyncProblem(rows, payload).None? && j < |payload| && Decides(payload, j)
    ensures i < |Synced(rows, payload, next)| && Says(Synced(rows, payload, next)[i], payload, j)
    ensures payload[j].id.Known? ==> Synced(rows, payload, next)[i].id == Some(payload[j].id.id)
  {
    var entries := Prepared(payload);
    PreparedSame(payload);
    SamePayload(rows, payload);
    NoProblemMeansKnown(rows, entries);
    DefaultChangesFlagOnly(Replaced(rows, entries, next), DefaultName(entries));
    PreparedDecides(payload, j);
    i := EntryHasRow(rows, entries, next, j);
    PreparedSays(Synced(rows, payload, next)[i], payload, j);
  }

  /** What is refused, by the entries: two flagged as the default; else the first whose
      id is malformed or no row of this item. */
  lemma SyncRefusedBy(rows: seq<Variant>, payload: seq<Entry>)
    ensures
      var problem := SyncProblem(rows, payload);
      if exists i, j :: 0 <= i < j < |payload| && payload[i].isDefault && payload[j].isDefault
      then problem == Some(TwoDefaults)
      else match problem
        case None => forall j :: 0 <= j < |payload| ==> EntryIsFine(rows, payload[j])
        case Some(p) => exists j :: 0 <= j < |payload| && RefusedAt(rows, payload, j, p)
  {
    if !TwoFlagged(payload) { FirstProblemAt(rows, payload); }
  }

  predicate EntryIsFine(rows: seq<Variant>, e: Entry)
  {
    match e.id
    case Absent => true
    case Malformed => false
    case Known(id) => exists i :: 0 <= i < |rows| && rows[i].id == Some(id)
  }

  predicate RefusedAt(rows: seq<Variant>, payload: seq<Entry>, j: nat, problem: Problem)
    requires j < |payload|
  {
    && (forall k :: 0 <= k < j ==> EntryIsFine(rows, payload[k])) && !EntryIsFine(rows, payload[j])
    && problem == if payload[j].id.Malformed? then BadId else NotThisItem
  }

  lemma {:induction false} FirstProblemAt(rows: seq<Variant>, payload: seq<Entry>)
    ensures
      match FirstProblem(rows, payload)
      case None => forall j :: 0 <= j < |payload| ==> EntryIsFine(rows, payload[j])
      case Some(p) => exists j :: 0 <= j < |payload| && RefusedAt(rows, payload, j, p)
  {
    if payload != [] {
      if !EntryIsFine(rows, payload[0]) {
        var p := if payload[0].id.Malformed? then BadId else NotThisItem;
        assert FirstProblem(rows, payload) == Some(p);
        assert RefusedAt(rows, payload, 0, p);
      } else {
        var rest := payload[1..];
        FirstProblemAt(rows, rest);
        assert FirstProblem(rows, payload) == FirstProblem(rows, rest);
        match FirstProblem(rows, rest)
        case None =>
          forall j | 0 <= j < |payload|
            ensures EntryIsFine(rows, payload[j])
          {
            if j > 0 { assert EntryIsFine(rows, rest[j - 1]); }
          }
        case Some(p) =>
          var j :| 0 <= j < |rest| && RefusedAt(rows, rest, j, p);
          forall k | 0 <= k < j + 1
            ensures EntryIsFine(rows, payload[k])
          {
            if k > 0 { assert EntryIsFine(rows, rest[k - 1]); }
          }
          assert RefusedAt(rows, payload, j + 1, p);
      }
    }
  }

  // --- What one row-level operation writes -------------------------------------------------

  lemma {:induction false} MaxIsLargest(rows: seq<Variant>)
    ensures forall i :: 0 <= i < |rows| ==> rows[i].sortOrder <= MaxSortOrder(rows)
    ensures rows != [] ==> exists i :: 0 <= i < |rows| && rows[i].sortOrder == MaxSortOrder(rows)
    ensures rows == [] ==> MaxSortOrder(rows) == -1
  {
    if rows != [] {
      var n := |rows| - 1;
      MaxIsLargest(rows[..n]);
      if MaxSortOrder(rows) == rows[n].sortOrder {
        assert forall i :: 0 <= i < n ==> rows[i] == rows[..n][i];
      } else {
        var i :| 0 <= i < n && rows[..n][i].sortOrder == MaxSortOrder(rows[..n]);
        assert rows[i].sortOrder == MaxSortOrder(rows);
        assert forall j :: 0 <= j < n ==> rows[j] == rows[..n][j];
      }
    }
  }

  /** A new size is one more row, last in display order unless it names a place, with
      its price to the nearest paisa; the other rows change in nothing but a flag. */
  lemma AddedRow(rows: seq<Variant>, name: string, price: real, isDefault: bool, available: bool,
                 sortOrder: Option<int>, next: nat)
    ensures
      var after := Added(rows, name, price, isDefault, available, sortOrder, next);
      && |after| == |rows| + 1
      && var v := after[|rows|];
         && v.id == Some(next) && v.name == Trim(name) && v.available == available
         && v.isDefault == (isDefault || rows == []) && -0.5 <= v.price as real - price * 100.0 <= 0.5
         && (sortOrder.Some? ==> v.sortOrder == sortOrder.value)
         && (sortOrder == None && rows == [] ==> v.sortOrder == 0)
         && (sortOrder == None && rows != [] ==>
               && (forall i :: 0 <= i < |rows| ==> rows[i].sortOrder < v.sortOrder)
               && exists i :: 0 <= i < |rows| && rows[i].sortOrder == v.sortOrder - 1)
         && forall i :: 0 <= i < |rows| ==> after[i] == rows[i].(isDefault := rows[i].isDefault && !v.isDefault)
  {
    MaxIsLargest(rows);
    RoundHalfUpIsNearest(price * 100.0);
  }

  /** An update writes the fields it names and no other; promoting the row demotes
      whichever was the default. */
  lemma UpdatedRow(rows: seq<Variant>, k: nat, f: Fields)
    requires k < |rows| && AtMostOneDefault(rows)
    ensures
      var after := Updated(rows, k, f);
      && |after| == |rows|
      && var v, was := after[k], rows[k];
         && v.id == was.id && v.name == (if f.name == None then was.name else Trim(f.name.value))
         && (f.price == None ==> v.price == was.price)
         && (f.price.Some? ==> -0.5 <= v.price as real - f.price.value * 100.0 <= 0.5)
         && v.available == (if f.available == None then was.available else f.available.value)
         && v.sortOrder == (if f.sortOrder == None then was.sortOrder else f.sortOrder.value)
         && v.isDefault == (was.isDefault || f.isDefault == Some(true))
         && forall i :: 0 <= i < |rows| && i != k ==>
              after[i] == rows[i].(isDefault := rows[i].isDefault && f.isDefault != Some(true))
  {
    if f.price.Some? { RoundHalfUpIsNearest(f.price.value * 100.0); }
  }

  /** A deletion takes out that row and keeps the rest in order, each as it was but for
      the promoted one's flag; without the default among the deleted, that too. */
  lemma DeletedRow(rows: seq<Variant>, k: nat)
    requires k < |rows|
    ensures
      var after := Deleted(rows, k);
      && |after| == |rows| - 1
      && forall i :: 0 <= i < |after| ==>
           var was := rows[if i < k then i else i + 1];
           && after[i] == was.(isDefault := after[i].isDefault)
           && (!rows[k].isDefault ==> after[i] == was)
  {
  }

  /** The default after a replace-set is a row with the name of the entry flagged, or of
      the first entry when none is. */
  lemma SyncDefaultIsFlagged(rows: seq<Variant>, payload: seq<Entry>, next: nat) returns (d: nat)
    requires DistinctIds(rows, next) && SyncProblem(rows, payload).None? && payload != []
    ensures d < |payload|
    ensures payload[d].isDefault || (d == 0 && forall j :: 0 <= j < |payload| ==> !payload[j].isDefault)
    ensures forall i :: 0 <= i < |Synced(rows, payload, next)| && Synced(rows, payload, next)[i].isDefault ==>
      Synced(rows, payload, next)[i].name == Trim(payload[d].name)
  {
    var entries := Prepared(payload);
    PreparedHasFlag(payload);
    PreparedSame(payload);
    d := DefaultNameOfFlagged(entries);
    ReplacedIsNumbered(rows, entries, next);
    var positioned := Positional(payload);
    assert forall j :: 0 <= j < |payload| ==> positioned[j].isDefault == payload[j].isDefault;
  }

  // --- Display order ----------------------------------------------------------------------

  /** When the client sets no order, a row's `sort_order` is its entry's place in
      the payload, so the display order, which sorts by it, is the payload order. */
  lemma UnorderedPayloadSetsOrder(rows: seq<Variant>, payload: seq<Entry>, next: nat, i: nat)
    requires DistinctIds(rows, next) && SyncProblem(rows, payload).None? && i < |Synced(rows, payload, next)|
    requires forall j :: 0 <= j < |payload| ==> payload[j].sortOrder == 0
    ensures
      var row := Synced(rows, payload, next)[i];
      && row.id.Some? && 0 <= row.sortOrder < |payload|
      && row.name == Trim(payload[row.sortOrder].name)
      && (row.id.value < next ==> payload[row.sortOrder].id == Known(row.id.value))
      && (row.id.value >= next ==> payload[row.sortOrder].id == Absent)
  {
    var entries := Prepared(payload);
    PreparedSame(payload);
    UnorderedIsPositional(payload);
    DefaultChangesFlagOnly(Replaced(rows, entries, next), DefaultName(entries));
    var j := RowHasEntryFor(rows, entries, next, i);
  }

  lemma UnorderedIsPositional(payload: seq<Entry>)
    requires forall j :: 0 <= j < |payload| ==> payload[j].sortOrder == 0
    ensures forall j :: 0 <= j < |payload| ==> Prepared(payload)[j].sortOrder == j
  {
  }

  /** The same, told apart by id alone: old ids come from entries that name them. */
  lemma RowHasEntryFor(rows: seq<Variant>, entries: seq<Entry>, next: nat, i: nat) returns (j: nat)
    requires DistinctIds(rows, next) && i < |Replaced(rows, entries, next)|
    ensures j < |entries| && Decides(entries, j) && WrittenBy(Replaced(rows, entries, next)[i], entries[j])
    ensures
      var id := Replaced(rows, entries, next)[i].id;
      id.Some? && entries[j].id == if id.value < next then Known(id.value) else Absent
  {
    ReplacedIsNumbered(rows, entries, next);
    j := RowHasEntry(rows, entries, next, i);
    NewIdsAreNew(rows, entries, next, i);
    KeptRowsAreRows(rows, entries, next);
  }

  /** No two rows share a place, and every place of a payload with distinct ids is
      some row's: the order is complete. */
  lemma UnorderedPayloadFillsOrder(rows: seq<Variant>, payload: seq<Entry>, next: nat, j: nat)
    requires DistinctIds(rows, next) && SyncProblem(rows, payload).None? && j < |payload|
    requires DistinctEntryIds(payload) && forall k :: 0 <= k < |payload| ==> payload[k].sortOrder == 0
    ensures exists i :: 0 <= i < |Synced(rows, payload, next)| && Synced(rows, payload, next)[i].sortOrder == j
    ensures forall a, b :: 0 <= a < b < |Synced(rows, payload, next)| ==>
      Synced(rows, payload, next)[a].sortOrder != Synced(rows, payload, next)[b].sortOrder
  {
    var entries := Prepared(payload);
    PreparedSame(payload);
    SamePayload(rows, payload);
    NoProblemMeansKnown(rows, entries);
    var replaced := Replaced(rows, entries, next);
    DefaultChangesFlagOnly(replaced, DefaultName(entries));
    assert Decides(entries, j);
    var i := EntryHasRow(rows, entries, next, j);
    assert entries[j].sortOrder == j;
    assert Synced(rows, payload, next)[i].sortOrder == j;
    forall a, b | 0 <= a < b < |replaced|
      ensures replaced[a].sortOrder != replaced[b].sortOrder
    {
      PlacesDiffer(rows, entries, next, a, b);
    }
  }

  lemma PlacesDiffer(rows: seq<Variant>, entries: seq<Entry>, next: nat, a: nat, b: nat)
    requires DistinctIds(rows, next) && a < b < |Replaced(rows, entries, next)|
    requires forall j :: 0 <= j < |entries| ==> entries[j].sortOrder == j
    ensures Replaced(rows, entries, next)[a].sortOrder != Replaced(rows, entries, next)[b].sortOrder
  {
    var j := RowHasEntry(rows, entries, next, a);
    var k := RowHasEntry(rows, entries, next, b);
    KeptRowsAreRows(rows, entries, next);
  }

  // --- Every sequence of operations -----------------------------------------------------------

  datatype Op =
    | Sync(payload: seq<Entry>)
    | Add(name: string, price: real, isDefault: bool, available: bool, sortOrder: Option<int>)
    | Update(id: nat, fields: Fields)
    | Delete(id: nat)

  /** A request: the operation, and whether the database refuses one of its flushes. */
  datatype Call = Call(op: Op, refused: bool)

  datatype Rows = Rows(rows: seq<Variant>, next: nat)

  /** The stored rows after a request; a refused or rejected one leaves them as
      they were. Ids are never given out twice. */
  function After(r: Rows, c: Call): Rows
  {
    if c.refused then r
    else match c.op
      case Sync(payload) =>
        if SyncProblem(r.rows, payload).Some? then r
        else Rows(Synced(r.rows, payload, r.next), r.next + |Synced(r.rows, payload, r.next)|)
      case Add(name, price, isDefault, available, sortOrder) =>
        if |r.rows| >= MAX_OPTIONS then r
        else Rows(Added(r.rows, name, price, isDefault, available, sortOrder, r.next), r.next + 1)
      case Update(id, fields) =>
        var k := IndexOf(r.rows, id);
        if k == |r.rows| || (fields.isDefault == Some(false) && r.rows[k].isDefault) then r
        else Rows(Updated(r.rows, k, fields), r.next)
      case Delete(id) =>
        var k := IndexOf(r.rows, id);
        if k == |r.rows| then r else Rows(Deleted(r.rows, k), r.next)
  }

  function AfterAll(r: Rows, calls: seq<Call>): Rows
    decreases calls
  {
    if calls == [] then r else AfterAll(After(r, calls[0]), calls[1..])
  }

  /** What every operation keeps. */
  predicate Tidy(r: Rows) { DistinctIds(r.rows, r.next) && AtMostOneDefault(r.rows) }

  /** Variants and no default among them. */
  predicate Lacking(rows: seq<Variant>) { rows != [] && !HasDefault(rows) }

  lemma SyncKeepsTidy(rows: seq<Variant>, payload: seq<Entry>, next: nat)
    requires DistinctIds(rows, next) && SyncProblem(rows, payload).None?
    ensures Tidy(Rows(Synced(rows, payload, next), next + |Synced(rows, payload, next)|))
  {
    var entries := Prepared(payload);
    ReplacedIsFlushable(rows, entries, next);
    ReplacedIsNumbered(rows, entries, next);
    var unnumbered := KeptAndNew(rows, entries);
    NumberedDistinct(unnumbered, next);
    NumberedKeepsRest(unnumbered, next);
    DefaultChangesFlagOnly(Replaced(rows, entries, next), DefaultName(entries));
    DefaultIsNumbered(Replaced(rows, entries, next), DefaultName(entries), next);
  }

  /** A replace-set that is accepted and overwrites its own default entry's name. */
  predicate Loses(r: Rows, c: Call)
  {
    && !c.refused && c.op.Sync? && SyncProblem(r.rows, c.op.payload).None?
    && c.op.payload != [] && !DefaultSurvives(Prepared(c.op.payload))
  }

  /** An accepted operation that gives an item without a default one again, or leaves
      it no variants. */
  predicate Restores(r: Rows, c: Call)
  {
    !c.refused && match c.op
                  case Sync(payload) =>
                    SyncProblem(r.rows, payload).None? && (payload == [] || DefaultSurvives(Prepared(payload)))
                  case Add(_, _, isDefault, _, _) => |r.rows| < MAX_OPTIONS && isDefault
                  case Update(id, fields) => IndexOf(r.rows, id) < |r.rows| && fields.isDefault == Some(true)
                  case Delete(id) => IndexOf(r.rows, id) < |r.rows| == 1
  }

  /** One operation: a default is missing afterwards if and only if it loses it, or it
      was missing and the operation does not bring it back. */
  lemma CallLacksIff(r: Rows, c: Call)
    requires Tidy(r)
    ensures Tidy(After(r, c))
    ensures Lacking(After(r, c).rows) <==> Loses(r, c) || (Lacking(r.rows) && !Restores(r, c))
  {
    if !c.refused {
      match c.op
      case Sync(payload) =>
        if SyncProblem(r.rows, payload).None? {
          SyncKeepsTidy(r.rows, payload, r.next);
          SyncHasOneDefaultIff(r.rows, payload, r.next);
        }
      case Add(name, price, isDefault, available, sortOrder) =>
        AddedHasOneDefault(r.rows, name, price, isDefault, available, sortOrder, r.next);
        AddedIsDistinct(r.rows, name, price, isDefault, available, sortOrder, r.next);
      case Update(id, fields) =>
        var k := IndexOf(r.rows, id);
        if k < |r.rows| {
          UpdatedHasOneDefault(r.rows, k, fields);
          UpdatedIsDistinct(r.rows, k, fields, r.next);
        }
      case Delete(id) =>
        var k := IndexOf(r.rows, id);
        if k < |r.rows| {
          DeletedHasOneDefault(r.rows, k);
          DeletedIsDistinct(r.rows, k, r.next);
        }
    }
  }

  lemma AddedIsDistinct(rows: seq<Variant>, name: string, price: real, isDefault: bool, available: bool,
                        sortOrder: Option<int>, next: nat)
    requires DistinctIds(rows, next)
    ensures DistinctIds(Added(rows, name, price, isDefault, available, sortOrder, next), next + 1)
  {
  }

  lemma DeletedIsDistinct(rows: seq<Variant>, k: nat, next: nat)
    requires DistinctIds(rows, next) && k < |rows|
    ensures DistinctIds(Deleted(rows, k), next)
  {
    WithoutIsDistinct(rows, k, next);
    var rest := Without(rows, k);
    assert |Deleted(rows, k)| == |rest|;
    assert forall i :: 0 <= i < |rest| ==> Deleted(rows, k)[i].id == rest[i].id;
  }

  lemma {:induction false} AfterLast(r: Rows, calls: seq<Call>)
    requires calls != []
    ensures AfterAll(r, calls) == After(AfterAll(r, calls[..|calls| - 1]), calls[|calls| - 1])
    decreases calls
  {
    var n := |calls| - 1;
    if n > 0 {
      AfterLast(After(r, calls[0]), calls[1..]);
      assert calls[..n][1..] == calls[1..][..n - 1];
    }
  }

  /** Which operations of a run lose the default. */
  function Losses(r: Rows, calls: seq<Call>): seq<bool>
  {
    seq(|calls|, i requires 0 <= i < |calls| => Loses(AfterAll(r, calls[..i]), calls[i]))
  }

  /** And which bring one back. */
  function Restorings(r: Rows, calls: seq<Call>): seq<bool>
  {
    seq(|calls|, i requires 0 <= i < |calls| => Restores(AfterAll(r, calls[..i]), calls[i]))
  }

  predicate NoneFrom(restorings: seq<bool>, from: nat)
  {
    forall j :: from <= j < |restorings| ==> !restorings[j]
  }

  /** Lost at some step, or from the start, and not brought back since. */
  predicate LostForGood(lacking: bool, losses: seq<bool>, restorings: seq<bool>)
    requires |losses| == |restorings|
  {
    || (exists i :: 0 <= i < |losses| && losses[i] && NoneFrom(restorings, i + 1))
    || (lacking && NoneFrom(restorings, 0))
  }

  lemma LostForGoodGrows(lacking: bool, losses: seq<bool>, restorings: seq<bool>, lost: bool, restored: bool)
    requires |losses| == |restorings|
    ensures LostForGood(lacking, losses + [lost], restorings + [restored]) <==>
      lost || (LostForGood(lacking, losses, restorings) && !restored)
  {
    var n, more := |losses|, restorings + [restored];
    forall from: nat | from <= n
      ensures NoneFrom(more, from) <==> NoneFrom(restorings, from) && !restored
    {
      if NoneFrom(more, from) {
        assert !more[n];
        assert forall j :: from <= j < n ==> restorings[j] == more[j];
      }
    }
    if lost { assert (losses + [lost])[n] && NoneFrom(more, n + 1); }
    forall i | 0 <= i < n
      ensures (losses + [lost])[i] == losses[i]
    {
    }
  }

  lemma StepsGrow(r: Rows, calls: seq<Call>)
    requires calls != []
    ensures
      var n := |calls| - 1;
      var before := AfterAll(r, calls[..n]);
      && Losses(r, calls) == Losses(r, calls[..n]) + [Loses(before, calls[n])]
      && Restorings(r, calls) == Restorings(r, calls[..n]) + [Restores(before, calls[n])]
  {
    var n := |calls| - 1;
    forall i | 0 <= i < n
      ensures calls[..n][..i] == calls[..i]
    {
    }
  }

  /** Over every sequence of operations, on any item: ids stay distinct, no two
      variants are the default, and the default is missing at the end if and only if
      some replace-set lost it, or it was missing at first, and nothing since brought
      it back. */
  lemma {:induction false} LacksDefaultIff(r: Rows, calls: seq<Call>)
    requires Tidy(r)
    ensures Tidy(AfterAll(r, calls))
    ensures Lacking(AfterAll(r, calls).rows) <==> LostForGood(Lacking(r.rows), Losses(r, calls), Restorings(r, calls))
    decreases |calls|
  {
    if calls != [] {
      var n := |calls| - 1;
      var before := AfterAll(r, calls[..n]);
      LacksDefaultIff(r, calls[..n]);
      AfterLast(r, calls);
      CallLacksIff(before, calls[n]);
      StepsGrow(r, calls);
      LostForGoodGrows(Lacking(r.rows), Losses(r, calls[..n]), Restorings(r, calls[..n]),
                       Loses(before, calls[n]), Restores(before, calls[n]));
    }
  }

  /** So across every sequence in which each replace-set keeps its default entry's
      name, an item with variants always has exactly one default. */
  lemma AlwaysOneDefault(r: Rows, calls: seq<Call>)
    requires DistinctIds(r.rows, r.next) && OneDefault(r.rows)
    requires forall c :: c in calls && c.op.Sync? && c.op.payload != [] ==> DefaultSurvives(Prepared(c.op.payload))
    ensures DistinctIds(AfterAll(r, calls).rows, AfterAll(r, calls).next) && OneDefault(AfterAll(r, calls).rows)
  {
    LacksDefaultIff(r, calls);
    forall i | 0 <= i < |calls|
      ensures !Losses(r, calls)[i]
    {
      assert calls[i] in calls;
    }
  }
}
