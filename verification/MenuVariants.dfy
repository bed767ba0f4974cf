/**
 The sizes of a menu item: the replace-set of an item edit and the row-level
 endpoints beside it (app/services/menu_service.py).
 */
module MenuVariants {
  import opened Options
  import opened Text
  import opened Money

  const MAX_OPTIONS: nat := 50

  /** A row of `item_variants`; an id is assigned when a new row is first flushed. */
  datatype Variant = Variant(id: Option<nat>, name: string, price: int, isDefault: bool, available: bool,
                             sortOrder: int)

  datatype EntryId = Absent | Malformed | Known(id: nat)

  /** One entry of a payload. */
  datatype Entry = Entry(id: EntryId, name: string, price: real, isDefault: bool, available: bool, sortOrder: int)

  /** The fields an update names; None for a field it leaves out. */
  datatype Fields = Fields(
    name: Option<string>, price: Option<real>, available: Option<bool>, sortOrder: Option<int>, isDefault: Option<bool>)

  datatype Problem = TwoDefaults | BadId | NotThisItem | TooMany | NotFound | CannotUndefault | Conflict

  // --- What the index and the service ask of an item's rows ------------------------

  /** `uq_item_variants_one_default`: what every flush must satisfy. */
  predicate AtMostOneDefault(rows: seq<Variant>)
  {
    forall i, j :: 0 <= i < j < |rows| ==> !(rows[i].isDefault && rows[j].isDefault)
  }

  predicate HasDefault(rows: seq<Variant>)
  {
    exists i :: 0 <= i < |rows| && rows[i].isDefault
  }

  /** An item with variants has exactly one default. */
  predicate OneDefault(rows: seq<Variant>)
  {
    AtMostOneDefault(rows) && (rows != [] ==> HasDefault(rows))
  }

  predicate DistinctIds(rows: seq<Variant>, next: nat)
  {
    && (forall i :: 0 <= i < |rows| ==> rows[i].id.Some? && rows[i].id.value < next)
    && (forall i, j :: 0 <= i < j < |rows| ==> rows[i].id != rows[j].id)
  }

  predicate DistinctNames(rows: seq<Variant>)
  {
    forall i, j :: 0 <= i < j < |rows| ==> rows[i].name != rows[j].name
  }

  function Cleared(rows: seq<Variant>): seq<Variant>
  {
    seq(|rows|, i requires 0 <= i < |rows| => rows[i].(isDefault := false))
  }

  /** Ids for the rows that have none, in order from `next`. */
  function Numbered(rows: seq<Variant>, next: nat): seq<Variant>
  {
    if rows == [] then []
    else if rows[0].id.None? then [rows[0].(id := Some(next))] + Numbered(rows[1..], next + 1)
    else [rows[0]] + Numbered(rows[1..], next)
  }

  function IndexOf(rows: seq<Variant>, id: nat): (k: nat)
    ensures k <= |rows|
    ensures k < |rows| ==> rows[k].id == Some(id)
    ensures forall i :: 0 <= i < k ==> rows[i].id != Some(id)
  {
    if rows == [] || rows[0].id == Some(id) then 0 else 1 + IndexOf(rows[1..], id)
  }

  function IndexOfName(rows: seq<Variant>, name: string): (k: nat)
    ensures k <= |rows|
    ensures k < |rows| ==> rows[k].name == name
    ensures forall i :: 0 <= i < k ==> rows[i].name != name
  {
    if rows == [] || rows[0].name == name then 0 else 1 + IndexOfName(rows[1..], name)
  }

  // --- The payload of a replace-set -------------------------------------------------

  /** `_apply_positional_order`. */
  function Positional(payload: seq<Entry>): seq<Entry>
  {
    if forall i :: 0 <= i < |payload| ==> payload[i].sortOrder == 0 then
      seq(|payload|, i requires 0 <= i < |payload| => payload[i].(sortOrder := i))
    else payload
  }

  predicate TwoFlagged(payload: seq<Entry>)
  {
    exists i, j :: 0 <= i < j < |payload| && payload[i].isDefault && payload[j].isDefault
  }

  predicate NoneFlagged(payload: seq<Entry>)
  {
    forall i :: 0 <= i < |payload| ==> !payload[i].isDefault
  }

  /** `_resolve_default`, where it does not raise: the first is promoted when none
      is flagged. */
  function WithDefault(payload: seq<Entry>): seq<Entry>
  {
    if payload != [] && NoneFlagged(payload) then payload[0 := payload[0].(isDefault := true)] else payload
  }

  function Prepared(payload: seq<Entry>): seq<Entry> { WithDefault(Positional(payload)) }

  function Overwritten(v: Variant, e: Entry): Variant
  {
    v.(name := Trim(e.name), price := ToMinor(e.price), available := e.available, sortOrder := e.sortOrder)
  }

  function NewRow(e: Entry): Variant
  {
    Variant(None, Trim(e.name), ToMinor(e.price), false, e.available, e.sortOrder)
  }

  /** An existing row after the payload's entries: the last that names its id wins. */
  function AfterEntries(v: Variant, entries: seq<Entry>): Variant
  {
    if entries == [] then v
    else
      var last := entries[|entries| - 1];
      if last.id.Known? && v.id == Some(last.id.id) then Overwritten(v, last)
      else AfterEntries(v, entries[..|entries| - 1])
  }

  function AllAfter(rows: seq<Variant>, entries: seq<Entry>): seq<Variant>
  {
    seq(|rows|, i requires 0 <= i < |rows| => AfterEntries(rows[i], entries))
  }

  function NewRows(entries: seq<Entry>): seq<Variant>
  {
    if entries == [] then []
    else
      var last := entries[|entries| - 1];
      NewRows(entries[..|entries| - 1]) + if last.id.Absent? then [NewRow(last)] else []
  }

  predicate Mentions(entries: seq<Entry>, id: Option<nat>)
  {
    exists i :: 0 <= i < |entries| && entries[i].id.Known? && id == Some(entries[i].id.id)
  }

  /** The rows the payload keeps, in their old order. */
  function KeptRows(rows: seq<Variant>, entries: seq<Entry>): seq<Variant>
  {
    if rows == [] then []
    else
      var n := |rows| - 1;
      KeptRows(rows[..n], entries) + if Mentions(entries, rows[n].id) then [rows[n]] else []
  }

  /** The first entry the loop refuses, if any. */
  function FirstProblem(rows: seq<Variant>, entries: seq<Entry>): Option<Problem>
  {
    if entries == [] then None
    else if entries[0].id.Malformed? then Some(BadId)
    else if entries[0].id.Known? && IndexOf(rows, entries[0].id.id) == |rows| then Some(NotThisItem)
    else FirstProblem(rows, entries[1..])
  }

  function SyncProblem(rows: seq<Variant>, payload: seq<Entry>): Option<Problem>
  {
    if TwoFlagged(payload) then Some(TwoDefaults) else FirstProblem(rows, payload)
  }

  /** The collection at the first flush: the kept rows as the payload writes them,
      then the new ones, no flag set. */
  function KeptAndNew(rows: seq<Variant>, entries: seq<Entry>): seq<Variant>
  {
    Cleared(AllAfter(KeptRows(rows, entries), entries) + NewRows(entries))
  }

  /** What that flush leaves. */
  function Replaced(rows: seq<Variant>, entries: seq<Entry>, next: nat): seq<Variant>
  {
    Numbered(KeptAndNew(rows, entries), next)
  }

  function DefaultName(entries: seq<Entry>): Option<string>
  {
    if entries == [] then None
    else if entries[0].isDefault then Some(Trim(entries[0].name))
    else DefaultName(entries[1..])
  }

  function WithDefaultNamed(rows: seq<Variant>, name: Option<string>): seq<Variant>
  {
    if name.None? || IndexOfName(rows, name.value) == |rows| then rows
    else var k := IndexOfName(rows, name.value); rows[k := rows[k].(isDefault := true)]
  }

  /** The whole replace-set. */
  function Synced(rows: seq<Variant>, payload: seq<Entry>, next: nat): seq<Variant>
  {
    var entries := Prepared(payload);
    WithDefaultNamed(Replaced(rows, entries, next), DefaultName(entries))
  }

  // --- The row-level endpoints -----------------------------------------------------------

  function NextSortOrder(rows: seq<Variant>): int
  {
    MaxSortOrder(rows) + 1
  }

  function MaxSortOrder(rows: seq<Variant>): int
  {
    if rows == [] then -1
    else if |rows| == 1 || rows[|rows| - 1].sortOrder > MaxSortOrder(rows[..|rows| - 1]) then rows[|rows| - 1].sortOrder
    else MaxSortOrder(rows[..|rows| - 1])
  }

  function Added(rows: seq<Variant>, name: string, price: real, isDefault: bool, available: bool,
                 sortOrder: Option<int>, next: nat): seq<Variant>
  {
    var makeDefault := isDefault || rows == [];
    (if makeDefault then Cleared(rows) else rows)
    + [Variant(Some(next), Trim(name), ToMinor(price), makeDefault, available,
               if sortOrder.Some? then sortOrder.value else NextSortOrder(rows))]
  }

  function Edited(v: Variant, f: Fields): Variant
  {
    v.(name := if f.name.Some? then Trim(f.name.value) else v.name,
       price := if f.price.Some? then ToMinor(f.price.value) else v.price,
       available := if f.available.Some? then f.available.value else v.available,
       sortOrder := if f.sortOrder.Some? then f.sortOrder.value else v.sortOrder)
  }

  function Updated(rows: seq<Variant>, k: nat, f: Fields): seq<Variant>
    requires k < |rows|
  {
    var edited := rows[k := Edited(rows[k], f)];
    if f.isDefault == Some(true) && !rows[k].isDefault then Cleared(edited)[k := Edited(rows[k], f).(isDefault := true)]
    else edited
  }

  /** The key `(sort_order, name)` that rows are displayed by. */
  predicate ShownBefore(a: Variant, b: Variant)
  {
    a.sortOrder < b.sortOrder || (a.sortOrder == b.sortOrder && Less(a.name, b.name))
  }

  /** `sorted(rows, key=...)[0]`. */
  function FirstShown(rows: seq<Variant>): (k: nat)
    requires rows != []
    ensures k < |rows|
  {
    if |rows| == 1 then 0
    else
      var n := |rows| - 1;
      var k := FirstShown(rows[..n]);
      if ShownBefore(rows[n], rows[k]) then n else k
  }

  function Without(rows: seq<Variant>, k: nat): seq<Variant>
    requires k < |rows|
  {
    rows[..k] + rows[k + 1..]
  }

  function Deleted(rows: seq<Variant>, k: nat): seq<Variant>
    requires k < |rows|
  {
    var rest := Without(rows, k);
    if rows[k].isDefault && rest != [] then
      var p := FirstShown(rest);
      rest[p := rest[p].(isDefault := true)]
    else rest
  }
}
