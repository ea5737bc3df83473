/** The price list and the lifecycle of its items: the back-reference repair
    run after a list is saved and the cascade run after lists are deleted. */
module PriceLists {
  import opened Common
  import opened Dates
  import opened PriceListItems
  import opened ItemStorage

  /** Longest name the price list's required `name` field accepts. */
  const ListNameMaxLength: nat := 50
  /** Default of the price list's `weight` field. */
  const DefaultListWeight: int := 0

  /** What validation reports about a price list's `name`. */
  datatype ListViolation = ListNameMissing | ListNameTooLong

  /** The constraint violations of a list name: the field is required, so
      the empty string counts as missing, and it holds at most 50
      characters. */
  function ListViolations(name: string): (v: set<ListViolation>)
    ensures v == {} <==> 1 <= |name| <= ListNameMaxLength
    ensures ListNameMissing in v <==> name == ""
  {
    (if name == "" then {ListNameMissing} else {})
    + (if |name| > ListNameMaxLength then {ListNameTooLong} else {})
  }

  /** One entry of the `field_price_list_item` reference field. */
  datatype ItemReference = ItemReference(targetId: ItemId)

  /** What the storage reports about a save. */
  datatype SaveStatus = SavedNew | SavedUpdated

  /** The target ids of the reference entries: one per entry, in field
      order, duplicates kept. */
  function TargetIds(refs: seq<ItemReference>): (ids: seq<ItemId>)
    ensures |ids| == |refs|
    ensures forall i | 0 <= i < |refs| :: ids[i] == refs[i].targetId
    decreases |refs|
  {
    if refs == [] then [] else TargetIds(refs[..|refs| - 1]) + [refs[|refs| - 1].targetId]
  }

  /** The stored items of the given ids, in the same order; an id with no
      stored row contributes nothing. */
  function ResolveItems(t: Table, ids: seq<ItemId>): (r: seq<ItemRecord>)
    ensures |r| <= |ids|
    ensures forall x | x in r :: x in t.Values
    ensures AllStored(t, ids) ==> |r| == |ids| && forall i | 0 <= i < |ids| :: r[i] == t[ids[i]]
    decreases |ids|
  {
    if ids == [] then []
    else
      var p, k := ResolveItems(t, ids[..|ids| - 1]), ids[|ids| - 1];
      if k in t then p + [t[k]] else p
  }

  /** The ids that have a stored row, in their original order. */
  function StoredIds(t: Table, ids: seq<ItemId>): (s: seq<ItemId>)
    ensures forall i | 0 <= i < |s| :: s[i] in t
    decreases |ids|
  {
    if ids == [] then []
    else (if ids[0] in t then [ids[0]] else []) + StoredIds(t, ids[1..])
  }

  /** An id survives the filter exactly when it is listed and stored. */
  lemma {:induction false} StoredIdsMembers(t: Table, ids: seq<ItemId>, x: ItemId)
    ensures x in StoredIds(t, ids) <==> x in ids && x in t
    decreases |ids|
  {
    if ids != [] {
      StoredIdsMembers(t, ids[1..], x);
      assert x in ids <==> x == ids[0] || x in ids[1..];
    }
  }

  /** Filtering a list extended by one id extends the filtered list by that
      id when it is stored. */
  lemma {:induction false} StoredIdsAppend(t: Table, ids: seq<ItemId>, k: ItemId)
    ensures StoredIds(t, ids + [k]) == StoredIds(t, ids) + (if k in t then [k] else [])
    decreases |ids|
  {
    if ids == [] {
      assert [k][1..] == [];
    } else {
      assert (ids + [k])[1..] == ids[1..] + [k];
      StoredIdsAppend(t, ids[1..], k);
    }
  }

  /** `getItems` returns the stored items of the referenced ids that have a
      row, one per such id and in reference order. */
  lemma {:induction false} ResolveItemsInOrder(t: Table, ids: seq<ItemId>)
    ensures var r, s := ResolveItems(t, ids), StoredIds(t, ids);
      |r| == |s| && forall i | 0 <= i < |s| :: r[i] == t[s[i]]
    decreases |ids|
  {
    if ids != [] {
      var p, k := ids[..|ids| - 1], ids[|ids| - 1];
      assert ids == p + [k];
      ResolveItemsInOrder(t, p);
      StoredIdsAppend(t, p, k);
    }
  }

  predicate AllStored(t: Table, ids: seq<ItemId>) {
    forall i | 0 <= i < |ids| :: ids[i] in t
  }

  predicate NoDuplicates(s: seq<ItemId>) {
    forall i, j | 0 <= i < j < |s| :: s[i] != s[j]
  }

  // ---------------------------------------------------------------------
  // Back-reference repair after save

  /** One pass of the repair loop over the item `k`: an item whose
      back-reference is empty gets the list's id and is saved; any other
      item is left alone. */
  function LinkStep(e: Effect, lid: ListId, k: ItemId): Effect
    requires k in e.items
  {
    if e.items[k].priceListId.None? then
      Effect(e.items[k := e.items[k].(priceListId := Some(lid))], e.saved + [k])
    else e
  }

  /** The repair loop run over `ids` in order, starting from table `t`. */
  function Repair(t: Table, lid: ListId, ids: seq<ItemId>): (r: Effect)
    requires AllStored(t, ids)
    ensures r.items.Keys == t.Keys
    decreases |ids|
  {
    if ids == [] then Effect(t, [])
    else LinkStep(Repair(t, lid, ids[..|ids| - 1]), lid, ids[|ids| - 1])
  }

  /** Repairing one more id of the list is one more link step. */
  lemma RepairPrefix(t: Table, lid: ListId, ids: seq<ItemId>, i: nat)
    requires AllStored(t, ids) && i < |ids|
    ensures AllStored(t, ids[..i]) && AllStored(t, ids[..i + 1])
    ensures ids[i] in Repair(t, lid, ids[..i]).items
    ensures Repair(t, lid, ids[..i + 1]) == LinkStep(Repair(t, lid, ids[..i]), lid, ids[i])
  {
    assert ids[..i + 1][..i] == ids[..i];
  }

  /** What the repair does to any one stored item: a listed item whose
      back-reference was empty now carries the list's id and nothing else
      of it changed; every other item is exactly as before. */
  lemma {:induction false} RepairAt(t: Table, lid: ListId, ids: seq<ItemId>, k: ItemId)
    requires AllStored(t, ids) && k in t
    ensures Repair(t, lid, ids).items[k] ==
      if k in ids && t[k].priceListId.None? then t[k].(priceListId := Some(lid)) else t[k]
    decreases |ids|
  {
    if ids != [] {
      var p := ids[..|ids| - 1];
      assert ids == p + [ids[|ids| - 1]];
      RepairAt(t, lid, p, k);
    }
  }

  /** The repair saves exactly the listed items whose back-reference was
      empty, each once, however often the list names them. */
  lemma {:induction false} RepairSaved(t: Table, lid: ListId, ids: seq<ItemId>)
    requires AllStored(t, ids)
    ensures forall k :: k in Repair(t, lid, ids).saved <==> k in ids && k in t && t[k].priceListId.None?
    ensures NoDuplicates(Repair(t, lid, ids).saved)
    decreases |ids|
  {
    if ids != [] {
      var p, x := ids[..|ids| - 1], ids[|ids| - 1];
      assert ids == p + [x];
      RepairSaved(t, lid, p);
      RepairAt(t, lid, p, x);
    }
  }

  /** Repair completeness: a listed item with an empty back-reference ends up
      pointing at the list and has been saved. */
  lemma RepairLinksUnlinkedItems(t: Table, lid: ListId, ids: seq<ItemId>, k: ItemId)
    requires AllStored(t, ids) && k in ids && k in t && t[k].priceListId.None?
    ensures Repair(t, lid, ids).items[k] == t[k].(priceListId := Some(lid))
    ensures k in Repair(t, lid, ids).saved
  {
    RepairAt(t, lid, ids, k);
    RepairSaved(t, lid, ids);
  }

  /** A listed item that already has a back-reference, even to another list,
      is neither changed nor saved. */
  lemma RepairKeepsExistingLinks(t: Table, lid: ListId, ids: seq<ItemId>, k: ItemId)
    requires AllStored(t, ids) && k in t && t[k].priceListId.Some?
    ensures Repair(t, lid, ids).items[k] == t[k]
    ensures k !in Repair(t, lid, ids).saved
  {
    RepairAt(t, lid, ids, k);
    RepairSaved(t, lid, ids);
  }

  /** An item the list does not name, such as one removed from it, keeps
      its old back-reference and is not saved. */
  lemma RepairIgnoresUnlistedItems(t: Table, lid: ListId, ids: seq<ItemId>, k: ItemId)
    requires AllStored(t, ids) && k in t && k !in ids
    ensures Repair(t, lid, ids).items[k] == t[k]
    ensures k !in Repair(t, lid, ids).saved
  {
    RepairAt(t, lid, ids, k);
    RepairSaved(t, lid, ids);
  }

  /** When every listed item already has a back-reference the repair saves
      nothing and changes nothing. */
  lemma {:induction false} RepairLeavesLinkedListAlone(t: Table, lid: ListId, ids: seq<ItemId>)
    requires AllStored(t, ids)
    requires forall i | 0 <= i < |ids| :: t[ids[i]].priceListId.Some?
    ensures Repair(t, lid, ids) == Effect(t, [])
    decreases |ids|
  {
    if ids != [] {
      RepairLeavesLinkedListAlone(t, lid, ids[..|ids| - 1]);
    }
  }

  /** Repair is idempotent: a second run on the same list saves nothing and
      leaves the table as the first run left it. */
  lemma RepairIdempotent(t: Table, lid: ListId, ids: seq<ItemId>)
    requires AllStored(t, ids)
    ensures AllStored(Repair(t, lid, ids).items, ids)
    ensures Repair(Repair(t, lid, ids).items, lid, ids) == Effect(Repair(t, lid, ids).items, [])
  {
    var r := Repair(t, lid, ids).items;
    forall i | 0 <= i < |ids|
      ensures ids[i] in r && r[ids[i]].priceListId.Some?
    {
      RepairAt(t, lid, ids, ids[i]);
    }
    RepairLeavesLinkedListAlone(r, lid, ids);
  }

  /** The relationship invariant: when no listed item points at another
      list, after the repair every listed item points at this one. */
  lemma RepairEstablishesBackReferences(t: Table, lid: ListId, ids: seq<ItemId>)
    requires AllStored(t, ids)
    requires forall i | 0 <= i < |ids| :: t[ids[i]].priceListId == None || t[ids[i]].priceListId == Some(lid)
    ensures forall i | 0 <= i < |ids| :: Repair(t, lid, ids).items[ids[i]].priceListId == Some(lid)
  {
    forall i | 0 <= i < |ids|
      ensures Repair(t, lid, ids).items[ids[i]].priceListId == Some(lid)
    {
      RepairAt(t, lid, ids, ids[i]);
    }
  }

  // ---------------------------------------------------------------------
  // Cascade delete

  function Elems(s: seq<ItemId>): set<ItemId> {
    set x | x in s
  }

  /** The ids collected across the deleted lists, accumulated list by list;
      an id named several times is collected once. */
  function AllTargets(lists: seq<seq<ItemId>>): set<ItemId>
    decreases |lists|
  {
    if lists == [] then {} else AllTargets(lists[..|lists| - 1]) + Elems(lists[|lists| - 1])
  }

  /** An id is collected exactly when some deleted list references it. */
  lemma {:induction false} AllTargetsMembers(lists: seq<seq<ItemId>>, k: ItemId)
    ensures k in AllTargets(lists) <==> exists j | 0 <= j < |lists| :: k in lists[j]
    decreases |lists|
  {
    if lists != [] {
      var n := |lists| - 1;
      var p := lists[..n];
      AllTargetsMembers(p, k);
      if k in AllTargets(lists) && k in AllTargets(p) {
        var j :| 0 <= j < |p| && k in p[j];
        assert k in lists[j];
      }
      if exists j | 0 <= j < |lists| :: k in lists[j] {
        var j :| 0 <= j < |lists| && k in lists[j];
        if j < n {
          assert k in p[j];
        }
      }
    }
  }

  /** Extending a batch by one list adds that list's targets. */
  lemma AllTargetsPrefix(lists: seq<seq<ItemId>>, j: nat)
    requires j < |lists|
    ensures AllTargets(lists[..j + 1]) == AllTargets(lists[..j]) + Elems(lists[j])
  {
    assert lists[..j + 1][..j] == lists[..j];
  }

  /** Cascade totality: after the cascade no referenced item remains, and
      every item no deleted list references is still there, unchanged. */
  lemma CascadeRemovesExactlyReferencedItems(t: Table, lists: seq<seq<ItemId>>, k: ItemId)
    ensures k in t - AllTargets(lists) <==> k in t && forall j | 0 <= j < |lists| :: k !in lists[j]
    ensures k in t - AllTargets(lists) ==> (t - AllTargets(lists))[k] == t[k]
  {
    AllTargetsMembers(lists, k);
  }

  /** A batch whose lists reference nothing deletes nothing. */
  lemma CascadeOfEmptyListsIsNoOp(t: Table, lists: seq<seq<ItemId>>)
    requires forall j | 0 <= j < |lists| :: lists[j] == []
    ensures t - AllTargets(lists) == t
  {
    forall k | k in t
      ensures k !in AllTargets(lists)
    {
      AllTargetsMembers(lists, k);
    }
  }

  /** What the delete hook passes to storage when it keeps, per referenced
      id, the entity loaded for it: nothing stands for a load that found no
      row. Later entries overwrite earlier ones with the same id. */
  function CollectLoaded(t: Table, c: map<ItemId, Option<ItemRecord>>, ids: seq<ItemId>): (r: map<ItemId, Option<ItemRecord>>)
    decreases |ids|
  {
    if ids == [] then c
    else
      var k := ids[|ids| - 1];
      CollectLoaded(t, c, ids[..|ids| - 1])[k := if k in t then Some(t[k]) else None]
  }

  datatype DeleteFailure = NothingLoadedForReference

  /** The delete hook as written: per list with references, the loaded
      entities are added to one cumulative array, and storage delete is
      called with the whole array; the delete fails on an entry for which
      nothing was loaded. */
  function PostDeleteAsWritten(t: Table, c: map<ItemId, Option<ItemRecord>>, lists: seq<seq<ItemId>>): (r: Result<Table, DeleteFailure>)
    ensures r.Ok? ==> forall k | k in r.value :: k in t && r.value[k] == t[k]
    decreases |lists|
  {
    if lists == [] then Ok(t)
    else if lists[0] == [] then PostDeleteAsWritten(t, c, lists[1..])
    else
      var c' := CollectLoaded(t, c, lists[0]);
      if exists k | k in c' :: c'[k].None? then Err(NothingLoadedForReference)
      else PostDeleteAsWritten(t - c'.Keys, c', lists[1..])
  }

  /** Two lists deleted together that share an item: the second list loads
      the item after the first delete removed it, so the hook as written
      hands storage an entry with no entity, while the intended cascade
      simply removes the item. */
  lemma SharedItemBreaksAsWrittenCascade(r: ItemRecord)
    ensures PostDeleteAsWritten(map[1 := r], map[], [[1], [1]]).Err?
    ensures map[1 := r] - AllTargets([[1], [1]]) == map[]
  {
    var t: Table := map[1 := r];
    var c1 := CollectLoaded(t, map[], [1]);
    assert c1 == map[1 := Some(r)];
    var t1 := t - c1.Keys;
    assert 1 !in t1;
    var c2 := CollectLoaded(t1, c1, [1]);
    assert c2[1] == None;
    assert [[1], [1]][1..] == [[1]];
    assert PostDeleteAsWritten(t1, c1, [[1]]).Err?;
    assert 1 in AllTargets([[1], [1]]);
  }

  /** The entity array after collecting `ids`: every collected id maps to
      the entity loaded for it, earlier entries being kept. */
  lemma {:induction false} CollectLoadedAt(t: Table, c: map<ItemId, Option<ItemRecord>>, ids: seq<ItemId>)
    requires forall i | 0 <= i < |ids| :: ids[i] in t
    ensures CollectLoaded(t, c, ids).Keys == c.Keys + Elems(ids)
    ensures forall k | k in Elems(ids) :: CollectLoaded(t, c, ids)[k] == Some(t[k])
    ensures forall k | k in c && k !in Elems(ids) :: CollectLoaded(t, c, ids)[k] == c[k]
    decreases |ids|
  {
    if ids != [] {
      var p := ids[..|ids| - 1];
      assert ids == p + [ids[|ids| - 1]];
      CollectLoadedAt(t, c, p);
    }
  }

  /** The targets of a batch are those of its first list and those of the
      rest. */
  lemma AllTargetsFront(lists: seq<seq<ItemId>>)
    requires lists != []
    ensures AllTargets(lists) == Elems(lists[0]) + AllTargets(lists[1..])
  {
    var rest := lists[1..];
    forall k
      ensures k in AllTargets(lists) <==> k in Elems(lists[0]) + AllTargets(rest)
    {
      AllTargetsMembers(lists, k);
      AllTargetsMembers(rest, k);
      if k in AllTargets(lists) {
        var j :| 0 <= j < |lists| && k in lists[j];
        if j > 0 {
          assert k in rest[j - 1];
        }
      }
      if k in AllTargets(rest) {
        var j :| 0 <= j < |rest| && k in rest[j];
        assert k in lists[j + 1];
      }
    }
  }

  /** In a batch of disjoint lists whose references are all stored, the
      references of the later lists survive the deletion of the first
      list's items. */
  lemma LaterListsSurviveFirst(t: Table, lists: seq<seq<ItemId>>)
    requires lists != []
    requires forall j, i | 0 <= j < |lists| && 0 <= i < |lists[j]| :: lists[j][i] in t
    requires forall j1, j2, k | 0 <= j1 < j2 < |lists| && k in lists[j1] :: k !in lists[j2]
    ensures forall j, i | 0 <= j < |lists| - 1 && 0 <= i < |lists[1..][j]| :: lists[1..][j][i] in t - Elems(lists[0])
  {
    var rest := lists[1..];
    forall j, i | 0 <= j < |rest| && 0 <= i < |rest[j]|
      ensures rest[j][i] in t - Elems(lists[0])
    {
      assert rest[j] == lists[j + 1];
      assert rest[j][i] !in lists[0];
    }
  }

  /** A batch whose first list references nothing: the hook as written
      moves on to the rest, and the first list adds no target. */
  lemma AsWrittenSkipsEmptyFirst(t: Table, c: map<ItemId, Option<ItemRecord>>, lists: seq<seq<ItemId>>)
    requires lists != [] && lists[0] == []
    ensures PostDeleteAsWritten(t, c, lists) == PostDeleteAsWritten(t, c, lists[1..])
    ensures AllTargets(lists) == AllTargets(lists[1..])
  {
    AllTargetsFront(lists);
    assert Elems(lists[0]) == {};
  }

  /** A batch whose first list has references that are all stored: the
      hook as written deletes that list's items and carries on with the
      rest and the grown entity array, every entry of which holds an entity
      none of the remaining rows has. */
  lemma AsWrittenFirstStep(t: Table, c: map<ItemId, Option<ItemRecord>>, lists: seq<seq<ItemId>>)
    requires lists != [] && lists[0] != []
    requires forall i | 0 <= i < |lists[0]| :: lists[0][i] in t
    requires forall k | k in c :: c[k].Some? && k !in t
    ensures var c' := CollectLoaded(t, c, lists[0]);
      && PostDeleteAsWritten(t, c, lists) == PostDeleteAsWritten(t - Elems(lists[0]), c', lists[1..])
      && forall k | k in c' :: c'[k].Some? && k !in t - Elems(lists[0])
  {
    var c' := CollectLoaded(t, c, lists[0]);
    CollectLoadedAt(t, c, lists[0]);
    assert !exists k | k in c' :: c'[k].None?;
    assert t - c'.Keys == t - Elems(lists[0]);
  }

  /** The lists after the first of a disjoint batch are disjoint too. */
  lemma DisjointRest(lists: seq<seq<ItemId>>)
    requires lists != []
    requires forall j1, j2, k | 0 <= j1 < j2 < |lists| && k in lists[j1] :: k !in lists[j2]
    ensures forall j1, j2, k | 0 <= j1 < j2 < |lists| - 1 && k in lists[1..][j1] :: k !in lists[1..][j2]
  {
    var rest := lists[1..];
    forall j1, j2, k | 0 <= j1 < j2 < |rest| && k in rest[j1]
      ensures k !in rest[j2]
    {
      assert rest[j1] == lists[j1 + 1] && rest[j2] == lists[j2 + 1];
    }
  }

  /** When the lists of a batch share no item and every reference has a
      stored row, the hook as written does what the corrected cascade does. */
  lemma {:induction false} AsWrittenAgreesOnDisjointLists(t: Table, c: map<ItemId, Option<ItemRecord>>, lists: seq<seq<ItemId>>)
    requires forall k | k in c :: c[k].Some? && k !in t
    requires forall j, i | 0 <= j < |lists| && 0 <= i < |lists[j]| :: lists[j][i] in t
    requires forall j1, j2, k | 0 <= j1 < j2 < |lists| && k in lists[j1] :: k !in lists[j2]
    ensures PostDeleteAsWritten(t, c, lists) == Ok(t - AllTargets(lists))
    decreases |lists|
  {
    if lists == [] {
      assert AllTargets(lists) == {};
      assert t - AllTargets(lists) == t;
    } else {
      var rest := lists[1..];
      DisjointRest(lists);
      if lists[0] == [] {
        AsWrittenSkipsEmptyFirst(t, c, lists);
        assert forall j | 0 <= j < |rest| :: rest[j] == lists[j + 1];
        AsWrittenAgreesOnDisjointLists(t, c, rest);
      } else {
        AsWrittenFirstStep(t, c, lists);
        LaterListsSurviveFirst(t, lists);
        AsWrittenAgreesOnDisjointLists(t - Elems(lists[0]), CollectLoaded(t, c, lists[0]), rest);
        AllTargetsFront(lists);
        assert (t - Elems(lists[0])) - AllTargets(rest) == t - AllTargets(lists);
      }
    }
  }

  // ---------------------------------------------------------------------
  // The price list entity

  class PriceList {
    /** None until the first save assigns an id. */
    var id: Option<ListId>
    var name: string
    var ownerId: UserId
    /** The stored `Y-m-d` text of `start_date`, None while the field is empty. */
    var startDate: Option<string>
    /** The stored `Y-m-d` text of `end_date`, None for an open-ended list. */
    var endDate: Option<string>
    var weight: int
    var published: bool
    /** The `field_price_list_item` entries, in field order. */
    var itemRefs: seq<ItemReference>

    /** A new, unsaved price list owned by `owner`, the acting user. */
    constructor (owner: UserId)
      ensures id == None && name == "" && ownerId == owner
      ensures startDate == None && endDate == None
      ensures weight == DefaultListWeight && published && itemRefs == []
    {
      id, name, ownerId := None, "", owner;
      startDate, endDate := None, None;
      weight, published, itemRefs := DefaultListWeight, true, [];
    }

    function GetName(): string
      reads this
    {
      name
    }

    method SetName(n: string)
      modifies this`name
      ensures GetName() == n
    {
      name := n;
    }

    function GetOwnerId(): UserId
      reads this
    {
      ownerId
    }

    method SetOwnerId(uid: UserId)
      modifies this`ownerId
      ensures GetOwnerId() == uid
    {
      ownerId := uid;
    }

    /** Stores the account's id as the owner. */
    method SetOwner(account: UserAccount)
      modifies this`ownerId
      ensures GetOwnerId() == account.uid
    {
      ownerId := account.uid;
    }

    /** The start date read back from its stored text. */
    function GetStartDate(): Option<CalendarDateTime>
      reads this
    {
      match startDate
      case None => None
      case Some(s) => ParseYmd(s)
    }

    /** Stores the calendar day of `d`; reading it back gives that day. */
    method SetStartDate(d: CalendarDateTime)
      modifies this`startDate
      ensures startDate == Some(FormatYmd(d))
      ensures GetStartDate() == Some(StartOfDay(d))
    {
      startDate := Some(FormatYmd(d));
      FormatParseRoundTrip(d);
    }

    /** The end date, or nothing while the field is empty. */
    function GetEndDate(): Option<CalendarDateTime>
      reads this
    {
      match endDate
      case None => None
      case Some(s) => ParseYmd(s)
    }

    /** Stores the calendar day of `d`, or empties the field for nothing. */
    method SetEndDate(d: Option<CalendarDateTime>)
      modifies this`endDate
      ensures endDate == if d.None? then None else Some(FormatYmd(d.value))
      ensures GetEndDate() == if d.None? then None else Some(StartOfDay(d.value))
    {
      if d.None? {
        endDate := None;
      } else {
        endDate := Some(FormatYmd(d.value));
        FormatParseRoundTrip(d.value);
      }
    }

    function GetItemsIds(): seq<ItemId>
      reads this
    {
      TargetIds(itemRefs)
    }

    function GetItems(t: Table): seq<ItemRecord>
      reads this
    {
      ResolveItems(t, GetItemsIds())
    }

    /** The back-reference repair run after the list is saved: walks the
        references in order and gives every item with an empty
        back-reference the list's id, saving it. */
    method PostSave(storage: ItemStore)
      requires id.Some?
      requires AllStored(storage.items, GetItemsIds())
      modifies storage
      ensures storage.items == Repair(old(storage.items), id.value, GetItemsIds()).items
      ensures storage.saved == old(storage.saved) + Repair(old(storage.items), id.value, GetItemsIds()).saved
    {
      var lid := id.value;
      var ids := GetItemsIds();
      var i := 0;
      while i < |ids|
        invariant 0 <= i <= |ids|
        invariant AllStored(old(storage.items), ids[..i])
        invariant storage.items == Repair(old(storage.items), lid, ids[..i]).items
        invariant storage.saved == old(storage.saved) + Repair(old(storage.items), lid, ids[..i]).saved
      {
        RepairPrefix(old(storage.items), lid, ids, i);
        var item := storage.Load(ids[i]);
        if item.GetPriceListId().None? {
          item.SetPriceListId(Some(lid));
          storage.Save(item);
        }
        i := i + 1;
      }
      assert ids[..i] == ids;
    }

    /** Saving the list: a new list receives `newId` from storage, then the
        repair runs. */
    method Save(storage: ItemStore, newId: ListId) returns (status: SaveStatus)
      requires AllStored(storage.items, GetItemsIds())
      modifies this`id, storage
      ensures status == if old(id).None? then SavedNew else SavedUpdated
      ensures id == if old(id).None? then Some(newId) else old(id)
      ensures storage.items == Repair(old(storage.items), id.value, GetItemsIds()).items
      ensures storage.saved == old(storage.saved) + Repair(old(storage.items), id.value, GetItemsIds()).saved
    {
      if id.None? {
        id := Some(newId);
        status := SavedNew;
      } else {
        status := SavedUpdated;
      }
      PostSave(storage);
    }

    /** The delete hook for a batch of deleted lists: the target ids of each
        list with references join one cumulative set, and storage deletes
        that set once per such list. */
    static method PostDelete(storage: ItemStore, entities: seq<PriceList>)
      modifies storage
      ensures storage.items == old(storage.items) - AllTargets(old(TargetLists(entities)))
      ensures storage.saved == old(storage.saved)
    {
      ghost var lists := TargetLists(entities);
      ghost var t0 := storage.items;
      var collected: set<ItemId> := {};
      var j := 0;
      while j < |entities|
        invariant 0 <= j <= |entities|
        invariant collected == AllTargets(lists[..j])
        invariant storage.items == t0 - collected
        invariant storage.saved == old(storage.saved)
      {
        var ids := entities[j].GetItemsIds();
        assert ids == lists[j];
        AllTargetsPrefix(lists, j);
        if ids != [] {
          ghost var before := collected;
          collected := CollectIds(collected, ids);
          assert (t0 - before) - collected == t0 - collected;
          storage.Delete(collected);
        }
        j := j + 1;
      }
      assert lists[..j] == lists;
    }

    /** The inner loop of the delete hook: adds each target id to the
        collection keyed by id. */
    static method CollectIds(collected: set<ItemId>, ids: seq<ItemId>) returns (r: set<ItemId>)
      ensures r == collected + Elems(ids)
    {
      r := collected;
      var n := 0;
      while n < |ids|
        invariant 0 <= n <= |ids|
        invariant r == collected + Elems(ids[..n])
      {
        r := r + {ids[n]};
        assert ids[..n + 1] == ids[..n] + [ids[n]];
        n := n + 1;
      }
      assert ids[..n] == ids;
    }
  }

  /** The target ids of each list of a batch, list by list. */
  function TargetLists(entities: seq<PriceList>): (r: seq<seq<ItemId>>)
    reads entities
    ensures |r| == |entities|
    ensures forall i | 0 <= i < |entities| :: r[i] == entities[i].GetItemsIds()
    decreases |entities|
  {
    if entities == [] then []
    else TargetLists(entities[..|entities| - 1]) + [entities[|entities| - 1].GetItemsIds()]
  }
}
