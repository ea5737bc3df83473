/** The price list edit form's save: the list is saved (which runs the
    back-reference repair), then every submitted item row writes its weight
    to its item and saves it, and a status message is chosen. */
module PriceListForms {
  import opened Common
  import opened PriceListItems
  import opened ItemStorage
  import opened PriceLists

  /** One submitted row of the item collection: the item it edits and the
      row's 'weight' value. */
  datatype WeightRow = WeightRow(target: ItemId, weight: int)

  /** A status message: its template and the value for `%label`. */
  datatype StatusMessage = StatusMessage(template: string, labelText: string)

  const CreatedTemplate: string := "Created the %label Price list."
  const SavedTemplate: string := "Saved the %label Price list."

  /** The message for a save: "Created" exactly for a new list, "Saved" for
      any other status; the label is the list's name. */
  function MessageFor(status: SaveStatus, labelText: string): (m: StatusMessage)
    ensures m.labelText == labelText
    ensures m.template == CreatedTemplate <==> status == SavedNew
    ensures m.template == SavedTemplate <==> status != SavedNew
  {
    assert CreatedTemplate[0] != SavedTemplate[0];
    match status
    case SavedNew => StatusMessage(CreatedTemplate, labelText)
    case _ => StatusMessage(SavedTemplate, labelText)
  }

  predicate RowsStored(t: Table, rows: seq<WeightRow>) {
    forall i | 0 <= i < |rows| :: rows[i].target in t
  }

  /** One pass of the weight loop: the row's item gets the row's weight and
      is saved. */
  function WeightStep(e: Effect, row: WeightRow): Effect
    requires row.target in e.items
  {
    Effect(e.items[row.target := e.items[row.target].(weight := row.weight)], e.saved + [row.target])
  }

  /** The weight loop run over `rows` in order, starting from table `t`.
      Every row's item is saved, once per row, in row order. */
  function ApplyWeights(t: Table, rows: seq<WeightRow>): (r: Effect)
    requires RowsStored(t, rows)
    ensures r.items.Keys == t.Keys
    ensures |r.saved| == |rows|
    ensures forall i | 0 <= i < |rows| :: r.saved[i] == rows[i].target
    decreases |rows|
  {
    if rows == [] then Effect(t, [])
    else WeightStep(ApplyWeights(t, rows[..|rows| - 1]), rows[|rows| - 1])
  }

  /** The weight of the last row that targets `k`, nothing if none does. */
  function LastWeight(rows: seq<WeightRow>, k: ItemId): (w: Option<int>)
    decreases |rows|
  {
    if rows == [] then None
    else if rows[|rows| - 1].target == k then Some(rows[|rows| - 1].weight)
    else LastWeight(rows[..|rows| - 1], k)
  }

  /** LastWeight is nothing exactly when no row targets `k`. */
  lemma {:induction false} LastWeightNone(rows: seq<WeightRow>, k: ItemId)
    ensures LastWeight(rows, k).None? <==> forall i | 0 <= i < |rows| :: rows[i].target != k
    decreases |rows|
  {
    if rows != [] {
      LastWeightNone(rows[..|rows| - 1], k);
    }
  }

  /** Otherwise LastWeight is the weight of the row targeting `k` after which
      no row targets `k`. */
  lemma {:induction false} LastRowFor(rows: seq<WeightRow>, k: ItemId) returns (i: nat)
    requires LastWeight(rows, k).Some?
    ensures i < |rows| && rows[i].target == k && rows[i].weight == LastWeight(rows, k).value
    ensures forall j | i < j < |rows| :: rows[j].target != k
    decreases |rows|
  {
    if rows[|rows| - 1].target == k {
      i := |rows| - 1;
    } else {
      i := LastRowFor(rows[..|rows| - 1], k);
    }
  }

  /** A row after which no row targets the same item decides its weight. */
  lemma {:induction false} LastWeightOfLastRow(rows: seq<WeightRow>, i: nat)
    requires i < |rows|
    requires forall j | i < j < |rows| :: rows[j].target != rows[i].target
    ensures LastWeight(rows, rows[i].target) == Some(rows[i].weight)
    decreases |rows|
  {
    if i < |rows| - 1 {
      LastWeightOfLastRow(rows[..|rows| - 1], i);
    }
  }

  /** What the weight loop does to any one stored item: its weight becomes
      that of the last row targeting it, and nothing else of it changes. */
  lemma {:induction false} ApplyWeightsAt(t: Table, rows: seq<WeightRow>, k: ItemId)
    requires RowsStored(t, rows) && k in t
    ensures ApplyWeights(t, rows).items[k] ==
      match LastWeight(rows, k)
      case None => t[k]
      case Some(w) => t[k].(weight := w)
    decreases |rows|
  {
    if rows != [] {
      ApplyWeightsAt(t, rows[..|rows| - 1], k);
    }
  }

  /** Last write wins: when several rows target one item, the last of them
      sets its weight. */
  lemma LaterRowWins(t: Table, rows: seq<WeightRow>, i: nat)
    requires RowsStored(t, rows) && i < |rows|
    requires forall j | i < j < |rows| :: rows[j].target != rows[i].target
    ensures ApplyWeights(t, rows).items[rows[i].target].weight == rows[i].weight
  {
    LastWeightOfLastRow(rows, i);
    ApplyWeightsAt(t, rows, rows[i].target);
  }

  /** An item no row targets keeps its weight and every other field. */
  lemma UntargetedItemsUnchanged(t: Table, rows: seq<WeightRow>, k: ItemId)
    requires RowsStored(t, rows) && k in t
    requires forall i | 0 <= i < |rows| :: rows[i].target != k
    ensures ApplyWeights(t, rows).items[k] == t[k]
  {
    LastWeightNone(rows, k);
    ApplyWeightsAt(t, rows, k);
  }

  /** The weight loop writes only weights: every other field of every item,
      the back-reference included, is as before. */
  lemma WeightsTouchOnlyWeight(t: Table, rows: seq<WeightRow>, k: ItemId)
    requires RowsStored(t, rows) && k in t
    ensures ApplyWeights(t, rows).items[k] == t[k].(weight := ApplyWeights(t, rows).items[k].weight)
  {
    ApplyWeightsAt(t, rows, k);
  }

  /** Rows that name distinct items with weights rising in row order leave
      the items' weights in row order. */
  lemma WeightsFollowRowOrder(t: Table, rows: seq<WeightRow>, i: nat, j: nat)
    requires RowsStored(t, rows)
    requires forall a, b | 0 <= a < b < |rows| :: rows[a].target != rows[b].target
    requires forall a, b | 0 <= a < b < |rows| :: rows[a].weight < rows[b].weight
    requires i < j < |rows|
    ensures ApplyWeights(t, rows).items[rows[i].target].weight
          < ApplyWeights(t, rows).items[rows[j].target].weight
  {
    LaterRowWins(t, rows, i);
    LaterRowWins(t, rows, j);
  }

  /** The form save as a whole: the repair's back-references survive the
      weight writes, and each item's weight is its last row's. */
  lemma SaveKeepsRepairedBackReferences(t: Table, lid: ListId, ids: seq<ItemId>, rows: seq<WeightRow>, k: ItemId)
    requires AllStored(t, ids) && RowsStored(t, rows) && k in t
    ensures RowsStored(Repair(t, lid, ids).items, rows)
    ensures var after := ApplyWeights(Repair(t, lid, ids).items, rows).items[k];
      && after.priceListId == (if k in ids && t[k].priceListId.None? then Some(lid) else t[k].priceListId)
      && after.weight == (if LastWeight(rows, k).Some? then LastWeight(rows, k).value else t[k].weight)
  {
    var r := Repair(t, lid, ids).items;
    RepairAt(t, lid, ids, k);
    ApplyWeightsAt(r, rows, k);
  }

  class PriceListForm {
    /** The price list the form edits. */
    const entity: PriceList

    constructor (entity: PriceList)
      ensures this.entity == entity
    {
      this.entity := entity;
    }

    /** Saves the list (new lists receive `newId`), which repairs the
        back-references; then, row by row, sets the row's item weight to the
        row's value and saves the item; returns the status message. */
    method Save(storage: ItemStore, rows: seq<WeightRow>, newId: ListId) returns (message: StatusMessage)
      requires AllStored(storage.items, entity.GetItemsIds())
      requires RowsStored(storage.items, rows)
      modifies entity`id, storage
      ensures entity.id == if old(entity.id).None? then Some(newId) else old(entity.id)
      ensures var repaired := Repair(old(storage.items), entity.id.value, entity.GetItemsIds());
        && RowsStored(repaired.items, rows)
        && storage.items == ApplyWeights(repaired.items, rows).items
        && storage.saved == old(storage.saved) + repaired.saved + ApplyWeights(repaired.items, rows).saved
      ensures message == MessageFor(if old(entity.id).None? then SavedNew else SavedUpdated, entity.GetName())
    {
      var status := entity.Save(storage, newId);
      PersistWeights(storage, rows);
      message := MessageFor(status, entity.GetName());
    }

    /** The loop over the submitted rows: sets each row's item weight to
        the row's value and saves the item. */
    static method PersistWeights(storage: ItemStore, rows: seq<WeightRow>)
      requires RowsStored(storage.items, rows)
      modifies storage
      ensures storage.items == ApplyWeights(old(storage.items), rows).items
      ensures storage.saved == old(storage.saved) + ApplyWeights(old(storage.items), rows).saved
    {
      var i := 0;
      while i < |rows|
        invariant 0 <= i <= |rows|
        invariant storage.items == ApplyWeights(old(storage.items), rows[..i]).items
        invariant storage.saved == old(storage.saved) + ApplyWeights(old(storage.items), rows[..i]).saved
      {
        var item := storage.Load(rows[i].target);
        item.SetWeight(rows[i].weight);
        storage.Save(item);
        assert rows[..i + 1][..i] == rows[..i];
        i := i + 1;
      }
      assert rows[..i] == rows;
    }
  }
}
