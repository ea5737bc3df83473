/** The storage of price list items that the host framework provides:
    a table of rows by id, with load, save and delete. Saves are logged in
    order so that "the item was saved" can be stated. */
module ItemStorage {
  import opened Common
  import opened PriceListItems

  type Table = map<ItemId, ItemRecord>

  /** What a run of item operations leaves behind: the table, and the ids
      saved during the run, in order. */
  datatype Effect = Effect(items: Table, saved: seq<ItemId>)

  class ItemStore {
    var items: Table
    var saved: seq<ItemId>

    constructor (initial: Table)
      ensures items == initial && saved == []
    {
      items, saved := initial, [];
    }

    /** Loads the entity object for a stored row. */
    method Load(id: ItemId) returns (e: PriceListItem)
      requires id in items
      ensures fresh(e) && e.id == id && e.Record() == items[id]
    {
      e := new PriceListItem.FromRecord(id, items[id]);
    }

    /** Writes the entity's fields under its id (insert or update). */
    method Save(e: PriceListItem)
      modifies this
      ensures items == old(items)[e.id := e.Record()]
      ensures saved == old(saved) + [e.id]
    {
      items := items[e.id := e.Record()];
      saved := saved + [e.id];
    }

    /** Removes the rows of the given ids; ids with no row are ignored, so
        deleting again, or deleting nothing, changes nothing. */
    method Delete(ids: set<ItemId>)
      modifies this
      ensures items == old(items) - ids
      ensures saved == old(saved)
    {
      items := items - ids;
    }
  }

  /** Deleting ids that have no row, and in particular the empty set, is a no-op. */
  lemma DeleteAbsentIsNoOp(t: Table, ids: set<ItemId>)
    requires forall k | k in ids :: k !in t
    ensures t - ids == t
  {
  }

  /** Deleting a growing set step by step ends where one delete of the whole set ends. */
  lemma CumulativeDeletes(t: Table, a: set<ItemId>, b: set<ItemId>)
    requires a <= b
    ensures (t - a) - b == t - b
  {
  }
}
