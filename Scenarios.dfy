/** Clients of the model: what a caller can conclude from the contracts
    alone about a list named "Spring" with one unattached item. */
module Scenarios {
  import opened Common
  import opened Dates
  import opened PriceListItems
  import opened ItemStorage
  import opened PriceLists
  import opened PriceListForms

  /** The start date keeps its day and loses its time; no end date is set. */
  method SpringDates()
  {
    var list := new PriceList(7);
    list.SetName("Spring");
    list.SetStartDate(DateTime(2024, 3, 1, 9, 30, 0));
    assert list.GetStartDate() == Some(DateTime(2024, 3, 1, 0, 0, 0));
    assert list.GetEndDate() == None;
    list.SetEndDate(Some(DateTime(2024, 5, 31, 23, 59, 59)));
    list.SetEndDate(None);
    assert list.GetEndDate() == None;
  }

  /** Saving the list through its form links the item to the list and
      gives it the submitted weight. */
  method SpringSave()
  {
    var t0: Table := map[10 := NewRecord(7)];
    var storage := new ItemStore(t0);

    var list := new PriceList(7);
    list.SetName("Spring");
    // The reference field is written directly, as the entity's generic
    // field setter would.
    list.itemRefs := [ItemReference(10)];
    ghost var ids := list.GetItemsIds();
    assert ids[0] == 10;
    var rows := [WeightRow(10, 3)];
    assert LastWeight(rows, 10) == Some(3);

    SaveKeepsRepairedBackReferences(t0, 1, ids, rows, 10);
    ghost var after := ApplyWeights(Repair(t0, 1, ids).items, rows).items;
    assert after[10].priceListId == Some(1) && after[10].weight == 3;

    var form := new PriceListForm(list);
    var message := form.Save(storage, rows, 1);
    assert list.id == Some(1) && list.GetItemsIds() == ids;
    assert storage.items == after;
    assert message.template == CreatedTemplate;
    assert storage.items[10].priceListId == Some(1);
    assert storage.items[10].weight == 3;
  }

  /** Deleting a list deletes the item it references and no other. */
  method SpringDelete()
  {
    var t: Table := map[10 := NewRecord(7).(priceListId := Some(1)), 11 := NewRecord(7)];
    var storage := new ItemStore(t);
    var list := new PriceList(7);
    list.itemRefs := [ItemReference(10)];
    assert list.GetItemsIds() == [10];
    ghost var lists := TargetLists([list]);
    assert lists[0] == [10];
    PriceList.PostDelete(storage, [list]);
    assert 10 !in storage.items && 11 in storage.items by {
      CascadeRemovesExactlyReferencedItems(t, lists, 10);
      CascadeRemovesExactlyReferencedItems(t, lists, 11);
    }
  }
}
