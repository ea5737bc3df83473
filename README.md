# Price list lifecycle — a Dafny model

This project models the core of the Commerce price list module: a **price list**
holds an ordered list of references to **price list items**, and each item holds a
back-reference (`price_list_id`) to its list. Three pieces of behaviour keep the two
sides together:

* **Back-reference repair on save** (`PriceList::postSave`): after a list is saved, every
  referenced item whose back-reference is empty gets the list's id and is saved.
* **Cascade delete** (`PriceList::postDelete`): the items referenced by a batch of
  deleted lists are collected by id and deleted from item storage.
* **Weight persistence on form save** (`PriceListForm::save`): after the list is saved,
  every submitted item row writes its `weight` value to its item, which is saved.

Around them sit the two records with their getters, setters, defaults and constraints.

Modules and files:

| file | module | models |
|---|---|---|
| Common.dfy | `Common` | ids, `Option`/`Result`, the opaque money value `Price`, user accounts |
| Decimal.dfy | `Decimal` | PHP's `(string)` cast of an integer and reading it back; zero padding |
| Dates.dfy | `Dates` | date-times, the `Y-m-d` text a datetime field stores, and reading it back |
| PriceListItems.dfy | `PriceListItems` | `ItemRecord` (the stored row), class `PriceListItem` (the entity object), defaults and constraints |
| ItemStorage.dfy | `ItemStorage` | class `ItemStore`: the item table with load, save (logged) and delete |
| PriceLists.dfy | `PriceLists` | class `PriceList`; the repair and cascade as specification functions with their lemmas; the delete hook as written |
| PriceListForms.dfy | `PriceListForms` | class `PriceListForm` and its `Save`; the weight loop as a specification function with its lemmas; the status message |
| Scenarios.dfy | `Scenarios` | client methods that use only the contracts: the dates of a list "Spring", saving it with one item through its form, and deleting a list |

The state-changing operations are methods of classes (`PriceListItem`, `PriceList`,
`ItemStore`, `PriceListForm`). Each loop is proved against a pure function of the old state:
`PostSave` against `Repair`, `PostDelete` against `AllTargets`, and the form's weight loop
against `ApplyWeights`. The lemmas about those functions state what the source promises.
The item table is a `map` from item id to `ItemRecord`. Each save is also appended to a
log, so "the item was saved" can be stated.

Four modelling choices follow the code:

* The repair dereferences each referenced item without a null check. The model therefore
  *requires* every listed id to have a stored row (`AllStored`); it does not skip missing items.
* The form copies each row's `weight` value. It does not derive weights from positions.
  `WeightsFollowRowOrder` shows that rows with rising weights give rising item weights.
* The form loop reads a property `items` of the list, while the list keeps its references
  in `field_price_list_item`. The submitted rows are therefore an explicit input sequence
  of `(item id, weight)` pairs, unrelated to `GetItemsIds()`.
* The delete hook calls storage delete once per list inside the loop, each time with
  the cumulative collection. It does not make a single batch delete. Store deletion
  ignores absent ids, so the repeated calls end in the same table.

## Model

| member | source | states |
|---|---|---|
| `Decimal.IntToStringRoundTrip` | src/Entity/PriceListItem.php:128-131 | the string form that `setQuantity` stores reads back as the integer given |
| `Dates.ParseYmd` | src/Entity/PriceList.php:143-146 | reading a stored date gives a real calendar date at midnight, or nothing when the text is not a `Y-m-d` date |
| `Dates.FormatParseRoundTrip` | src/Entity/PriceList.php:143-154 | writing a date as `Y-m-d` and reading it back gives the same calendar day, with the time of day dropped |
| `Dates.FormatIgnoresTimeOfDay` | src/Entity/PriceList.php:151-154 | two date-times on the same day are stored as the same text |
| `Dates.FormatDistinguishesDays` | src/Entity/PriceList.php:151-154 | equal stored text means the same year, month and day |
| `PriceListItems.Violations` | src/Entity/PriceListItem.php:292-315 | an item is valid exactly when its purchased entity is set and its name has at most 50 characters |
| `PriceListItems.NewRecordDefaults` | src/Entity/PriceListItem.php:259-336 | a new item has no parent, name `''`, weight 0, quantity 1, no prices and is activated; it is valid once it names a purchased entity |
| `PriceListItems.PriceListItem.constructor` | src/Entity/PriceListItem.php:272-336 | a new item has the field defaults, and the owner is the acting user passed in |
| `PriceListItems.PriceListItem.FromRecord` | src/Entity/PriceList.php:199 | a loaded entity object carries exactly the stored row |
| `PriceListItems.PriceListItem.SetPriceListId` | src/Entity/PriceListItem.php:92-101 | `GetPriceListId` returns the value set, and no other field changes |
| `PriceListItems.PriceListItem.SetPriceList` | src/Entity/PriceListItem.php:85-87 | stores the saved list's id in the back-reference field, so `GetPriceListId` returns it, and nothing else changes |
| `PriceListItems.PriceListItem.SetName` | src/Entity/PriceListItem.php:106-116 | `GetName` returns the name set, and no other field changes |
| `PriceListItems.PriceListItem.SetQuantity` | src/Entity/PriceListItem.php:121-131 | stores the string form of `q`, which reads back as `q`, and no other field changes |
| `PriceListItems.PriceListItem.SetWeight` | src/Entity/PriceListItem.php:151-161 | `GetWeight` returns the weight set, and no other field changes |
| `PriceListItems.PriceListItem.SetPrice` | src/Entity/PriceListItem.php:166-177 | `GetPrice` then returns the price; it returns nothing only while the field is empty |
| `PriceListItems.PriceListItem.SetListPrice` | src/Entity/PriceListItem.php:182-193 | `GetListPrice` then returns the list price; it returns nothing only while the field is empty |
| `PriceListItems.PriceListItem.SetPurchasedEntityId` | src/Entity/PriceListItem.php:198-221 | `HasPurchasedEntity` is true exactly when a reference was set, and no other field changes |
| `PriceListItems.PriceListItem.SetOwner` | src/Entity/PriceListItem.php:233-243 | stores the account's id, so `GetOwnerId` returns it |
| `PriceListItems.PriceListItem.SetOwnerId` | src/Entity/PriceListItem.php:241-251 | `GetOwnerId` returns the id set, and no other field changes |
| `ItemStorage.ItemStore.Load` | src/Entity/PriceList.php:199 | loading gives a new entity object for the stored row of that id |
| `ItemStorage.ItemStore.Save` | src/Entity/PriceList.php:202 | saving writes the entity's fields under its id and logs the save |
| `ItemStorage.ItemStore.Delete` | src/Entity/PriceList.php:222-224 | deleting removes exactly the given ids; ids with no row are ignored |
| `ItemStorage.DeleteAbsentIsNoOp` | src/Entity/PriceList.php:224 | deleting an empty or already-deleted set leaves the table unchanged |
| `ItemStorage.CumulativeDeletes` | src/Entity/PriceList.php:224 | deleting a set and then a larger set containing it ends where deleting the larger set once ends |
| `PriceLists.TargetIds` | src/Entity/PriceList.php:176-182 | one target id per reference entry, in field order, duplicates kept |
| `PriceLists.ResolveItems` | src/Entity/PriceList.php:187-189 | every item returned is a stored one, at most one per id; when every id has a row, item `i` is the row of id `i` |
| `PriceLists.StoredIdsMembers` | src/Entity/PriceList.php:187-189 | the ids `getItems` keeps are exactly the referenced ids that have a stored row |
| `PriceLists.ResolveItemsInOrder` | src/Entity/PriceList.php:187-189 | `getItems` returns one item per referenced id that has a row, in reference order, skipping ids without a row |
| `PriceLists.Repair` | src/Entity/PriceList.php:198-204 | the repair loop removes and adds no item |
| `PriceLists.RepairAt` | src/Entity/PriceList.php:198-204 | a listed item with an empty back-reference gets the list's id and nothing else of it changes; every other item is unchanged |
| `PriceLists.RepairSaved` | src/Entity/PriceList.php:200-203 | saves are exactly the listed items whose back-reference was empty, each saved once |
| `PriceLists.RepairLinksUnlinkedItems` | src/Entity/PriceList.php:200-203 | completeness: every listed unlinked item points at the list afterwards and has been saved |
| `PriceLists.RepairKeepsExistingLinks` | src/Entity/PriceList.php:200 | a listed item already linked, even to another list, is neither changed nor saved |
| `PriceLists.RepairIgnoresUnlistedItems` | src/Entity/PriceList.php:198-204 | an item the list no longer names keeps its old back-reference and is not saved |
| `PriceLists.RepairLeavesLinkedListAlone` | src/Entity/PriceList.php:198-204 | when all listed items are linked the repair changes nothing and saves nothing |
| `PriceLists.RepairIdempotent` | src/Entity/PriceList.php:198-204 | a second repair of an unchanged list saves nothing and leaves the table as it was |
| `PriceLists.RepairEstablishesBackReferences` | src/Entity/PriceList.php:197-204 | when no listed item points at another list, afterwards every listed item points at this one |
| `PriceLists.AllTargetsMembers` | src/Entity/PriceList.php:214-220 | an id is in the collection exactly when some deleted list references it; being a set, it holds each id once |
| `PriceLists.CascadeOfEmptyListsIsNoOp` | src/Entity/PriceList.php:215-217 | lists without references delete nothing |
| `PriceLists.CollectLoadedAt` | src/Entity/PriceList.php:218-220 | the keyed array gains one entry per referenced id, holding the entity loaded for it |
| `PriceLists.SharedItemBreaksAsWrittenCascade` | src/Entity/PriceList.php:214-224 | with two deleted lists sharing an item, the hook as written hands delete an entry with no entity, while the cascade removes the item |
| `PriceLists.PostDeleteAsWritten` | src/Entity/PriceList.php:210-226 | the hook as written only removes items and never changes one; it fails on an entry with no loaded entity (`SharedItemBreaksAsWrittenCascade`) and equals `t - AllTargets(lists)` on disjoint, fully stored batches (`AsWrittenAgreesOnDisjointLists`) |
| `PriceLists.AsWrittenFirstStep` | src/Entity/PriceList.php:214-224 | for a list whose references all have rows, the hook as written deletes that list's items and goes on with the rest; every entry of the array then holds an entity |
| `PriceLists.AsWrittenAgreesOnDisjointLists` | src/Entity/PriceList.php:214-225 | when the lists share no item and all referenced rows exist, the hook as written deletes exactly the referenced items |
| `PriceLists.TargetLists` | src/Entity/PriceList.php:214-218 | one id list per deleted list, each that list's `getItemsIds()` |
| `PriceLists.ListViolations` | src/Entity/PriceList.php:243-251 | a list name is valid exactly when it is non-empty (the field is required) and has at most 50 characters |
| `PriceLists.PriceList.constructor` | src/Entity/PriceList.php:231-251 | a new list has no id, name `''`, weight 0, is published, has no dates and no items, and is owned by the acting user |
| `PriceLists.PriceList.SetName` | src/Entity/PriceList.php:83-93 | `GetName` returns the name set; only the name changes |
| `PriceLists.PriceList.SetOwnerId` | src/Entity/PriceList.php:120-130 | `GetOwnerId` returns the id set; only the owner changes |
| `PriceLists.PriceList.SetOwner` | src/Entity/PriceList.php:135-138 | stores the account's id as the owner |
| `PriceLists.PriceList.SetStartDate` | src/Entity/PriceList.php:143-154 | stores the `Y-m-d` text of the date; `GetStartDate` then gives that day at midnight |
| `PriceLists.PriceList.SetEndDate` | src/Entity/PriceList.php:159-171 | stores the `Y-m-d` text, or empties the field for nothing; `GetEndDate` then gives that day, or nothing |
| `PriceLists.PriceList.PostSave` | src/Entity/PriceList.php:194-205 | the table and the save log afterwards are those of `Repair` over the list's references |
| `PriceLists.PriceList.Save` | src/Form/PriceListForm.php:215 | a new list gets its id and the status SAVED_NEW, any other list SAVED_UPDATED; then the repair runs |
| `PriceLists.PriceList.PostDelete` | src/Entity/PriceList.php:210-226 | afterwards the table is the old one minus every item any deleted list referenced; nothing is saved |
| `PriceLists.PriceList.CollectIds` | src/Entity/PriceList.php:218-220 | the collection afterwards is the old one plus this list's target ids |
| `PriceLists.CascadeRemovesExactlyReferencedItems` | src/Entity/PriceList.php:214-225 | an item survives the cascade exactly when no deleted list references it, and then it is unchanged |
| `PriceListForms.MessageFor` | src/Form/PriceListForm.php:223-234 | "Created the %label Price list." exactly for SAVED_NEW, "Saved the %label Price list." otherwise, with the list's label |
| `PriceListForms.ApplyWeights` | src/Form/PriceListForm.php:217-221 | the weight loop removes no item and saves one item per row, in row order |
| `PriceListForms.LastWeightNone` | src/Form/PriceListForm.php:217-221 | an item gets no row weight exactly when no row targets it |
| `PriceListForms.LastRowFor` | src/Form/PriceListForm.php:217-221 | an item's row weight comes from a row targeting it after which no row targets it |
| `PriceListForms.LastWeightOfLastRow` | src/Form/PriceListForm.php:217-221 | the last row that targets an item gives that item's row weight |
| `PriceListForms.ApplyWeightsAt` | src/Form/PriceListForm.php:217-221 | each item's weight becomes its last row's weight, and nothing else of any item changes |
| `PriceListForms.LaterRowWins` | src/Form/PriceListForm.php:217-221 | last write wins: the last row targeting an item decides its weight |
| `PriceListForms.UntargetedItemsUnchanged` | src/Form/PriceListForm.php:217-221 | an item no row targets keeps its weight and every other field |
| `PriceListForms.WeightsTouchOnlyWeight` | src/Form/PriceListForm.php:219 | the weight writes change only `weight`, so back-references survive |
| `PriceListForms.WeightsFollowRowOrder` | src/Form/PriceListForm.php:217-221 | rows for distinct items with rising weights leave those items' weights in row order |
| `PriceListForms.SaveKeepsRepairedBackReferences` | src/Form/PriceListForm.php:213-221 | after the form save every item has the back-reference the repair gave it and the weight of its last row |
| `PriceListForms.PriceListForm.Save` | src/Form/PriceListForm.php:213-234 | the list save, with its repair, runs first and the weight loop on its result second; the message follows the save status |
| `PriceListForms.PriceListForm.PersistWeights` | src/Form/PriceListForm.php:217-221 | the table and the save log afterwards are those of `ApplyWeights` over the rows |

## Findings

| source | as written | input that shows it | evidently intended | confidence | as-written member | corrected member |
|---|---|---|---|---|---|---|
| src/Entity/PriceList.php:214-224 | storage delete runs inside the loop over deleted lists; a later list's `$item->entity` is loaded after earlier deletes, and the keyed array is overwritten with what that load returns | two lists deleted in one batch, both referencing item 1: the second list's load of item 1 finds no row, and its empty entry reaches storage delete, which needs an entity for every entry | every item referenced by any deleted list is deleted once, whichever lists share it | medium, not executed; relies on the framework returning no entity for a deleted target and on storage delete reading each entry's id | `PriceLists.PostDeleteAsWritten`, shown by `PriceLists.SharedItemBreaksAsWrittenCascade` | `PriceLists.PriceList.PostDelete`, proved by `PriceLists.CascadeRemovesExactlyReferencedItems` |

`PriceLists.AsWrittenAgreesOnDisjointLists` proves the limits of this discrepancy. When no
two lists in a batch share an item and every reference has a stored row, the hook as
written and the corrected cascade leave the same table.

## Left out

- Entity annotations, display options, routes, permissions, `baseFieldDefinitions` beyond the defaults and constraints above, and `bundleFieldDefinitions`: declarations for the framework, not behaviour.
- `getCurrentUserId` and the other default-owner callbacks read the current user service. The acting user is a constructor parameter.
- The entity bundle (`type`) of lists and items, `getType`, and the created and changed timestamps. They play no part in the relationship.
- `getOwner`, `getPriceList` and `getPurchasedEntity` load referenced entities, with translation. Only the stored ids are modelled.
- `getItems` translation handling: `GetItems` resolves ids against the item table in order and skips ids without a row, as the framework's referenced-entity loading does.
- Time zones and date parsing of the date library. `GetStartDate` returns nothing for an empty field, where the library would build the current time. Text that is not a valid `Y-m-d` day also gives nothing, where the library would roll an out-of-range day over. Years before year 0 are not modelled.
- `Price` values and currencies belong to the commerce price library. They are stored and returned without interpretation.
- The `empty($entity->field_price_list_item)` guard: the model skips a list with no references. On a list whose type defines the field, the framework's field list object is never empty, so the guard does not skip such a list and delete runs for it too, with the unchanged collection. That behaviour rests on framework code outside this module. The table ends the same either way, because deleting ids already removed changes nothing (`CumulativeDeletes`, `DeleteAbsentIsNoOp`).
- Entity validation is not run by `save()`. `Violations` states the constraints, and nothing calls it before saving.
- Persistence internals: id assignment (an input `newId`), SQL storage, revisions, caches, transactions, and failures of storage calls. The host framework provides them.
- Entity caching: every load builds a new entity object, where the framework would reuse a cached one. Each changed item is saved before the next load, so the stored rows are the same either way.
- Form construction (`buildForm`, `form`, `hideEmptyVisibilitySettings`, constructor, `create`), the messenger, message translation and the redirect. `Save` returns the chosen message instead of adding it.
- What the list's `items` property holds when the form loop runs is not visible in these files. The rows are an input, and every row's target must have a stored row, since the loop dereferences it.
- PriceListItems.PriceListItem.SetPriceList: takes the id of a saved list. Setting an unsaved list, which the framework keeps as a non-empty reference to the new entity and saves before the item, is not modelled.
- Concurrency: each operation runs alone in one request.
