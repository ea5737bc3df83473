/** The price list item: one price override row of a price list. The stored
    row is the value `ItemRecord`; the entity object that getters and setters
    work on is the class `PriceListItem`, whose `Record()` is that value. */
module PriceListItems {
  import opened Common
  import opened Decimal

  /** Longest name the `name` field accepts. */
  const NameMaxLength: nat := 50
  /** Default of the integer `quantity` field. */
  const DefaultQuantity: int := 1
  /** Default of the integer `weight` field. */
  const DefaultWeight: int := 0

  /** The persisted fields of a price list item. `priceListId` is the
      back-reference to the parent list (None while it is empty);
      `quantity` holds the text the quantity setter writes. */
  datatype ItemRecord = ItemRecord(
    priceListId: Option<ListId>,
    purchasedEntity: Option<EntityId>,
    name: string,
    quantity: string,
    weight: int,
    price: Option<Price>,
    listPrice: Option<Price>,
    ownerId: UserId,
    published: bool)

  /** The field values of a newly created item owned by `owner`. */
  function NewRecord(owner: UserId): ItemRecord {
    ItemRecord(None, None, "", IntToString(DefaultQuantity), DefaultWeight, None, None, owner, true)
  }

  /** A constraint of the item's field definitions that a record breaks. */
  datatype Violation = PurchasedEntityMissing | NameTooLong

  /** The constraint violations validation reports: `purchased_entity` is
      required and `name` holds at most 50 characters. */
  function Violations(r: ItemRecord): (v: set<Violation>)
    ensures v == {} <==> r.purchasedEntity.Some? && |r.name| <= NameMaxLength
    ensures PurchasedEntityMissing in v <==> r.purchasedEntity.None?
  {
    (if r.purchasedEntity.None? then {PurchasedEntityMissing} else {})
    + (if |r.name| > NameMaxLength then {NameTooLong} else {})
  }

  /** A new item gets an empty name, weight 0, quantity 1, no prices, no
      parent and is activated; once it names a purchased entity it is valid. */
  lemma NewRecordDefaults(owner: UserId, e: EntityId)
    ensures var r := NewRecord(owner);
      && r.priceListId == None && r.name == "" && r.weight == 0
      && ParseInt(r.quantity) == Some(1)
      && r.price == None && r.listPrice == None && r.published && r.ownerId == owner
      && Violations(r) == {PurchasedEntityMissing}
      && Violations(r.(purchasedEntity := Some(e))) == {}
  {
    IntToStringRoundTrip(DefaultQuantity);
  }

  class PriceListItem {
    const id: ItemId
    var priceListId: Option<ListId>
    var purchasedEntity: Option<EntityId>
    var name: string
    var quantity: string
    var weight: int
    var price: Option<Price>
    var listPrice: Option<Price>
    var ownerId: UserId
    var published: bool

    /** The entity's field values, as a save would persist them. */
    function Record(): ItemRecord
      reads this
    {
      ItemRecord(priceListId, purchasedEntity, name, quantity, weight, price, listPrice, ownerId, published)
    }

    /** A new item; `owner` stands for the acting user of the default callback. */
    constructor (id: ItemId, owner: UserId)
      ensures this.id == id && Record() == NewRecord(owner)
    {
      this.id := id;
      priceListId, purchasedEntity, name := None, None, "";
      quantity, weight := IntToString(DefaultQuantity), DefaultWeight;
      price, listPrice := None, None;
      ownerId, published := owner, true;
    }

    /** The entity object built when a stored row is loaded. */
    constructor FromRecord(id: ItemId, r: ItemRecord)
      ensures this.id == id && Record() == r
    {
      this.id := id;
      priceListId, purchasedEntity, name := r.priceListId, r.purchasedEntity, r.name;
      quantity, weight := r.quantity, r.weight;
      price, listPrice := r.price, r.listPrice;
      ownerId, published := r.ownerId, r.published;
    }

    function GetPriceListId(): Option<ListId>
      reads this
    {
      priceListId
    }

    method SetPriceListId(x: Option<ListId>)
      modifies this
      ensures GetPriceListId() == x
      ensures Record() == old(Record()).(priceListId := x)
    {
      priceListId := x;
    }

    /** Setting the parent entity, a saved list, stores that list's id. */
    method SetPriceList(listId: ListId)
      modifies this
      ensures GetPriceListId() == Some(listId)
      ensures Record() == old(Record()).(priceListId := Some(listId))
    {
      priceListId := Some(listId);
    }

    function GetName(): string
      reads this
    {
      name
    }

    method SetName(n: string)
      modifies this
      ensures GetName() == n
      ensures Record() == old(Record()).(name := n)
    {
      name := n;
    }

    function GetQuantity(): string
      reads this
    {
      quantity
    }

    /** Stores the string form of `q`, which reads back as `q`. */
    method SetQuantity(q: int)
      modifies this
      ensures GetQuantity() == IntToString(q)
      ensures ParseInt(GetQuantity()) == Some(q)
      ensures Record() == old(Record()).(quantity := IntToString(q))
    {
      quantity := IntToString(q);
      IntToStringRoundTrip(q);
    }

    function GetWeight(): int
      reads this
    {
      weight
    }

    method SetWeight(w: int)
      modifies this
      ensures GetWeight() == w
      ensures Record() == old(Record()).(weight := w)
    {
      weight := w;
    }

    /** The price, or nothing while the price field is empty. */
    function GetPrice(): Option<Price>
      reads this
    {
      price
    }

    method SetPrice(p: Price)
      modifies this
      ensures GetPrice() == Some(p)
      ensures Record() == old(Record()).(price := Some(p))
    {
      price := Some(p);
    }

    /** The list price, or nothing while the list price field is empty. */
    function GetListPrice(): Option<Price>
      reads this
    {
      listPrice
    }

    method SetListPrice(p: Price)
      modifies this
      ensures GetListPrice() == Some(p)
      ensures Record() == old(Record()).(listPrice := Some(p))
    {
      listPrice := Some(p);
    }

    /** True exactly when the purchased entity reference is filled in. */
    function HasPurchasedEntity(): bool
      reads this
    {
      purchasedEntity.Some?
    }

    function GetPurchasedEntityId(): Option<EntityId>
      reads this
    {
      purchasedEntity
    }

    method SetPurchasedEntityId(e: Option<EntityId>)
      modifies this
      ensures GetPurchasedEntityId() == e
      ensures HasPurchasedEntity() <==> e.Some?
      ensures Record() == old(Record()).(purchasedEntity := e)
    {
      purchasedEntity := e;
    }

    function GetOwnerId(): UserId
      reads this
    {
      ownerId
    }

    /** Stores the account's id as the owner. */
    method SetOwner(account: UserAccount)
      modifies this
      ensures GetOwnerId() == account.uid
      ensures Record() == old(Record()).(ownerId := account.uid)
    {
      ownerId := account.uid;
    }

    method SetOwnerId(uid: UserId)
      modifies this
      ensures GetOwnerId() == uid
      ensures Record() == old(Record()).(ownerId := uid)
    {
      ownerId := uid;
    }
  }
}
