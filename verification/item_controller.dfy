/** The item handlers: the home page counts, the item list and the item detail page. */
module ItemController {

  import opened Wrappers
  import opened Text
  import opened ObjectIds
  import opened ItemModel
  import opened Store
  import opened Http

  // ---------------------------------------------------------------------------
  // index
  // ---------------------------------------------------------------------------

  /** What the home page renders. */
  datatype IndexView = IndexView(itemCount: nat, categoryCount: nat)

  /** `index`: `countDocuments({})` on both collections. */
  function Index(categories: seq<Category>, items: seq<Item>): (v: IndexView)
    ensures v.itemCount == |items| && v.categoryCount == |categories|
    ensures DistinctKeys(items, ItemId) ==> v.itemCount == |KeySet(items, ItemId)|
    ensures DistinctKeys(categories, CategoryId) ==> v.categoryCount == |KeySet(categories, CategoryId)|
  {
    DistinctKeysCountIf(items, ItemId);
    DistinctKeysCountIf(categories, CategoryId);
    IndexView(|items|, |categories|)
  }

  lemma DistinctKeysCountIf<T, K>(s: seq<T>, key: T -> K)
    ensures DistinctKeys(s, key) ==> |KeySet(s, key)| == |s|
  {
    if DistinctKeys(s, key) {
      DistinctKeysCount(s, key);
    }
  }

  // ---------------------------------------------------------------------------
  // item_list
  // ---------------------------------------------------------------------------

  /** `item_list`: every stored item, by ascending name. */
  function ItemList(items: seq<Item>): (r: seq<Item>)
    ensures multiset(r) == multiset(items)
    ensures forall i, j :: 0 <= i < j < |r| ==> LexLe(r[i].name, r[j].name)
  {
    SortBy(items, ItemName)
  }

  // ---------------------------------------------------------------------------
  // item_detail
  // ---------------------------------------------------------------------------

  /** An item after `populate("category")`: the reference replaced by the document, or null. */
  datatype PopulatedItem = PopulatedItem(
    id: ObjectId,
    name: string,
    description: string,
    category: Option<Category>,
    price: real,
    stock: real)

  /** `p` is `item` with its category reference resolved against `categories`. */
  predicate PopulatedFrom(p: PopulatedItem, item: Item, categories: seq<Category>) {
    && p.id == item.id && p.name == item.name && p.description == item.description
    && p.price == item.price && p.stock == item.stock
    && (p.category.Some? ==> p.category.value in categories && p.category.value.id == item.category)
    && (p.category.None? <==> forall c :: c in categories ==> c.id != item.category)
  }

  function Populate(item: Item, categories: seq<Category>): (p: PopulatedItem)
    ensures PopulatedFrom(p, item, categories)
  {
    PopulatedItem(item.id, item.name, item.description, FindBy(categories, CategoryId, item.category),
                  item.price, item.stock)
  }

  /**
   * `item_detail`: the item with the requested id, its category populated; a
   * 404 error (with the message "Category not found") when no item has that id.
   */
  function ItemDetail(categories: seq<Category>, items: seq<Item>, id: string)
    : (r: Result<PopulatedItem, HandlerError>)
    ensures CastObjectId(id).None? ==> r == Err(CastError(id))
    ensures CastObjectId(id).Some? ==>
      var oid := CastObjectId(id).value;
      && (r.Err? <==> forall item :: item in items ==> item.id != oid)
      && (r.Err? ==> r.error == HttpError(404, "Category not found") && Status(r.error) == Some(404))
      && (r.Ok? ==> r.value.id == oid
                    && exists item :: item in items && item.id == oid && PopulatedFrom(r.value, item, categories))
  {
    match CastObjectId(id)
    case None => Err(CastError(id))
    case Some(oid) =>
      match FindBy(items, ItemId, oid)
      case None => Err(HttpError(404, "Category not found"))
      case Some(item) => Ok(Populate(item, categories))
  }

  /** Following a stored item's url shows that very item, with its category resolved. */
  lemma {:induction false} DetailOfUrlShowsItem(categories: seq<Category>, items: seq<Item>, item: Item)
    requires DistinctKeys(items, ItemId)
    requires item in items
    ensures ItemIdOfPath(Url(item)) == Some(item.id)
    ensures var r := ItemDetail(categories, items, Url(item)[6..]);
      r.Ok? && PopulatedFrom(r.value, item, categories)
  {
    UrlNamesItem(item);
    assert Url(item)[6..] == IdToString(item.id);
    CastIdToString(item.id);
    FindByDistinct(items, ItemId, item);
  }
}
