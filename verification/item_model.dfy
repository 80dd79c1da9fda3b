/**
 * The Item schema: the fields a stored item has, the constraints Mongoose checks
 * before it writes one, and the `url` virtual.
 */
module ItemModel {

  import opened Wrappers
  import opened ObjectIds

  /** A stored item. `category` holds the id of a Category document. */
  datatype Item = Item(
    id: ObjectId,
    name: string,
    description: string,
    category: ObjectId,
    price: real,
    stock: real)

  /** An item document as Mongoose validates it: any field may be absent. */
  datatype ItemDoc = ItemDoc(
    name: Option<string>,
    description: Option<string>,
    category: Option<ObjectId>,
    price: Option<real>,
    stock: Option<real>)

  /** The schema paths, in declaration order. */
  datatype ItemPath = NamePath | DescriptionPath | CategoryPath | PricePath | StockPath

  /** Which built-in validator of a path failed. */
  datatype Violation = Required | MaxLength(maxLength: nat) | Min(min: real)

  const NameMaxLength: nat := 50
  const DescriptionMaxLength: nat := 200
  const PriceMin: real := 1.0
  const StockMin: real := 1.0

  function DocOf(item: Item): ItemDoc {
    ItemDoc(Some(item.name), Some(item.description), Some(item.category), Some(item.price), Some(item.stock))
  }

  /**
   * The schema as a predicate. A required string must be present and non-empty;
   * a required number or reference only present.
   */
  predicate Conforms(doc: ItemDoc) {
    && doc.name.Some? && doc.name.value != [] && |doc.name.value| <= 50
    && doc.description.Some? && doc.description.value != [] && |doc.description.value| <= 200
    && doc.category.Some?
    && doc.price.Some? && doc.price.value >= 1.0
    && doc.stock.Some? && doc.stock.value >= 1.0
  }

  /** A required string path: the required validator runs first, then maxLength. */
  function StringPathError(v: Option<string>, maxLength: nat): Option<Violation> {
    if v.None? || v.value == [] then Some(Required)
    else if |v.value| > maxLength then Some(MaxLength(maxLength))
    else None
  }

  /** A required number path: the required validator runs first, then min. */
  function NumberPathError(v: Option<real>, min: real): Option<Violation> {
    if v.None? then Some(Required)
    else if v.value < min then Some(Min(min))
    else None
  }

  function PathError(doc: ItemDoc, path: ItemPath): Option<Violation> {
    match path
    case NamePath => StringPathError(doc.name, NameMaxLength)
    case DescriptionPath => StringPathError(doc.description, DescriptionMaxLength)
    case CategoryPath => if doc.category.None? then Some(Required) else None
    case PricePath => NumberPathError(doc.price, PriceMin)
    case StockPath => NumberPathError(doc.stock, StockMin)
  }

  const AllPaths: set<ItemPath> := {NamePath, DescriptionPath, CategoryPath, PricePath, StockPath}

  lemma AllPathsListed()
    ensures forall p :: p in AllPaths
  {
    forall p ensures p in AllPaths {
      match p
      case NamePath =>
      case DescriptionPath =>
      case CategoryPath =>
      case PricePath =>
      case StockPath =>
    }
  }

  /** What each path's validators reject, read off the schema lines. */
  lemma PathErrorCases(doc: ItemDoc)
    ensures PathError(doc, NamePath).Some? <==> !(doc.name.Some? && 0 < |doc.name.value| <= 50)
    ensures PathError(doc, DescriptionPath).Some? <==> !(doc.description.Some? && 0 < |doc.description.value| <= 200)
    ensures PathError(doc, CategoryPath).Some? <==> doc.category.None?
    ensures PathError(doc, PricePath).Some? <==> !(doc.price.Some? && doc.price.value >= 1.0)
    ensures PathError(doc, StockPath).Some? <==> !(doc.stock.Some? && doc.stock.value >= 1.0)
    ensures forall p :: PathError(doc, p).Some? ==> (PathError(doc, p).value == Required <==> PathMissing(doc, p))
    ensures PathError(doc, NamePath).Some? && !PathMissing(doc, NamePath) ==>
              PathError(doc, NamePath).value == MaxLength(50)
    ensures PathError(doc, DescriptionPath).Some? && !PathMissing(doc, DescriptionPath) ==>
              PathError(doc, DescriptionPath).value == MaxLength(200)
    ensures PathError(doc, PricePath).Some? && !PathMissing(doc, PricePath) ==> PathError(doc, PricePath).value == Min(1.0)
    ensures PathError(doc, StockPath).Some? && !PathMissing(doc, StockPath) ==> PathError(doc, StockPath).value == Min(1.0)
  {
    forall p | PathError(doc, p).Some?
      ensures PathError(doc, p).value == Required <==> PathMissing(doc, p)
    {
      match p
      case NamePath =>
      case DescriptionPath =>
      case CategoryPath =>
      case PricePath =>
      case StockPath =>
    }
  }

  /**
   * Mongoose's validation of an item: every path is checked, and the error
   * object maps each failing path to the first validator that rejected it.
   */
  function ValidationErrors(doc: ItemDoc): (errors: map<ItemPath, Violation>)
    ensures errors == map[] <==> Conforms(doc)
    ensures NamePath in errors <==> !(doc.name.Some? && 0 < |doc.name.value| <= 50)
    ensures DescriptionPath in errors <==> !(doc.description.Some? && 0 < |doc.description.value| <= 200)
    ensures CategoryPath in errors <==> doc.category.None?
    ensures PricePath in errors <==> !(doc.price.Some? && doc.price.value >= 1.0)
    ensures StockPath in errors <==> !(doc.stock.Some? && doc.stock.value >= 1.0)
    ensures forall p :: p in errors ==> (errors[p] == Required <==> PathMissing(doc, p))
    ensures NamePath in errors && !PathMissing(doc, NamePath) ==> errors[NamePath] == MaxLength(50)
    ensures DescriptionPath in errors && !PathMissing(doc, DescriptionPath) ==> errors[DescriptionPath] == MaxLength(200)
    ensures PricePath in errors && !PathMissing(doc, PricePath) ==> errors[PricePath] == Min(1.0)
    ensures StockPath in errors && !PathMissing(doc, StockPath) ==> errors[StockPath] == Min(1.0)
  {
    var errors := map p | p in AllPaths && PathError(doc, p).Some? :: PathError(doc, p).value;
    PathErrorCases(doc);
    AllPathsListed();
    assert forall p :: p in errors <==> PathError(doc, p).Some?;
    assert Conforms(doc) ==> errors.Keys == {};
    errors
  }

  /** A path with no value (an empty string counts as none for a required string). */
  predicate PathMissing(doc: ItemDoc, path: ItemPath) {
    match path
    case NamePath => doc.name.None? || doc.name.value == []
    case DescriptionPath => doc.description.None? || doc.description.value == []
    case CategoryPath => doc.category.None?
    case PricePath => doc.price.None?
    case StockPath => doc.stock.None?
  }

  /** The `url` virtual: `/item/` followed by the id's string form. */
  function Url(item: Item): (r: string)
    ensures |r| == 6 + HexWidth && r[..6] == "/item/"
  {
    "/item/" + IdToString(item.id)
  }

  /** The `/item/:id` route: the id a path names, if it names one. */
  function ItemIdOfPath(path: string): Option<ObjectId> {
    if |path| >= 6 && path[..6] == "/item/" then CastObjectId(path[6..]) else None
  }

  /** An item's url leads back to that item's id. */
  lemma UrlNamesItem(item: Item)
    ensures ItemIdOfPath(Url(item)) == Some(item.id)
  {
    var u := Url(item);
    assert u[6..] == IdToString(item.id);
    CastIdToString(item.id);
  }

  /** Two items share a url exactly when they share an id. */
  lemma UrlDeterminesId(a: Item, b: Item)
    ensures Url(a) == Url(b) <==> a.id == b.id
  {
    UrlNamesItem(a);
    UrlNamesItem(b);
  }
}
