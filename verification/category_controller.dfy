/**
 * The category handlers: the list page, the detail page, and the create form's
 * POST handler (validation chains, then de-duplicate or insert).
 */
module CategoryController {

  import opened Wrappers
  import opened Text
  import opened ObjectIds
  import opened ItemModel
  import opened Store
  import opened Http

  // ---------------------------------------------------------------------------
  // category_list
  // ---------------------------------------------------------------------------

  /** `category_list`: every stored category, by ascending name. */
  function CategoryList(categories: seq<Category>): (r: seq<Category>)
    ensures multiset(r) == multiset(categories)
    ensures forall i, j :: 0 <= i < j < |r| ==> LexLe(r[i].name, r[j].name)
  {
    SortBy(categories, CategoryName)
  }

  // ---------------------------------------------------------------------------
  // category_detail
  // ---------------------------------------------------------------------------

  /** An item as the detail query projects it (`"name description"`, plus `_id`). */
  datatype ItemSummary = ItemSummary(id: ObjectId, name: string, description: string)

  function Summarize(item: Item): ItemSummary {
    ItemSummary(item.id, item.name, item.description)
  }

  /** The projection applied to every item a query returned, in order. */
  function SummarizeAll(items: seq<Item>): (r: seq<ItemSummary>)
    ensures |r| == |items|
    ensures forall item :: item in items ==> Summarize(item) in r
    ensures forall s :: s in r ==> exists item :: item in items && Summarize(item) == s
  {
    if items == [] then []
    else
      var rest := SummarizeAll(items[1..]);
      assert forall item :: item in items ==> item == items[0] || item in items[1..];
      [Summarize(items[0])] + rest
  }

  /** What `category_detail` renders. */
  datatype CategoryDetailView = CategoryDetailView(category: Category, categoryItems: seq<ItemSummary>)

  /**
   * `category_detail`: the category with the requested id and the items filed
   * under it; a 404 error when no category has that id.
   */
  function CategoryDetail(categories: seq<Category>, items: seq<Item>, id: string)
    : (r: Result<CategoryDetailView, HandlerError>)
    ensures CastObjectId(id).None? ==> r == Err(CastError(id))
    ensures CastObjectId(id).Some? ==>
      var oid := CastObjectId(id).value;
      && (r.Err? <==> forall c :: c in categories ==> c.id != oid)
      && (r.Err? ==> r.error == HttpError(404, "Category not found"))
      && (r.Ok? ==> r.value.category in categories && r.value.category.id == oid)
      && (r.Ok? ==> forall item :: item in items && item.category == oid ==>
                      Summarize(item) in r.value.categoryItems)
      && (r.Ok? ==> forall s :: s in r.value.categoryItems ==>
                      exists item :: item in items && item.category == oid && Summarize(item) == s)
  {
    match CastObjectId(id)
    case None => Err(CastError(id))
    case Some(oid) =>
      var category := FindBy(categories, CategoryId, oid);
      var inCategory := FilterBy(items, ItemCategory, oid);
      if category.None? then Err(HttpError(404, "Category not found"))
      else
        Ok(CategoryDetailView(category.value, SummarizeAll(inCategory)))
  }

  /**
   * An item's summary occurs as often as the item itself, when no other item
   * shares its id.
   */
  lemma {:induction false} SummaryCount(t: seq<Item>, x: Item)
    requires forall y :: y in t && y.id == x.id ==> y == x
    ensures multiset(SummarizeAll(t))[Summarize(x)] == multiset(t)[x]
  {
    if t != [] {
      var head, tail := t[0], t[1..];
      assert t == [head] + tail;
      assert multiset(t) == multiset{head} + multiset(tail);
      assert multiset(SummarizeAll(t)) == multiset{Summarize(head)} + multiset(SummarizeAll(tail));
      assert head in t;
      assert Summarize(head) == Summarize(x) <==> head == x;
      SummaryCount(tail, x);
    }
  }

  /** The detail page of a stored category lists the projection of the items filed under it. */
  lemma DetailOfStoredCategory(categories: seq<Category>, items: seq<Item>, c: Category)
    requires c in categories
    ensures CategoryDetail(categories, items, IdToString(c.id)).Ok?
    ensures CategoryDetail(categories, items, IdToString(c.id)).value.categoryItems
         == SummarizeAll(FilterBy(items, ItemCategory, c.id))
  {
    CastIdToString(c.id);
  }

  /**
   * With unique item ids, the detail page of a stored category lists each item
   * filed under it exactly once, and no other item.
   */
  lemma DetailListsExactlyItsItems(categories: seq<Category>, items: seq<Item>, c: Category, item: Item)
    requires DistinctKeys(items, ItemId)
    requires c in categories && item in items
    ensures CategoryDetail(categories, items, IdToString(c.id)).Ok?
    ensures multiset(CategoryDetail(categories, items, IdToString(c.id)).value.categoryItems)[Summarize(item)]
         == if item.category == c.id then 1 else 0
  {
    DetailOfStoredCategory(categories, items, c);
    var filtered := FilterBy(items, ItemCategory, c.id);
    forall y | y in filtered && y.id == item.id ensures y == item {
      var i :| 0 <= i < |items| && items[i] == item;
      var j :| 0 <= j < |items| && items[j] == y;
      assert ItemId(items[i]) == ItemId(items[j]);
    }
    SummaryCount(filtered, item);
    DistinctKeysOccurOnce(items, ItemId, item);
    assert multiset(filtered)[item] == if ItemCategory(item) == c.id then multiset(items)[item] else 0;
  }

  // ---------------------------------------------------------------------------
  // category_create_post: the validation chains
  // ---------------------------------------------------------------------------

  /** The body fields of the category form. */
  datatype FormField = NameField | DescriptionField

  /** An entry of `validationResult(req).array()`: the field and the chain's message. */
  datatype FieldError = FieldError(field: FormField, msg: string)

  /** One `body(field, message).trim().isLength({min, max}).escape()` chain. */
  datatype FieldRule = FieldRule(field: FormField, message: string, minLength: nat, maxLength: nat)

  const NameRule := FieldRule(NameField, "Category name must contain between 5 and 50 characters", 3, 50)
  const DescriptionRule :=
    FieldRule(DescriptionField, "Category description must contain between 5 and 200 characters", 5, 200)

  /** A field after its chain ran: the sanitised value, and the error if the length check failed. */
  datatype CheckedField = CheckedField(value: string, error: Option<FieldError>)

  /**
   * Runs one chain: the length bound applies to the trimmed value, and the
   * value handed on is the trimmed value escaped.
   */
  function CheckField(rule: FieldRule, raw: string): (r: CheckedField)
    ensures r.value == Escape(Trim(raw))
    ensures Unescape(r.value) == Trim(raw)
    ensures r.error.None? <==> rule.minLength <= |Trim(raw)| <= rule.maxLength
    ensures r.error.Some? ==> r.error.value == FieldError(rule.field, rule.message)
  {
    var trimmed := Trim(raw);
    UnescapeEscape(trimmed);
    var ok := rule.minLength <= |trimmed| <= rule.maxLength;
    CheckedField(Escape(trimmed), if ok then None else Some(FieldError(rule.field, rule.message)))
  }

  /** The submitted form after both chains: sanitised values and every error collected. */
  datatype CategoryForm = CategoryForm(name: string, description: string, errors: seq<FieldError>)

  /** `validationResult(req)`: the errors of the two chains, in chain order. */
  function CombineChecks(name: CheckedField, description: CheckedField): (form: CategoryForm)
    ensures form.name == name.value && form.description == description.value
    ensures form.errors == [] <==> name.error.None? && description.error.None?
    ensures forall e :: e in form.errors <==> name.error == Some(e) || description.error == Some(e)
  {
    var nameErrors := if name.error.Some? then [name.error.value] else [];
    var descriptionErrors := if description.error.Some? then [description.error.value] else [];
    CategoryForm(name.value, description.value, nameErrors + descriptionErrors)
  }

  function ValidateCategoryForm(rawName: string, rawDescription: string): (form: CategoryForm)
    ensures form.name == Escape(Trim(rawName)) && form.description == Escape(Trim(rawDescription))
    ensures Unescape(form.name) == Trim(rawName)
    ensures Unescape(form.description) == Trim(rawDescription)
    ensures form.errors == [] <==> 3 <= |Trim(rawName)| <= 50 && 5 <= |Trim(rawDescription)| <= 200
  {
    CombineChecks(CheckField(NameRule, rawName), CheckField(DescriptionRule, rawDescription))
  }

  /**
   * The errors are the name chain's message, then the description chain's,
   * each present exactly when its trimmed field is out of bounds.
   */
  lemma FormErrorsInChainOrder(rawName: string, rawDescription: string)
    ensures ValidateCategoryForm(rawName, rawDescription).errors
         == (if 3 <= |Trim(rawName)| <= 50 then [] else [FieldError(NameField, NameRule.message)])
          + (if 5 <= |Trim(rawDescription)| <= 200 then [] else [FieldError(DescriptionField, DescriptionRule.message)])
  {
    var name, description := CheckField(NameRule, rawName), CheckField(DescriptionRule, rawDescription);
    assert ValidateCategoryForm(rawName, rawDescription) == CombineChecks(name, description);
  }

  /** The name chain reports its message exactly when the trimmed name is out of bounds. */
  lemma NameErrorReported(rawName: string, rawDescription: string)
    ensures FieldError(NameField, NameRule.message) in ValidateCategoryForm(rawName, rawDescription).errors
            <==> !(3 <= |Trim(rawName)| <= 50)
  {
    var name, description := CheckField(NameRule, rawName), CheckField(DescriptionRule, rawDescription);
    assert ValidateCategoryForm(rawName, rawDescription) == CombineChecks(name, description);
    assert description.error != Some(FieldError(NameField, NameRule.message));
  }

  /**
   * The description chain reports its message exactly when the trimmed
   * description is out of bounds, whatever the name chain found.
   */
  lemma DescriptionErrorReported(rawName: string, rawDescription: string)
    ensures FieldError(DescriptionField, DescriptionRule.message) in ValidateCategoryForm(rawName, rawDescription).errors
            <==> !(5 <= |Trim(rawDescription)| <= 200)
  {
    var name, description := CheckField(NameRule, rawName), CheckField(DescriptionRule, rawDescription);
    assert ValidateCategoryForm(rawName, rawDescription) == CombineChecks(name, description);
    assert name.error != Some(FieldError(DescriptionField, DescriptionRule.message));
  }

  /**
   * The name chain checks a minimum of 3, not the 5 its message states: a
   * name of three letters with no surrounding blanks passes.
   */
  lemma ThreeLetterNameAccepted(rawName: string, rawDescription: string)
    requires |rawName| == 3 && !IsWhitespace(rawName[0]) && !IsWhitespace(rawName[2])
    requires 5 <= |Trim(rawDescription)| <= 200
    ensures ValidateCategoryForm(rawName, rawDescription).errors == []
  {
    TrimOfMarginedSlice(rawName, 0, 3);
    assert rawName[0..3] == rawName;
  }

  /**
   * The bounds apply to the trimmed value before it is escaped: a name of
   * fifty `<` passes and is handed on as two hundred characters.
   */
  lemma LengthCheckedBeforeEscape(rawName: string)
    requires |rawName| == 50 && forall k :: 0 <= k < 50 ==> rawName[k] == '<'
    ensures var name := CheckField(NameRule, rawName);
      name.error.None? && |name.value| == 200
  {
    TrimOfUnpadded(rawName);
    EscapeLessThanRun(rawName);
  }

  // ---------------------------------------------------------------------------
  // category_create_post: the decision
  // ---------------------------------------------------------------------------

  /** How the POST handler answers. */
  datatype CreateResponse =
    /** The form re-rendered with the sanitised draft and the errors. */
    | RenderForm(category: Category, errors: seq<FieldError>)
    /** A redirect to the detail page of the category with this id. */
    | Redirect(target: ObjectId)
    /** The save was rejected by the store; the error goes to the error middleware. */
    | Failed(error: StoreError)

  /** The response together with the Category collection after the request. */
  datatype CreateOutcome = CreateOutcome(response: CreateResponse, categories: seq<Category>)

  /**
   * The request handler that runs after the two chains: reject, redirect to a
   * category of the same name, or save the draft and redirect to it. `newId`
   * is the `_id` Mongoose gives the draft document when it is constructed.
   */
  function CreateDecision(categories: seq<Category>, form: CategoryForm, newId: ObjectId): CreateOutcome
  {
    var category := Category(newId, form.name, form.description);
    if form.errors != [] then
      CreateOutcome(RenderForm(category, form.errors), categories)
    else
      match FindBy(categories, CategoryName, form.name)
      case Some(existing) => CreateOutcome(Redirect(existing.id), categories)
      case None =>
        if FindBy(categories, CategoryId, newId).Some? then
          CreateOutcome(Failed(DuplicateKey(newId)), categories)
        else
          CreateOutcome(Redirect(newId), categories + [category])
  }

  /** `category_create_post` as a function of the collection before the request. */
  function CategoryCreate(categories: seq<Category>, rawName: string, rawDescription: string, newId: ObjectId)
    : CreateOutcome
  {
    CreateDecision(categories, ValidateCategoryForm(rawName, rawDescription), newId)
  }

  /** `category_create_post`, run against the shared database. */
  method CategoryCreatePost(db: Database, rawName: string, rawDescription: string, newId: ObjectId)
    returns (response: CreateResponse)
    requires db.Valid()
    modifies db
    ensures db.Valid()
    ensures db.items == old(db.items)
    ensures response == CategoryCreate(old(db.categories), rawName, rawDescription, newId).response
    ensures db.categories == CategoryCreate(old(db.categories), rawName, rawDescription, newId).categories
  {
    var form := ValidateCategoryForm(rawName, rawDescription);
    ghost var before := db.categories;
    ghost var outcome := CreateDecision(before, form, newId);
    assert outcome == CategoryCreate(before, rawName, rawDescription, newId);
    var category := Category(newId, form.name, form.description);
    if form.errors != [] {
      return RenderForm(category, form.errors);
    }
    var existing := FindBy(db.categories, CategoryName, form.name);
    if existing.Some? {
      return Redirect(existing.value.id);
    }
    var error := db.SaveCategory(category);
    assert error.None? <==> FindBy(before, CategoryId, newId).None?;
    if error.Some? {
      return Failed(error.value);
    }
    response := Redirect(category.id);
  }

  // ---------------------------------------------------------------------------
  // What create promises
  // ---------------------------------------------------------------------------

  /** A form with errors is rendered again with its sanitised draft; nothing is written. */
  lemma RejectedFormWritesNothing(categories: seq<Category>, form: CategoryForm, newId: ObjectId)
    requires form.errors != []
    ensures CreateDecision(categories, form, newId)
         == CreateOutcome(RenderForm(Category(newId, form.name, form.description), form.errors), categories)
  {
  }

  /** The handler re-renders the form exactly when validation found errors. */
  lemma RenderedExactlyOnErrors(categories: seq<Category>, form: CategoryForm, newId: ObjectId)
    ensures CreateDecision(categories, form, newId).response.RenderForm? <==> form.errors != []
  {
  }

  /** A valid form whose name is taken redirects to a record of that name and writes nothing. */
  lemma TakenNameRedirectsToExisting(categories: seq<Category>, form: CategoryForm, newId: ObjectId, c: Category)
    requires form.errors == []
    requires c in categories && c.name == form.name
    ensures var o := CreateDecision(categories, form, newId);
      && o.categories == categories
      && o.response.Redirect?
      && exists d :: d in categories && d.id == o.response.target && d.name == form.name
  {
  }

  /** A valid form with a new name and a fresh id inserts exactly one record and redirects to it. */
  lemma NewNameInsertsOne(categories: seq<Category>, form: CategoryForm, newId: ObjectId)
    requires form.errors == []
    requires forall c :: c in categories ==> c.name != form.name && c.id != newId
    ensures CreateDecision(categories, form, newId)
         == CreateOutcome(Redirect(newId), categories + [Category(newId, form.name, form.description)])
  {
  }

  /** Create either writes nothing or appends one record whose name and id were not yet stored. */
  lemma CreateAppendsAtMostOne(categories: seq<Category>, form: CategoryForm, newId: ObjectId)
    ensures var o := CreateDecision(categories, form, newId);
      || o.categories == categories
      || (&& form.errors == []
          && o.response == Redirect(newId)
          && o.categories == categories + [Category(newId, form.name, form.description)]
          && forall c :: c in categories ==> c.name != form.name && c.id != newId)
  {
  }

  /** Create keeps category names unique and category ids unique. */
  lemma {:induction false} CreateKeepsKeysDistinct(categories: seq<Category>, form: CategoryForm, newId: ObjectId)
    ensures var o := CreateDecision(categories, form, newId);
      && (DistinctKeys(categories, CategoryName) ==> DistinctKeys(o.categories, CategoryName))
      && (DistinctKeys(categories, CategoryId) ==> DistinctKeys(o.categories, CategoryId))
  {
    var o := CreateDecision(categories, form, newId);
    CreateAppendsAtMostOne(categories, form, newId);
    if o.categories != categories {
      var n := |categories|;
      forall i | 0 <= i < n
        ensures o.categories[i].name != o.categories[n].name && o.categories[i].id != o.categories[n].id
      {
        assert o.categories[i] == categories[i];
        assert categories[i] in categories;
      }
    }
  }

  /**
   * Submitting the same form twice: the second request redirects to the record
   * the first one redirected to, and writes nothing.
   */
  lemma RepeatedCreateRedirectsToFirst(categories: seq<Category>, form: CategoryForm, firstId: ObjectId,
                                       secondId: ObjectId)
    requires DistinctKeys(categories, CategoryName)
    requires CreateDecision(categories, form, firstId).response.Redirect?
    ensures var first := CreateDecision(categories, form, firstId);
      CreateDecision(first.categories, form, secondId) == CreateOutcome(first.response, first.categories)
  {
    var first := CreateDecision(categories, form, firstId);
    CreateKeepsKeysDistinct(categories, form, firstId);
    var target :| target in first.categories && target.id == first.response.target && target.name == form.name;
    FindByDistinct(first.categories, CategoryName, target);
  }

  /**
   * The whole POST handler on raw input: it re-renders the form exactly when a
   * trimmed field is out of bounds, and then leaves the collection as it was.
   */
  lemma CreateRejectsOutOfBoundFields(categories: seq<Category>, rawName: string, rawDescription: string,
                                      newId: ObjectId)
    ensures var o := CategoryCreate(categories, rawName, rawDescription, newId);
      && (o.response.RenderForm? <==> !(3 <= |Trim(rawName)| <= 50 && 5 <= |Trim(rawDescription)| <= 200))
      && (o.response.RenderForm? ==> o.categories == categories)
  {
    var form := ValidateCategoryForm(rawName, rawDescription);
    RenderedExactlyOnErrors(categories, form, newId);
    if form.errors != [] {
      RejectedFormWritesNothing(categories, form, newId);
    }
  }

  /**
   * What create stores: when the collection changes, it gains one category
   * whose name and description are the raw fields trimmed and then escaped,
   * both within their bounds.
   */
  lemma CreateStoresSanitisedFields(categories: seq<Category>, rawName: string, rawDescription: string,
                                    newId: ObjectId)
    ensures var o := CategoryCreate(categories, rawName, rawDescription, newId);
      || o.categories == categories
      || (&& o.categories == categories + [Category(newId, Escape(Trim(rawName)), Escape(Trim(rawDescription)))]
          && 3 <= |Trim(rawName)| <= 50 && 5 <= |Trim(rawDescription)| <= 200)
  {
    var form := ValidateCategoryForm(rawName, rawDescription);
    assert CategoryCreate(categories, rawName, rawDescription, newId) == CreateDecision(categories, form, newId);
    CreateAppendsAtMostOne(categories, form, newId);
  }
}
