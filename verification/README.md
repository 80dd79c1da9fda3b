# arpg-shop: the catalogue handlers in Dafny

arpg-shop is an Express/Mongoose web shop. It keeps two collections, categories and items,
and serves pages that list, show and create them. This project models the decision logic of
its request handlers, run against an abstract record store:

- `text.dfy`: module `Text`. It holds the sanitisers the category form runs:
  - `trim` uses JavaScript's `\s` character set;
  - `escape` uses validator.js's eight HTML entities;
  - `Unescape` is its inverse, used only to state that escaping loses nothing.

  It also holds the string order MongoDB uses when sorting without a collation: lexicographic
  on code points.
- `object_ids.dfy`: module `ObjectIds`. An ObjectId is a 96-bit number. Its string form is 24
  lower-case hex digits. Casting a route parameter accepts exactly the strings of 24 hex
  digits, in either case.
- `item_model.dfy`: module `ItemModel`. It holds the Item schema as a predicate (`Conforms`),
  Mongoose's per-path validation errors and the `url` virtual.
- `store.dfy`: module `Store`. It holds the Category record and the queries the handlers issue:
  find by a key, filter by a key, sort by name and count. The `Database` class holds both
  collections. Its `SaveCategory` method is the one write the core performs.
- `http.dfy`: module `Http`. It holds the errors handed to `next(err)`.
- `category_controller.dfy`: module `CategoryController`. It models `category_list`,
  `category_detail` and `category_create_post`. The create handler has three parts:
  - the two validation chains (`ValidateCategoryForm`);
  - the handler body (`CreateDecision`);
  - the pipeline that joins them (`CategoryCreate`).

  `CategoryCreatePost` is the imperative handler. It runs against a `Database` and is proved
  equal to `CategoryCreate`.
- `item_controller.dfy`: module `ItemController`. It models `index`, `item_list` and
  `item_detail`.

The read handlers are functions of a snapshot of the two collections. So by construction none
of them writes to the store. The handlers await their queries one after another. The model
runs them in that order, and it runs the two queries of a `Promise.all` in sequence.

Some behaviour of the code is easy to misread; the model follows the code as written:

- The name chain of `category_create_post` accepts a trimmed name of 3 to 50 characters. Its
  message says "between 5 and 50" (controllers/categoryController.js:43-45).
  `ThreeLetterNameAccepted` shows a three-letter name passing.
- The Item schema puts no minimum length on `name` or `description`. It only requires them to
  be present and non-empty, with maximum lengths of 50 and 200. It does not make item names
  unique.
- `item_detail` reports a missing item with the message "Category not found" and status 404.
- A route id that is not 24 hex digits is not a 404. Mongoose raises a CastError, and the
  handler forwards it with no status of its own (`Http.CastError`).

## Model

| member | source | states |
|---|---|---|
| `Text.Trim` | controllers/categoryController.js:44 | the trimmed name has no JavaScript whitespace at either end and is no longer than the input |
| `Text.TrimIsTrimming` | controllers/categoryController.js:44 | what `trim` returns is a slice of the input whose cut-off margins are all whitespace |
| `Text.TrimmingIsTrim` | controllers/categoryController.js:51 | such a slice is unique: any slice with whitespace margins and non-blank ends is what `trim` returns |
| `Text.TrimIdempotent` | controllers/categoryController.js:51 | trimming an already trimmed value changes nothing |
| `Text.Escape` | controllers/categoryController.js:46 | the escaped value holds no `"`, `'`, `<`, `>`, `/`, `\` or backquote (only `&` entities), and it equals the input exactly when the input has no markup character |
| `Text.EscapeLengthBound` | controllers/categoryController.js:53 | escaping never shortens a value and at most sextuples its length |
| `Text.UnescapeEscape` | controllers/categoryController.js:46 | escaping loses nothing: decoding the entities gives back the trimmed input |
| `Text.LexLeTotal` | controllers/categoryController.js:9 | any two names are comparable in the sort order |
| `Text.LexLeTransitive` | controllers/categoryController.js:9 | the sort order is transitive |
| `Text.LexLeAntisymmetric` | controllers/categoryController.js:9 | two names that sort on both sides of each other are equal |
| `ObjectIds.FromHexToHex` | models/item.js:14 | reading back the hex digits of a number gives the number |
| `ObjectIds.CastObjectId` | controllers/categoryController.js:19 | a route id casts to an ObjectId exactly when it is 24 hexadecimal digits |
| `ObjectIds.CastIdToString` | models/item.js:14 | an id's string form casts back to that id |
| `ObjectIds.IdToStringInjective` | models/item.js:14 | distinct ids have distinct string forms |
| `ItemModel.ValidationErrors` | models/item.js:5-11 | an item document has no validation error exactly when it conforms to the schema; each path is reported exactly when its own constraint fails (name present, non-empty, at most 50; description likewise, at most 200; category present; price and stock present and at least 1). A path is reported as Required exactly when its value is missing. A present but invalid name or description is reported as MaxLength(50) or MaxLength(200), and a present but invalid price or stock as Min(1) |
| `ItemModel.Url` | models/item.js:13-15 | an item's url is `/item/` followed by the 24 hex digits of its id |
| `ItemModel.UrlNamesItem` | models/item.js:13-15 | the `/item/:id` route reads the item's own id back out of its url |
| `ItemModel.UrlDeterminesId` | models/item.js:13-15 | two items share a url exactly when they share an id |
| `Store.FindBy` | controllers/itemController.js:30 | a lookup returns a stored record with the requested key, and returns none exactly when no stored record has it |
| `Store.FindByDistinct` | controllers/categoryController.js:19 | with unique keys, looking up a record's key returns that record |
| `Store.FilterBy` | controllers/categoryController.js:20 | a filter returns exactly the stored records whose key matches, each as often as it is stored, and no other record |
| `Store.SortBy` | controllers/itemController.js:21 | sorting by name gives a permutation of the collection ordered by ascending name |
| `Store.DistinctKeysCount` | controllers/itemController.js:9-10 | with unique ids, a collection holds as many documents as it has ids |
| `Store.Database.SaveCategory` | controllers/categoryController.js:82 | saving appends the new category unless its `_id` is taken. A taken id gives a duplicate-key error and no change. Ids stay unique and items are untouched |
| `CategoryController.CategoryList` | controllers/categoryController.js:9-13 | the list holds every stored category, each as often as stored, in ascending name order |
| `CategoryController.CategoryDetail` | controllers/categoryController.js:17-33 | a malformed id is a CastError. A well-formed id no category has gives a 404 "Category not found" and renders nothing. Otherwise the page shows the category with that id, and its list holds the projection of every item filed under that id and nothing else |
| `CategoryController.SummarizeAll` | controllers/categoryController.js:20 | the projection keeps one summary per item, every item's summary appears, and every summary comes from one of the items |
| `CategoryController.SummaryCount` | controllers/categoryController.js:20 | when no other item shares an item's id, the projection lists that item's summary exactly as often as the item occurs |
| `Store.DistinctKeysOccurOnce` | controllers/categoryController.js:20 | with unique keys, each stored record occurs exactly once in the collection |
| `CategoryController.DetailOfStoredCategory` | controllers/categoryController.js:18-32 | the page of a stored category, reached by its id's string form, is rendered and lists the projection of the items filed under that id |
| `CategoryController.DetailListsExactlyItsItems` | controllers/categoryController.js:18-32 | with unique item ids, a stored category's page lists each item filed under that category exactly once, and lists no other item |
| `CategoryController.CheckField` | controllers/categoryController.js:43-53 | a chain reports its error exactly when the trimmed value is outside the bounds, and hands on the trimmed value escaped, which decodes back to the trimmed input |
| `CategoryController.ValidateCategoryForm` | controllers/categoryController.js:43-56 | the form has no error exactly when the trimmed name is 3 to 50 and the trimmed description 5 to 200 characters long. The name and description handed on are the trimmed raw fields escaped, and they decode back to the trimmed inputs |
| `CategoryController.FormErrorsInChainOrder` | controllers/categoryController.js:43-56 | the error list is exactly the name message, then the description message, each present exactly when its trimmed field is out of bounds |
| `CategoryController.NameErrorReported` | controllers/categoryController.js:43-46 | the name message is reported exactly when the trimmed name is outside 3 to 50 |
| `CategoryController.DescriptionErrorReported` | controllers/categoryController.js:47-53 | the description message is reported exactly when the trimmed description is outside 5 to 200, independently of the name |
| `CategoryController.ThreeLetterNameAccepted` | controllers/categoryController.js:43-45 | a three-letter name without surrounding blanks passes, although the message asks for 5 |
| `CategoryController.LengthCheckedBeforeEscape` | controllers/categoryController.js:43-46 | the name chain checks its bound before escaping: fifty `<` pass the check and are handed on as a 200-character name |
| `CategoryController.RenderedExactlyOnErrors` | controllers/categoryController.js:64-71 | the handler re-renders the form exactly when validation found errors |
| `CategoryController.RejectedFormWritesNothing` | controllers/categoryController.js:59-71 | with errors, the form is re-rendered with the sanitised draft and the errors, and the collection is unchanged |
| `CategoryController.TakenNameRedirectsToExisting` | controllers/categoryController.js:75-80 | a valid form whose sanitised name is stored redirects to a stored category of that name, and nothing is written |
| `CategoryController.NewNameInsertsOne` | controllers/categoryController.js:81-85 | a valid form with a new name and a fresh id appends exactly that one category and redirects to it |
| `CategoryController.CreateAppendsAtMostOne` | controllers/categoryController.js:72-86 | create either leaves the collection as it was, or appends one valid draft whose name and id were not yet stored |
| `CategoryController.CreateKeepsKeysDistinct` | controllers/categoryController.js:75-85 | create never introduces a second category with the same name, nor a second with the same id |
| `CategoryController.RepeatedCreateRedirectsToFirst` | controllers/categoryController.js:75-85 | submitting the same form again redirects to the category the first submission led to, and writes nothing |
| `CategoryController.CreateRejectsOutOfBoundFields` | controllers/categoryController.js:41-71 | on raw input, the handler re-renders exactly when a trimmed field is out of bounds, and then the store is unchanged |
| `CategoryController.CreateStoresSanitisedFields` | controllers/categoryController.js:43-85 | on raw input, create either leaves the collection as it was, or appends one category whose name and description are the raw fields trimmed and then escaped, both within their bounds |
| `CategoryController.CategoryCreatePost` | controllers/categoryController.js:41-88 | the imperative handler answers and leaves the Category collection as `CategoryCreate` says, leaves items untouched and keeps the database consistent |
| `ItemController.Index` | controllers/itemController.js:7-17 | the counts are the numbers of stored items and categories, which with unique ids are the numbers of distinct ids |
| `ItemController.ItemList` | controllers/itemController.js:20-26 | the list holds every stored item, each as often as stored, in ascending name order |
| `ItemController.Populate` | controllers/itemController.js:30 | populating replaces the category reference with a stored category of that id. It is null exactly when no category has that id, and every other field is kept |
| `ItemController.ItemDetail` | controllers/itemController.js:29-41 | a malformed id is a CastError. A well-formed id no item has gives a 404 and renders nothing. Otherwise the page shows a stored item with that id, its category populated |
| `ItemController.DetailOfUrlShowsItem` | controllers/itemController.js:29-40 | with unique ids, following a stored item's url shows that very item with its category resolved |

## Left out

- Routing (routes/category.js, routes/item.js, routes/index.js): it only wires URLs to handlers. The delete, update and item-create handlers it names do not exist in the controllers, so they are not part of this model.
- `category_create_get` only renders an empty form.
- The seed script populatedb.js: it handles command-line arguments, opens a connection and runs parallel inserts. It has no decision logic.
- models/category.js is not part of this model. The Category schema's own constraints and its `url` virtual are not modelled. A create redirect carries the target category's id.
- Template rendering, page titles, the redirect transport and `console.log` are not modelled.
- Concurrency is not modelled. The two queries of each `Promise.all` run in sequence. The race between `findOne` and `save` in create is absent because requests run one at a time.
- ObjectId generation is not modelled. The id Mongoose gives the draft category is the `newId` parameter.
- The CastError's message text is not modelled, only the offending value.
- Casting a 12-character string to an ObjectId, which some bson versions accept, is not modelled.
- Store failures other than a duplicate `_id` are not modelled, for example a lost connection.
- Missing body fields are not modelled separately. The model treats them as empty strings, which fail the length checks just the same.
- Non-string body values are not modelled.
- An express-validator error entry keeps only its field and message. Its `value`, `type` and `location` are dropped.
- Lengths are counted in code points. The form's `isLength` check (validator.js) also counts code points, but it does not count the variation selectors U+FE0E and U+FE0F. The model counts them, so a category field holding them can fail in the model and pass in the source.
- Mongoose's `maxLength` on the Item schema counts UTF-16 code units. The model counts code points, so an item name or description with characters outside the Basic Multilingual Plane can pass in the model and fail in the source.
- Item prices and stocks are exact reals. JavaScript floating point, NaN, and casting form strings to numbers are not modelled.
- Store.FindBy: it does not say which of several matching records `findOne` returns. MongoDB's natural order is unspecified, so the model states only that some matching record is returned.
- CategoryController.CategoryDetail: its own contract states which items are listed, not how often or in what order. `DetailListsExactlyItsItems` adds that, with unique item ids, each is listed exactly once. The order is MongoDB's natural order, which is unspecified.
- Store.SortBy: it does not fix the order among records with equal names. The model's sort is stable, but MongoDB promises no tie order.
