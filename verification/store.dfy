/**
 * The record store: the Category and Item collections, the queries the
 * handlers issue against them (find by a key, filter, sort by name, count)
 * and the one write the core performs, saving a new category.
 */
module Store {

  import opened Wrappers
  import opened Text
  import opened ObjectIds
  import opened ItemModel

  /** A stored category. */
  datatype Category = Category(id: ObjectId, name: string, description: string)

  /** Why the store refused a write. */
  datatype StoreError = DuplicateKey(id: ObjectId)

  function CategoryId(c: Category): ObjectId { c.id }
  function CategoryName(c: Category): string { c.name }
  function ItemId(item: Item): ObjectId { item.id }
  function ItemName(item: Item): string { item.name }
  function ItemCategory(item: Item): ObjectId { item.category }

  /** No two records of `s` share a key (the `_id` index of a collection). */
  predicate DistinctKeys<T, K(==)>(s: seq<T>, key: T -> K) {
    forall i, j :: 0 <= i < j < |s| ==> key(s[i]) != key(s[j])
  }

  /** `findById` / `findOne`: some stored record whose key is `k`, if there is one. */
  function FindBy<T, K(==)>(s: seq<T>, key: T -> K, k: K): (r: Option<T>)
    ensures r.Some? ==> r.value in s && key(r.value) == k
    ensures r.None? <==> forall x :: x in s ==> key(x) != k
  {
    if s == [] then None
    else if key(s[0]) == k then Some(s[0])
    else FindBy(s[1..], key, k)
  }

  /** When keys are distinct, the record a lookup finds is the one that has the key. */
  lemma {:induction false} FindByDistinct<T, K>(s: seq<T>, key: T -> K, x: T)
    requires DistinctKeys(s, key) && x in s
    ensures FindBy(s, key, key(x)) == Some(x)
  {
    if s[0] != x {
      assert x in s[1..];
      var k :| 0 <= k < |s| - 1 && s[1..][k] == x;
      assert key(s[0]) != key(s[k + 1]);
      FindByDistinct(s[1..], key, x);
    }
  }

  /** When keys are distinct, every stored record occurs exactly once. */
  lemma {:induction false} DistinctKeysOccurOnce<T, K>(s: seq<T>, key: T -> K, x: T)
    requires DistinctKeys(s, key) && x in s
    ensures multiset(s)[x] == 1
  {
    assert s == [s[0]] + s[1..];
    var tail := s[1..];
    if s[0] == x {
      forall k | 0 <= k < |tail| ensures tail[k] != x {
        assert key(s[0]) != key(s[k + 1]);
      }
      assert x !in multiset(tail);
    } else {
      assert x in tail;
      assert DistinctKeys(tail, key) by {
        forall i, j | 0 <= i < j < |tail| ensures key(tail[i]) != key(tail[j]) {
          assert tail[i] == s[i + 1] && tail[j] == s[j + 1];
        }
      }
      DistinctKeysOccurOnce(tail, key, x);
    }
  }

  /** The keys the records of `s` carry. */
  ghost function KeySet<T, K>(s: seq<T>, key: T -> K): set<K> {
    set x | x in s :: key(x)
  }

  /** When keys are distinct, a collection holds as many records as it has keys. */
  lemma {:induction false} DistinctKeysCount<T, K>(s: seq<T>, key: T -> K)
    requires DistinctKeys(s, key)
    ensures |KeySet(s, key)| == |s|
  {
    if s != [] {
      var tail := KeySet(s[1..], key);
      DistinctKeysCount(s[1..], key);
      forall x | x in s[1..] ensures key(x) != key(s[0]) {
        var k :| 0 <= k < |s| - 1 && s[1..][k] == x;
        assert key(s[0]) != key(s[k + 1]);
      }
      assert KeySet(s, key) == {key(s[0])} + tail by {
        assert forall x :: x in s ==> x == s[0] || x in s[1..];
      }
    }
  }

  /** `find({field: k})`: the stored records whose key is `k`, in store order. */
  function FilterBy<T, K(==)>(s: seq<T>, key: T -> K, k: K): (r: seq<T>)
    ensures |r| <= |s|
    ensures forall x :: x in r ==> x in s && key(x) == k
    ensures forall x :: x in s && key(x) == k ==> x in r
    ensures forall x :: x in s ==> multiset(r)[x] == if key(x) == k then multiset(s)[x] else 0
  {
    if s == [] then []
    else
      var rest := FilterBy(s[1..], key, k);
      assert forall x :: x in s ==> x == s[0] || x in s[1..];
      assert s == [s[0]] + s[1..];
      assert multiset(s) == multiset{s[0]} + multiset(s[1..]);
      if key(s[0]) == k then [s[0]] + rest else rest
  }

  // ---------------------------------------------------------------------------
  // sort({name: 1})
  // ---------------------------------------------------------------------------

  predicate SortedBy<T>(s: seq<T>, key: T -> string) {
    forall i, j :: 0 <= i < j < |s| ==> LexLe(key(s[i]), key(s[j]))
  }

  function InsertBy<T>(x: T, s: seq<T>, key: T -> string): (r: seq<T>)
    ensures multiset(r) == multiset(s) + multiset{x}
  {
    if s == [] then [x]
    else if LexLe(key(x), key(s[0])) then [x] + s
    else
      assert s == [s[0]] + s[1..];
      [s[0]] + InsertBy(x, s[1..], key)
  }

  /** A record no greater than any record of a sorted sequence can go in front of it. */
  lemma PrependSorted<T>(h: T, s: seq<T>, key: T -> string)
    requires SortedBy(s, key)
    requires forall y :: y in s ==> LexLe(key(h), key(y))
    ensures SortedBy([h] + s, key)
  {
    var r := [h] + s;
    forall i, j | 0 <= i < j < |r| ensures LexLe(key(r[i]), key(r[j])) {
      assert r[j] == s[j - 1];
      if i > 0 { assert r[i] == s[i - 1]; }
    }
  }

  /** In a sorted sequence the first record is no greater than any other. */
  lemma HeadIsLeast<T>(x: T, s: seq<T>, key: T -> string)
    requires SortedBy(s, key) && s != []
    requires LexLe(key(x), key(s[0]))
    ensures forall y :: y in s ==> LexLe(key(x), key(y))
  {
    forall y | y in s ensures LexLe(key(x), key(y)) {
      var k :| 0 <= k < |s| && s[k] == y;
      if k > 0 { LexLeTransitive(key(x), key(s[0]), key(s[k])); }
    }
  }

  /** Inserting a record that sorts after `h` keeps `h` no greater than everything. */
  lemma InsertKeepsLowerBound<T>(h: T, x: T, s: seq<T>, key: T -> string)
    requires forall y :: y in s ==> LexLe(key(h), key(y))
    requires LexLe(key(h), key(x))
    ensures forall y :: y in InsertBy(x, s, key) ==> LexLe(key(h), key(y))
  {
    var r := InsertBy(x, s, key);
    forall y | y in r ensures LexLe(key(h), key(y)) {
      assert y in multiset(r);
      if y != x {
        assert y in multiset(s);
      }
    }
  }

  lemma {:induction false} InsertBySorted<T>(x: T, s: seq<T>, key: T -> string)
    requires SortedBy(s, key)
    ensures SortedBy(InsertBy(x, s, key), key)
  {
    if s == [] {
    } else if LexLe(key(x), key(s[0])) {
      HeadIsLeast(x, s, key);
      PrependSorted(x, s, key);
    } else {
      var tail := s[1..];
      assert SortedBy(tail, key);
      InsertBySorted(x, tail, key);
      LexLeTotal(key(x), key(s[0]));
      forall y | y in tail ensures LexLe(key(s[0]), key(y)) {
        var k :| 0 <= k < |tail| && tail[k] == y;
        assert s[k + 1] == y;
      }
      InsertKeepsLowerBound(s[0], x, tail, key);
      PrependSorted(s[0], InsertBy(x, tail, key), key);
    }
  }

  /** The records of `s` ordered by ascending name. */
  function SortBy<T>(s: seq<T>, key: T -> string): (r: seq<T>)
    ensures multiset(r) == multiset(s)
    ensures SortedBy(r, key)
  {
    if s == [] then []
    else
      var rest := SortBy(s[1..], key);
      InsertBySorted(s[0], rest, key);
      assert s == [s[0]] + s[1..];
      InsertBy(s[0], rest, key)
  }

  // ---------------------------------------------------------------------------
  // The database
  // ---------------------------------------------------------------------------

  /** What the two collections always satisfy: unique ids, and items that passed the schema. */
  predicate Consistent(categories: seq<Category>, items: seq<Item>) {
    && DistinctKeys(categories, CategoryId)
    && DistinctKeys(items, ItemId)
    && forall item :: item in items ==> Conforms(DocOf(item))
  }

  /** The database the handlers share: the Category and Item collections. */
  class Database {
    var categories: seq<Category>
    var items: seq<Item>

    ghost predicate Valid()
      reads this
    {
      Consistent(categories, items)
    }

    /** A database already holding the given records. */
    constructor (categories: seq<Category>, items: seq<Item>)
      requires Consistent(categories, items)
      ensures Valid()
      ensures this.categories == categories && this.items == items
    {
      this.categories := categories;
      this.items := items;
    }

    /**
     * `category.save()` for a new document: inserted at the end of the
     * collection unless its `_id` is already taken.
     */
    method SaveCategory(c: Category) returns (error: Option<StoreError>)
      requires Valid()
      modifies this
      ensures Valid()
      ensures items == old(items)
      ensures error.None? <==> forall d :: d in old(categories) ==> d.id != c.id
      ensures error.None? ==> categories == old(categories) + [c]
      ensures error.Some? ==> error.value == DuplicateKey(c.id) && categories == old(categories)
    {
      var existing := FindBy(categories, CategoryId, c.id);
      if existing.Some? {
        return Some(DuplicateKey(c.id));
      }
      forall i | 0 <= i < |categories| ensures categories[i].id != c.id {
        assert categories[i] in categories;
      }
      categories := categories + [c];
      error := None;
    }
  }
}
