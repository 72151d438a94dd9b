/** The in-memory product store: an insertion-ordered list of products with
    a null-checked add, a validating add, lookup by id, three list queries
    and an upsert by id. The store is a value; each mutating operation
    returns the store it leaves behind together with the exception it threw,
    if any. */
module Warehouse {
  import opened Wrappers
  import opened Products
  import opened Seqs
  import opened NameOrder
  import opened NameSort

  type Store = seq<Product>

  /** The exceptions the store throws, one per distinct failure. */
  datatype Error =
    | NullProduct      // NullPointerException from addProduct
    | InvalidId        // IllegalArgumentException: id not positive
    | InvalidRating    // IllegalArgumentException: rating outside 0..10
    | MissingName      // IllegalArgumentException: name null or empty
    | MissingCategory  // IllegalArgumentException: category null
    | NotFound         // ProductNotFoundException from findProductById

  /** What a mutating call leaves behind: the store afterwards, and the
      exception it threw, if any. */
  datatype Response = Response(store: Store, error: Option<Error>)

  /** Selects the products with the given id. */
  function HasId(id: int): Product -> bool {
    (q: Product) => q.id == id
  }

  /** Selects the products whose id differs from the given one. */
  function OtherId(id: int): Product -> bool {
    (q: Product) => q.id != id
  }

  /** Selects the products of one category. */
  function InCategory(c: Category): Product -> bool {
    (q: Product) => q.category == c
  }

  /** Selects the products created on or after `d`. */
  function CreatedFrom(d: Date): Product -> bool {
    (q: Product) => !IsBefore(q.createdDate, d)
  }

  /** Selects the products whose two dates differ. */
  const Modified: Product -> bool := (q: Product) => q.createdDate != q.lastModifiedDate

  /** How many products in `s` carry `id`. */
  function CountWithId(s: Store, id: int): nat {
    |Filter(s, HasId(id))|
  }

  // ---------------------------------------------------------------------
  // Snapshot and add

  /** `getProducts`: the current contents. A Dafny sequence is a value, so
      the copy the source makes is implicit. */
  function GetProducts(s: Store): seq<Product> {
    s
  }

  /** `addProduct`: rejects a null product and otherwise appends it at the
      end, with no check that its id is new. */
  function AddProduct(s: Store, product: Option<Product>): (r: Response)
    ensures r.error.Some? <==> product.None?
    ensures product.None? ==> r.error == Some(NullProduct) && r.store == s
    ensures product.Some? ==>
      && |r.store| == |s| + 1
      && r.store[..|s|] == s
      && r.store[|s|] == product.value
  {
    match product
    case None => Response(s, Some(NullProduct))
    case Some(p) => Response(s + [p], None)
  }

  /** Adds the products one after another, as a caller of `addProduct` would. */
  function AddAll(s: Store, ps: seq<Product>): Store
    decreases |ps|
  {
    if |ps| == 0 then s
    else AddAll(AddProduct(s, Some(ps[0])).store, ps[1..])
  }

  /** Adding products one by one and then taking a snapshot gives back
      exactly those products, in the order they were added. */
  lemma {:induction false} AddAllThenSnapshot(s: Store, ps: seq<Product>)
    ensures GetProducts(AddAll(s, ps)) == s + ps
    decreases |ps|
  {
    if |ps| > 0 {
      AddAllThenSnapshot(s + [ps[0]], ps[1..]);
      assert s + [ps[0]] + ps[1..] == s + ps;
    }
  }

  /** No uniqueness check: every add raises the count of its id by one. */
  lemma AddProductAllowsDuplicateIds(s: Store, p: Product)
    ensures CountWithId(AddProduct(s, Some(p)).store, p.id) == CountWithId(s, p.id) + 1
  {
    FilterConcat(s, [p], HasId(p.id));
  }

  // ---------------------------------------------------------------------
  // Validating add

  /** Every rule the fields break, in the order the source checks them. */
  function Violations(id: int, name: Option<string>, category: Option<Category>, rating: int): seq<Error> {
    (if id <= 0 then [InvalidId] else [])
    + (if rating < 0 || rating > 10 then [InvalidRating] else [])
    + (if name.None? || |name.value| == 0 then [MissingName] else [])
    + (if category.None? then [MissingCategory] else [])
  }

  /** `verifyProduct`: checks id, then rating, then name, then category,
      throws on the first violation, and otherwise builds the product and
      adds it. */
  function VerifyProduct(
    s: Store, id: int, name: Option<string>, category: Option<Category>,
    rating: int, createdDate: Date, lastModifiedDate: Date): (r: Response)
    ensures var v := Violations(id, name, category, rating);
      if |v| == 0 then
        && r.error.None?
        && r.store == s + [Product(id, name.value, category.value, rating, createdDate, lastModifiedDate)]
      else
        r.error == Some(v[0]) && r.store == s
    ensures r.error.Some? ==> r.store == s
    ensures id <= 0 ==> r.error == Some(InvalidId)
    ensures id > 0 && (rating < 0 || rating > 10) ==> r.error == Some(InvalidRating)
    ensures id > 0 && 0 <= rating <= 10 && (name.None? || name.value == "") ==> r.error == Some(MissingName)
    ensures id > 0 && 0 <= rating <= 10 && name.Some? && name.value != "" && category.None? ==>
      r.error == Some(MissingCategory)
  {
    if id <= 0 then Response(s, Some(InvalidId))
    else if rating < 0 || rating > 10 then Response(s, Some(InvalidRating))
    else if name.None? || |name.value| == 0 then Response(s, Some(MissingName))
    else if category.None? then Response(s, Some(MissingCategory))
    else
      var product := Product(id, name.value, category.value, rating, createdDate, lastModifiedDate);
      AddProduct(s, Some(product))
  }

  /** Both ends of the rating range are accepted. */
  lemma VerifyProductAcceptsRatingBounds(
    s: Store, id: int, name: string, category: Category, rating: int, created: Date, modified: Date)
    requires id > 0 && |name| > 0 && (rating == 0 || rating == 10)
    ensures VerifyProduct(s, id, Some(name), Some(category), rating, created, modified)
         == Response(s + [Product(id, name, category, rating, created, modified)], None)
  {
  }

  // ---------------------------------------------------------------------
  // Lookup by id

  /** Position of the first product carrying `id`, or `|s|` when none does. */
  function FirstIndexWithId(s: Store, id: int): (k: nat)
    ensures k <= |s|
    ensures forall j :: 0 <= j < k ==> s[j].id != id
    ensures k < |s| ==> s[k].id == id
  {
    if |s| == 0 then 0
    else if s[0].id == id then 0
    else 1 + FirstIndexWithId(s[1..], id)
  }

  /** `findProductById`: the first product in store order with the id, or
      NotFound. */
  function FindProductById(s: Store, id: int): (r: Result<Product, Error>)
    ensures r.Failure? <==> forall q :: q in s ==> q.id != id
    ensures r.Failure? ==> r.error == NotFound
    ensures r.Success? ==>
      exists k :: 0 <= k < |s| && s[k] == r.value && r.value.id == id
        && forall j :: 0 <= j < k ==> s[j].id != id
  {
    var k := FirstIndexWithId(s, id);
    if k < |s| then Success(s[k]) else Failure(NotFound)
  }

  /** A lookup over two stores laid end to end answers from the first when it
      can: an earlier product shadows a later one with the same id. */
  lemma {:induction false} FindInConcat(a: Store, b: Store, id: int)
    ensures FindProductById(a + b, id)
         == if FindProductById(a, id).Success? then FindProductById(a, id) else FindProductById(b, id)
  {
    if |a| > 0 {
      FindInConcat(a[1..], b, id);
      assert (a + b)[1..] == a[1..] + b;
    } else {
      assert a + b == b;
    }
  }

  /** After an add, the lookup finds the new product unless an earlier one
      already had its id, in which case the answer is unchanged. */
  lemma AddThenFind(s: Store, p: Product)
    ensures FindProductById(AddProduct(s, Some(p)).store, p.id)
         == if FindProductById(s, p.id).Success? then FindProductById(s, p.id) else Success(p)
  {
    FindInConcat(s, [p], p.id);
  }

  // ---------------------------------------------------------------------
  // Queries

  /** Two sequences with the same multiset hold the same elements. */
  lemma SameMultisetSameMembers(a: seq<Product>, b: seq<Product>)
    requires multiset(a) == multiset(b)
    ensures forall i :: 0 <= i < |a| ==> a[i] in b
  {
    forall i | 0 <= i < |a|
      ensures a[i] in b
    {
      assert a[i] in multiset(a);
    }
  }

  /** `filterProductsByCategory`: the products of category `c`, sorted by name. */
  function FilterProductsByCategory(s: Store, c: Category): (r: seq<Product>)
    ensures forall i :: 0 <= i < |r| ==> r[i].category == c
    ensures forall q: Product :: multiset(r)[q] == if q.category == c then multiset(s)[q] else 0
    ensures SortedByName(r)
  {
    var selected := Filter(s, InCategory(c));
    FilterCounts(s, InCategory(c));
    var r := SortByName(selected);
    SameMultisetSameMembers(r, selected);
    r
  }

  /** Products of category `c` that share a name appear in store order. */
  lemma FilterProductsByCategoryStable(s: Store, c: Category, n: string)
    ensures Filter(FilterProductsByCategory(s, c), Named(n)) == Filter(Filter(s, InCategory(c)), Named(n))
  {
    SortByNameStable(Filter(s, InCategory(c)), n);
  }

  /** `findProductsFromCreatedDate`: the products created on or after `d`. */
  function FindProductsFromCreatedDate(s: Store, d: Date): (r: seq<Product>)
    ensures forall i :: 0 <= i < |r| ==> r[i].createdDate >= d
    ensures forall q :: q in r <==> q in s && q.createdDate >= d
    ensures forall q: Product :: multiset(r)[q] == if q.createdDate >= d then multiset(s)[q] else 0
  {
    FilterCounts(s, CreatedFrom(d));
    Filter(s, CreatedFrom(d))
  }

  /** The date query keeps store order: it works piecewise over any split. */
  lemma FindProductsFromCreatedDateOrder(a: Store, b: Store, d: Date)
    ensures FindProductsFromCreatedDate(a + b, d)
         == FindProductsFromCreatedDate(a, d) + FindProductsFromCreatedDate(b, d)
  {
    FilterConcat(a, b, CreatedFrom(d));
  }

  /** Asking again from a date no earlier than the first narrows the answer
      as if the second date had been asked directly; with the same date, the
      answer is unchanged. */
  lemma FindProductsFromCreatedDateNarrows(s: Store, d1: Date, d2: Date)
    requires d1 <= d2
    ensures FindProductsFromCreatedDate(FindProductsFromCreatedDate(s, d1), d2)
         == FindProductsFromCreatedDate(s, d2)
  {
    FilterNarrow(s, CreatedFrom(d2), CreatedFrom(d1));
  }

  lemma FindProductsFromCreatedDateIdempotent(s: Store, d: Date)
    ensures FindProductsFromCreatedDate(FindProductsFromCreatedDate(s, d), d)
         == FindProductsFromCreatedDate(s, d)
  {
    FilterIdempotent(s, CreatedFrom(d));
  }

  /** The filter inside `findAndPrintMismatchedProducts`: the products whose
      created and last-modified dates differ. */
  function FindModifiedProducts(s: Store): (r: seq<Product>)
    ensures forall i :: 0 <= i < |r| ==> r[i].createdDate != r[i].lastModifiedDate
    ensures forall q: Product :: multiset(r)[q] == if q.createdDate != q.lastModifiedDate then multiset(s)[q] else 0
    ensures r == [] <==> forall q :: q in s ==> q.createdDate == q.lastModifiedDate
  {
    FilterCounts(s, Modified);
    Filter(s, Modified)
  }

  /** The modified-product query keeps store order. */
  lemma FindModifiedProductsOrder(a: Store, b: Store)
    ensures FindModifiedProducts(a + b) == FindModifiedProducts(a) + FindModifiedProducts(b)
  {
    FilterConcat(a, b, Modified);
  }

  // ---------------------------------------------------------------------
  // Update

  /** `updateProductInWarehouse`: removes every product with the id, then
      appends the new one. */
  function UpdateProductInWarehouse(s: Store, p: Product): (r: Store)
    ensures |r| > 0 && r[|r| - 1] == p
    ensures forall i :: 0 <= i < |r| - 1 ==> r[i].id != p.id
    ensures forall q: Product :: q.id != p.id ==> multiset(r)[q] == multiset(s)[q]
  {
    var kept := Filter(s, OtherId(p.id));
    FilterCounts(s, OtherId(p.id));
    assert forall i :: 0 <= i < |kept| ==> (kept + [p])[i] == kept[i];
    assert multiset(kept + [p]) == multiset(kept) + multiset{p};
    kept + [p]
  }

  /** The counts behind the update: the kept products are all those with
      another id, and none of them carries `p.id`. */
  lemma UpdateCounts(s: Store, p: Product)
    ensures CountWithId(Filter(s, OtherId(p.id)) + [p], p.id) == 1
    ensures |Filter(s, OtherId(p.id))| == |s| - CountWithId(s, p.id)
  {
    var kept := Filter(s, OtherId(p.id));
    FilterPartition(s, OtherId(p.id), HasId(p.id));
    FilterConcat(kept, [p], HasId(p.id));
    FilterCounts(kept, HasId(p.id));
    assert Filter(kept, HasId(p.id)) == [];
  }

  /** After an update exactly one product carries the updated id. */
  lemma UpdateLeavesOneWithId(s: Store, p: Product)
    ensures CountWithId(UpdateProductInWarehouse(s, p), p.id) == 1
  {
    UpdateCounts(s, p);
  }

  /** The update removes every product with the id and adds one. */
  lemma UpdateLength(s: Store, p: Product)
    ensures |UpdateProductInWarehouse(s, p)| == |s| - CountWithId(s, p.id) + 1
  {
    UpdateCounts(s, p);
  }

  /** When no product had the id, the update is an append. */
  lemma UpdateActsAsAppendWhenAbsent(s: Store, p: Product)
    requires forall q :: q in s ==> q.id != p.id
    ensures UpdateProductInWarehouse(s, p) == s + [p]
  {
    FilterKeepsAll(s, OtherId(p.id));
  }

  /** Every selection of products the update does not touch sees the same
      sequence before and after it: the other products keep their relative
      order. */
  lemma UpdateKeepsOthersInOrder(s: Store, p: Product, keep: Product -> bool)
    requires !keep(p)
    requires forall i :: 0 <= i < |s| && keep(s[i]) ==> s[i].id != p.id
    ensures Filter(UpdateProductInWarehouse(s, p), keep) == Filter(s, keep)
  {
    var kept := Filter(s, OtherId(p.id));
    FilterConcat(kept, [p], keep);
    FilterNarrow(s, keep, OtherId(p.id));
  }

  /** A lookup right after an update finds the updated product. */
  lemma UpdateThenFind(s: Store, p: Product)
    ensures FindProductById(UpdateProductInWarehouse(s, p), p.id) == Success(p)
  {
    var r := UpdateProductInWarehouse(s, p);
    FindInConcat(r[..|r| - 1], [p], p.id);
    assert r[..|r| - 1] + [p] == r;
  }

  /** Updating twice with the same product is updating once. */
  lemma UpdateIdempotent(s: Store, p: Product)
    ensures UpdateProductInWarehouse(UpdateProductInWarehouse(s, p), p) == UpdateProductInWarehouse(s, p)
  {
    var kept := Filter(s, OtherId(p.id));
    FilterConcat(kept, [p], OtherId(p.id));
    FilterIdempotent(s, OtherId(p.id));
  }

  /** A product stored through an update with differing dates shows up in
      the modified-product query. */
  lemma UpdateShowsAsModified(s: Store, p: Product)
    requires p.createdDate != p.lastModifiedDate
    ensures p in FindModifiedProducts(UpdateProductInWarehouse(s, p))
  {
  }
}
