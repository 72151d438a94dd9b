# Warehouse product store — a verified Dafny model

This project models the in-memory product store of the `Warehouse` service
(`src/main/java/org/service/Warehouse.java`). The store keeps an
insertion-ordered list of product records. It offers these operations:

- a null-checked add;
- a validating add that checks id, rating, name and category in that order;
- a first-match lookup by id;
- a snapshot of the contents;
- three list queries: by category sorted by name, by minimum creation date, and products whose two dates differ;
- an upsert by id that removes every record with the id and appends the new one.

The model is purely functional:

- **Store:** a `seq<Product>`.
- **Adds:** `AddProduct` and `VerifyProduct` return a `Response`, which holds the store after the call and the exception the call threw, if any. A failed call therefore visibly leaves the store as it was.
- **Update:** `UpdateProductInWarehouse` cannot fail in the model, because its null case is left out. It returns the new store.
- **Lookup and queries:** return a `Result` or a sequence. They take the store as a value, so they cannot change it.

Java `null` for the product of `addProduct` and for the name and category of
`verifyProduct` is modelled with `Option`. `LocalDate` is modelled as an
integer day number: the store compares dates only with `isBefore` and
`equals`.

Modules, in dependency order:

| file | module | contents |
|---|---|---|
| wrappers.dfy | `Wrappers` | `Option`, `Result` |
| seqs.dfy | `Seqs` | order-preserving `Filter` (a Java `stream().filter()` or `removeIf`) and its algebra |
| names.dfy | `NameOrder` | `String.compareTo` and the lexicographic order `NameLe`, proved to agree, with the total-order laws |
| products.dfy | `Products` | `Category`, `Date`, `Product` |
| sorting.dfy | `NameSort` | stable insertion sort by name |
| warehouse.dfy | `Warehouse` | the store's operations and their properties |
| scenarios.dfy | `Scenarios` | the unit tests' concrete cases |

## Model

| member | source | states |
|---|---|---|
| Seqs.Filter | src/main/java/org/service/Warehouse.java:184-188 | every selected element passes the test, and the selection never grows |
| Seqs.FilterCounts | src/main/java/org/service/Warehouse.java:184-188 | the selection holds each passing element as often as the input does, and nothing else |
| Seqs.FilterConcat | src/main/java/org/service/Warehouse.java:185-187 | filtering works piecewise over any split of the input, so kept elements stay in input order |
| NameOrder.NameLeIsCompareTo | src/main/java/org/service/Warehouse.java:179 | the lexicographic order used for sorting holds exactly when `compareTo` is at most zero |
| NameOrder.CompareToZeroIffEqual | src/main/java/org/service/Warehouse.java:179 | the comparator ties exactly on equal names |
| NameOrder.NameLeReflexive | src/main/java/org/service/Warehouse.java:179 | every name sorts no later than itself |
| NameOrder.NameLeTotal | src/main/java/org/service/Warehouse.java:179 | any two names are comparable |
| NameOrder.NameLeAntisymmetric | src/main/java/org/service/Warehouse.java:179 | two names each no later than the other are equal |
| NameOrder.NameLeTransitive | src/main/java/org/service/Warehouse.java:179 | the name order is transitive |
| NameSort.Insert | src/main/java/org/service/Warehouse.java:179 | insertion adds exactly the one product to the multiset of products |
| NameSort.InsertSorted | src/main/java/org/service/Warehouse.java:179 | inserting into a name-sorted sequence keeps it sorted |
| NameSort.SortByName | src/main/java/org/service/Warehouse.java:179 | the result is sorted ascending by name and is a permutation of the input |
| NameSort.SortByNameStable | src/main/java/org/service/Warehouse.java:179 | products sharing a name leave the sort in the order they entered it |
| Warehouse.AddProduct | src/main/java/org/service/Warehouse.java:21-26 | a null product fails with NullProduct and leaves the store unchanged; otherwise the product is appended and everything before it is kept |
| Warehouse.GetProducts | src/main/java/org/service/Warehouse.java:17-19 | the snapshot is the store's contents as a value; what it returns after a series of adds is stated by `Warehouse.AddAllThenSnapshot` |
| Warehouse.AddAllThenSnapshot | src/main/java/org/service/Warehouse.java:17-26 | adding products one by one and then taking a snapshot returns the previous contents followed by exactly those products, in order |
| Warehouse.AddProductAllowsDuplicateIds | src/main/java/org/service/Warehouse.java:21-26 | there is no id-uniqueness check: each add raises the count of its id by one |
| Warehouse.VerifyProduct | src/main/java/org/service/Warehouse.java:28-48 | the call reports the first of the rule violations in the order id, rating, name, category, and leaves the store unchanged when it fails; with no violation it appends one product carrying the six given fields |
| Warehouse.VerifyProductAcceptsRatingBounds | src/main/java/org/service/Warehouse.java:34 | ratings 0 and 10 are accepted |
| Warehouse.FirstIndexWithId | src/main/java/org/service/Warehouse.java:104-108 | the scan stops at the first product with the id, and no earlier product has it |
| Warehouse.FindProductById | src/main/java/org/service/Warehouse.java:104-109 | the lookup fails with NotFound exactly when no product has the id; otherwise it returns a product with the id that no earlier product shares |
| Warehouse.FindInConcat | src/main/java/org/service/Warehouse.java:104-109 | first match wins: over two stores laid end to end, the lookup answers from the first store when it can |
| Warehouse.AddThenFind | src/main/java/org/service/Warehouse.java:104-109 | after an add the lookup finds the new product, unless an earlier product with the same id shadows it |
| Warehouse.FilterProductsByCategory | src/main/java/org/service/Warehouse.java:176-181 | every result has the category; the result holds each product of that category as often as the store does; it is sorted by name |
| Warehouse.FilterProductsByCategoryStable | src/main/java/org/service/Warehouse.java:176-181 | products of the category that share a name appear in store order |
| Warehouse.FindProductsFromCreatedDate | src/main/java/org/service/Warehouse.java:184-188 | the result holds exactly the store's products created on or after the date, with their multiplicities |
| Warehouse.FindProductsFromCreatedDateOrder | src/main/java/org/service/Warehouse.java:184-188 | the date query keeps store order |
| Warehouse.FindProductsFromCreatedDateNarrows | src/main/java/org/service/Warehouse.java:184-188 | querying the result again from a later date equals querying the store from that date |
| Warehouse.FindProductsFromCreatedDateIdempotent | src/main/java/org/service/Warehouse.java:184-188 | applying the date query to its own output changes nothing |
| Warehouse.FindModifiedProducts | src/main/java/org/service/Warehouse.java:216-219 | the result holds exactly the products whose created and last-modified dates differ, and is empty exactly when no product in the store has differing dates |
| Warehouse.FindModifiedProductsOrder | src/main/java/org/service/Warehouse.java:216-219 | the modified-product query keeps store order |
| Warehouse.UpdateProductInWarehouse | src/main/java/org/service/Warehouse.java:229-233 | the updated product is last, no other product carries its id, and products with other ids keep their multiplicities |
| Warehouse.UpdateLeavesOneWithId | src/main/java/org/service/Warehouse.java:229-233 | after an update exactly one product carries the id |
| Warehouse.UpdateLength | src/main/java/org/service/Warehouse.java:229-233 | the new length is the old length minus the number of products with the id, plus one |
| Warehouse.UpdateActsAsAppendWhenAbsent | src/main/java/org/service/Warehouse.java:229-233 | when no product had the id, the update is a plain append |
| Warehouse.UpdateKeepsOthersInOrder | src/main/java/org/service/Warehouse.java:229-233 | any selection of products the update does not touch is the same sequence before and after, so the other products keep their relative order |
| Warehouse.UpdateThenFind | src/main/java/org/service/Warehouse.java:229-233 | a lookup right after an update returns the updated product |
| Warehouse.UpdateIdempotent | src/main/java/org/service/Warehouse.java:229-233 | updating twice with the same product equals updating once |
| Warehouse.UpdateShowsAsModified | src/main/java/org/service/Warehouse.java:216-233 | an updated product whose dates differ shows up in the modified-product query |
| Scenarios.VerifyProductValidInput | src/test/java/org/service/WarehouseTest.java:69-77 | a valid validated add on the two-product test store gives three products, the third named Tomato |
| Scenarios.VerifyProductInvalidInputs | src/test/java/org/service/WarehouseTest.java:79-119 | an id of 0, ratings -1 and 11, an empty or null name, and a null category each fail with their own error and leave the store unchanged |
| Scenarios.VerifyProductFirstViolationWins | src/main/java/org/service/Warehouse.java:30-44 | with several fields wrong, only the first one checked is reported |
| Scenarios.AddNullProduct | src/test/java/org/service/WarehouseTest.java:62-67 | adding null fails with NullProduct |
| Scenarios.FilterVegetables | src/main/java/org/service/Warehouse.java:176-181 | from Carrot, Apple and Beet, the vegetable query returns Beet then Carrot |
| Scenarios.UpdateMovesToEnd | src/main/java/org/service/Warehouse.java:229-233 | updating an existing id moves the record to the end |

## Left out

- The console operations are not modelled: `addProductFromUserInput`, `findProductByIdFromUserInput`, `filterProductsByCategoryFromUserInput`, `findProductsFromCreatedDateFromUserInput` and `modifyProductByIdFromUserInput`. They read from a `Scanner`, print, and read the clock with `LocalDate.now()`. They reach the store only through the modelled operations.
- The printing half of `findAndPrintMismatchedProducts` is not modelled; only its filter is (`FindModifiedProducts`).
- `Main.java` only bootstraps the program. A rating sort appears there only in a comment and does not exist in `Warehouse`, so it is not modelled.
- The `org.entities` classes (`Product`, `ProductRecord`, `ImmutableProduct`, `ProductList`) are an older version built on `java.util.Date`. `Warehouse` does not use them, so they are not part of this model. The `Category` enum and the exception class are not part of this model either; `Category` becomes a five-constructor datatype.
- VerifyProduct: its two date parameters cannot be null in the model. The Java method never checks them and stores a product with a null date. Afterwards `findProductsFromCreatedDate` throws a NullPointerException at `isBefore`, and so does the mismatch filter at `equals`. The model has no such path.
- A product's own fields cannot be null in the model. In Java, `addProduct` and `updateProductInWarehouse` accept a `Product` whose name or category is null. The name sort would then throw. Only the null product of `addProduct` and the null name and category of `verifyProduct` are modelled.
- `updateProductInWarehouse(null)` is not modelled. In Java it appends `null` to an empty list, and on a non-empty list it throws before removing anything.
- Null arguments to the queries are not modelled: a null category for `filterProductsByCategory` and a null date for `findProductsFromCreatedDate`.
- `GetProducts` carries no contract of its own. A Dafny sequence is a value, so the defensive `List.copyOf` and the immutability of the returned list hold by construction. Its behaviour is stated by `Warehouse.AddAllThenSnapshot`.
- NameOrder.CompareTo compares characters as Unicode scalar values. Java's `String.compareTo` compares UTF-16 code units. The two orders differ only for names that contain characters outside the Basic Multilingual Plane.
- Ids and ratings are unbounded integers rather than 32-bit `int`. The store never does arithmetic on them, so wrap-around cannot arise.
- `LocalDate` is an integer day number. The store only uses `isBefore` and `equals` on dates, and both keep their meaning under this encoding.
- Exception message texts are not modelled; each exception is an `Error` constructor.
- Concurrency is not modelled. The Java list is unsynchronised, and the model is single-threaded.
- WarehouseTest.java:35-36 check that the snapshot contains two products that were never added. The two lines contradict the source's own behaviour, so they are not encoded.
