/** Concrete runs of the store, mirroring the unit tests of `Warehouse`. */
module Scenarios {
  import opened Wrappers
  import opened Products
  import opened Seqs
  import opened NameSort
  import opened Warehouse

  const Today: Date := 0

  const Carrot := Product(1, "Carrot", Vegetable, 9, Today, Today)
  const Apple := Product(2, "Apple", Fruit, 8, Today, Today)
  const Beet := Product(3, "Beet", Vegetable, 7, Today, Today)

  /** The store the unit tests start from. */
  const Setup: Store := [Carrot, Apple]

  /** A valid validated add grows the test store to three products, the new
      one last. */
  lemma VerifyProductValidInput()
    ensures var r := VerifyProduct(Setup, 3, Some("Tomato"), Some(Vegetable), 9, Today, Today);
      r.error.None? && |r.store| == 3 && r.store[2].name == "Tomato"
  {
  }

  /** Each invalid field is rejected with its own error, leaving the store as
      it was. */
  lemma VerifyProductInvalidInputs()
    ensures VerifyProduct(Setup, 0, Some("Tomato"), Some(Vegetable), 9, Today, Today) == Response(Setup, Some(InvalidId))
    ensures VerifyProduct(Setup, 3, Some("Tomato"), Some(Vegetable), -1, Today, Today) == Response(Setup, Some(InvalidRating))
    ensures VerifyProduct(Setup, 3, Some("Tomato"), Some(Vegetable), 11, Today, Today) == Response(Setup, Some(InvalidRating))
    ensures VerifyProduct(Setup, 3, Some(""), Some(Vegetable), 9, Today, Today) == Response(Setup, Some(MissingName))
    ensures VerifyProduct(Setup, 3, None, Some(Vegetable), 9, Today, Today) == Response(Setup, Some(MissingName))
    ensures VerifyProduct(Setup, 3, Some("Tomato"), None, 9, Today, Today) == Response(Setup, Some(MissingCategory))
  {
  }

  /** With several fields wrong at once, only the first checked is reported. */
  lemma VerifyProductFirstViolationWins()
    ensures VerifyProduct(Setup, 0, None, None, 11, Today, Today).error == Some(InvalidId)
    ensures VerifyProduct(Setup, 5, None, None, 11, Today, Today).error == Some(InvalidRating)
  {
  }

  lemma AddNullProduct()
    ensures AddProduct(Setup, None) == Response(Setup, Some(NullProduct))
  {
  }

  /** An example of the category query: from Carrot, Apple and Beet, the
      vegetables come back sorted by name, Beet before Carrot. */
  lemma FilterVegetables()
    ensures FilterProductsByCategory([Carrot, Apple, Beet], Vegetable) == [Beet, Carrot]
  {
    var s := [Carrot, Apple, Beet];
    var veg := InCategory(Vegetable);
    assert [Beet][1..] == [];
    assert Filter([Beet], veg) == [Beet];
    assert [Apple, Beet][1..] == [Beet];
    assert Filter([Apple, Beet], veg) == [Beet];
    assert s[1..] == [Apple, Beet];
    assert Filter(s, veg) == [Carrot, Beet];
    assert Insert(Beet, []) == [Beet];
    assert SortByName([Carrot, Beet]) == Insert(Carrot, [Beet]);
  }

  /** An update of an existing id moves the record to the end. */
  lemma UpdateMovesToEnd()
    ensures UpdateProductInWarehouse(Setup, Product(1, "Carrot", Vegetable, 5, Today, Today + 1))
         == [Apple, Product(1, "Carrot", Vegetable, 5, Today, Today + 1)]
  {
  }
}
