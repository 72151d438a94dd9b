/** Sorting products ascending by name, as
    `sorted(Comparator.comparing(Product::name))` does: a stable sort. */
module NameSort {
  import opened Products
  import opened NameOrder
  import opened Seqs

  ghost predicate SortedByName(s: seq<Product>) {
    forall i, j :: 0 <= i < j < |s| ==> NameLe(s[i].name, s[j].name)
  }

  /** Selects the products called exactly `n`. */
  function Named(n: string): Product -> bool {
    (q: Product) => q.name == n
  }

  /** Inserts `x` in front of the first product whose name is not smaller
      than its own: into a sorted sequence, that places it after every
      product that sorts strictly before it and before every product with an
      equal name. */
  function Insert(x: Product, s: seq<Product>): (r: seq<Product>)
    ensures multiset(r) == multiset(s) + multiset{x}
  {
    if |s| == 0 then [x]
    else if NameLe(x.name, s[0].name) then [x] + s
    else
      assert s == [s[0]] + s[1..];
      [s[0]] + Insert(x, s[1..])
  }

  /** Insertion into a sorted sequence keeps it sorted. */
  lemma {:induction false} InsertSorted(x: Product, s: seq<Product>)
    requires SortedByName(s)
    ensures SortedByName(Insert(x, s))
  {
    if |s| == 0 {
    } else if NameLe(x.name, s[0].name) {
      InsertFrontSorted(x, s);
    } else {
      NameLeTotal(x.name, s[0].name);
      var rest := Insert(x, s[1..]);
      InsertSorted(x, s[1..]);
      HeadPrecedesInsert(x, s, rest);
      ConsSorted(s[0], rest);
    }
  }

  /** `x` may go in front of a sorted sequence whose head it does not follow. */
  lemma InsertFrontSorted(x: Product, s: seq<Product>)
    requires SortedByName(s) && |s| > 0 && NameLe(x.name, s[0].name)
    ensures SortedByName([x] + s)
  {
    forall j | 1 <= j < |s| + 1
      ensures NameLe(x.name, ([x] + s)[j].name)
    {
      if j > 1 {
        NameLeTransitive(x.name, s[0].name, s[j - 1].name);
      }
    }
  }

  /** The head of a sorted sequence precedes everything in the rest with a
      larger `x` inserted. */
  lemma HeadPrecedesInsert(x: Product, s: seq<Product>, rest: seq<Product>)
    requires SortedByName(s) && |s| > 0 && NameLe(s[0].name, x.name)
    requires multiset(rest) == multiset(s[1..]) + multiset{x}
    ensures forall y :: y in rest ==> NameLe(s[0].name, y.name)
  {
    forall y | y in rest
      ensures NameLe(s[0].name, y.name)
    {
      assert y in multiset(rest);
      if y != x {
        assert y in multiset(s[1..]);
        var k :| 0 <= k < |s[1..]| && s[1..][k] == y;
        assert s[k + 1] == y;
      }
    }
  }

  /** `h` may go in front of a sorted sequence all of whose elements it
      does not follow. */
  lemma ConsSorted(h: Product, s: seq<Product>)
    requires SortedByName(s)
    requires forall y :: y in s ==> NameLe(h.name, y.name)
    ensures SortedByName([h] + s)
  {
    forall j | 1 <= j < |s| + 1
      ensures NameLe(h.name, ([h] + s)[j].name)
    {
      assert s[j - 1] in s;
    }
  }

  /** Insertion sort by name. */
  function SortByName(s: seq<Product>): (r: seq<Product>)
    ensures SortedByName(r)
    ensures multiset(r) == multiset(s)
  {
    if |s| == 0 then []
    else
      var rest := SortByName(s[1..]);
      InsertSorted(s[0], rest);
      assert s == [s[0]] + s[1..];
      Insert(s[0], rest)
  }

  /** Insertion adds `x` to the products named like it, ahead of them, and
      leaves every other name's products as they were. */
  lemma {:induction false} InsertKeepsNameOrder(x: Product, s: seq<Product>, n: string)
    ensures Filter(Insert(x, s), Named(n))
         == (if x.name == n then [x] else []) + Filter(s, Named(n))
  {
    if |s| == 0 {
      FilterCons(x, [], Named(n));
    } else if NameLe(x.name, s[0].name) {
      assert Insert(x, s) == [x] + s;
      FilterCons(x, s, Named(n));
    } else {
      var rest := Insert(x, s[1..]);
      NameLeReflexive(x.name);
      InsertKeepsNameOrder(x, s[1..], n);
      FilterPassOver(s, rest, if x.name == n then [x] else [], Named(n));
      assert Insert(x, s) == [s[0]] + rest;
    }
  }

  /** The sort is stable: the products sharing any one name come out in the
      order they went in. */
  lemma {:induction false} SortByNameStable(s: seq<Product>, n: string)
    ensures Filter(SortByName(s), Named(n)) == Filter(s, Named(n))
  {
    if |s| > 0 {
      SortByNameStable(s[1..], n);
      InsertKeepsNameOrder(s[0], SortByName(s[1..]), n);
    }
  }
}
