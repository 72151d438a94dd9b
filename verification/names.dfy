/** The natural ordering of product names, as `Comparator.comparing(Product::name)`
    uses it: Java's `String.compareTo`. */
module NameOrder {

  /** `String.compareTo` from position `k` on: the difference of the first
      differing characters, or, when one name is a prefix of the other, the
      difference of the lengths. */
  function CompareFrom(a: string, b: string, k: nat): int
    requires k <= |a| && k <= |b|
    decreases |a| - k
  {
    if k == |a| || k == |b| then |a| - |b|
    else if a[k] != b[k] then a[k] as int - b[k] as int
    else CompareFrom(a, b, k + 1)
  }

  /** `a.compareTo(b)`. */
  function CompareTo(a: string, b: string): int {
    CompareFrom(a, b, 0)
  }

  /** Lexicographic "comes no later than": a prefix comes first, otherwise
      the first differing character decides. */
  predicate NameLe(a: string, b: string) {
    |a| == 0 || (|b| > 0 && (a[0] < b[0] || (a[0] == b[0] && NameLe(a[1..], b[1..]))))
  }

  /** `NameLe` is exactly `compareTo(a, b) <= 0`, from any common position on. */
  lemma {:induction false} CompareFromIsNameLe(a: string, b: string, k: nat)
    requires k <= |a| && k <= |b|
    ensures CompareFrom(a, b, k) <= 0 <==> NameLe(a[k..], b[k..])
    decreases |a| - k
  {
    if k == |a| || k == |b| {
    } else if a[k] != b[k] {
    } else {
      CompareFromIsNameLe(a, b, k + 1);
      assert a[k..][1..] == a[k + 1..];
      assert b[k..][1..] == b[k + 1..];
    }
  }

  /** The order the sort uses agrees with `String.compareTo`. */
  lemma NameLeIsCompareTo(a: string, b: string)
    ensures NameLe(a, b) <==> CompareTo(a, b) <= 0
  {
    CompareFromIsNameLe(a, b, 0);
    assert a[0..] == a && b[0..] == b;
  }

  /** `compareTo` is zero exactly on equal names. */
  lemma {:induction false} CompareFromZero(a: string, b: string, k: nat)
    requires k <= |a| && k <= |b|
    requires a[..k] == b[..k]
    ensures CompareFrom(a, b, k) == 0 <==> a == b
    decreases |a| - k
  {
    if k == |a| || k == |b| {
      if |a| == |b| {
        assert a == a[..k] && b == b[..k];
      }
    } else if a[k] != b[k] {
    } else {
      assert a[..k + 1] == a[..k] + [a[k]];
      assert b[..k + 1] == b[..k] + [b[k]];
      CompareFromZero(a, b, k + 1);
    }
  }

  lemma CompareToZeroIffEqual(a: string, b: string)
    ensures CompareTo(a, b) == 0 <==> a == b
  {
    CompareFromZero(a, b, 0);
  }

  lemma {:induction false} NameLeReflexive(a: string)
    ensures NameLe(a, a)
  {
    if |a| > 0 {
      NameLeReflexive(a[1..]);
    }
  }

  lemma {:induction false} NameLeTotal(a: string, b: string)
    ensures NameLe(a, b) || NameLe(b, a)
  {
    if |a| > 0 && |b| > 0 && a[0] == b[0] {
      NameLeTotal(a[1..], b[1..]);
    }
  }

  lemma {:induction false} NameLeAntisymmetric(a: string, b: string)
    requires NameLe(a, b) && NameLe(b, a)
    ensures a == b
  {
    if |a| > 0 && |b| > 0 {
      NameLeAntisymmetric(a[1..], b[1..]);
      assert a == [a[0]] + a[1..] && b == [b[0]] + b[1..];
    }
  }

  lemma {:induction false} NameLeTransitive(a: string, b: string, c: string)
    requires NameLe(a, b) && NameLe(b, c)
    ensures NameLe(a, c)
  {
    if |a| > 0 && a[0] == b[0] && b[0] == c[0] {
      NameLeTransitive(a[1..], b[1..], c[1..]);
    }
  }
}
