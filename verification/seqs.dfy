/** Order-preserving selection on sequences: the model of a Java
    `stream().filter(..).collect(..)` pipeline and of `List.removeIf`. */
module Seqs {

  /** The elements of `s` that satisfy `keep`, in their original order. */
  function Filter<T(!new)>(s: seq<T>, keep: T -> bool): (r: seq<T>)
    ensures |r| <= |s|
    ensures forall i :: 0 <= i < |r| ==> keep(r[i])
  {
    if |s| == 0 then []
    else if keep(s[0]) then [s[0]] + Filter(s[1..], keep)
    else Filter(s[1..], keep)
  }

  /** The selection holds every element that passes the test, as often as
      the input does, and nothing else. */
  lemma {:induction false} FilterCounts<T(!new)>(s: seq<T>, keep: T -> bool)
    ensures forall x :: multiset(Filter(s, keep))[x] == if keep(x) then multiset(s)[x] else 0
    ensures forall x :: x in Filter(s, keep) <==> x in s && keep(x)
  {
    if |s| > 0 {
      FilterCounts(s[1..], keep);
      assert s == [s[0]] + s[1..];
    }
  }

  /** Filtering a sequence with a known head. */
  lemma FilterCons<T(!new)>(h: T, t: seq<T>, keep: T -> bool)
    ensures Filter([h] + t, keep) == (if keep(h) then [h] else []) + Filter(t, keep)
  {
    assert ([h] + t)[0] == h && ([h] + t)[1..] == t;
  }

  /** A sequence `rest` that filters to `pre` followed by what the tail of
      `s` filters to, with the head of `s` put in front, filters to `pre`
      followed by what `s` filters to, provided `pre` is empty whenever the
      head is kept. */
  lemma FilterPassOver<T(!new)>(s: seq<T>, rest: seq<T>, pre: seq<T>, keep: T -> bool)
    requires |s| > 0
    requires keep(s[0]) ==> pre == []
    requires Filter(rest, keep) == pre + Filter(s[1..], keep)
    ensures Filter([s[0]] + rest, keep) == pre + Filter(s, keep)
  {
    FilterCons(s[0], rest, keep);
    if keep(s[0]) {
      assert pre + Filter(s[1..], keep) == Filter(s[1..], keep);
    }
  }

  /** Filtering commutes with concatenation: the relative order of the
      kept elements is the order they had in the input. */
  lemma {:induction false} FilterConcat<T(!new)>(a: seq<T>, b: seq<T>, keep: T -> bool)
    ensures Filter(a + b, keep) == Filter(a, keep) + Filter(b, keep)
  {
    if |a| == 0 {
      assert a + b == b;
    } else {
      assert (a + b)[0] == a[0];
      assert (a + b)[1..] == a[1..] + b;
      FilterConcat(a[1..], b, keep);
    }
  }

  /** A sequence whose every element is kept passes through unchanged. */
  lemma {:induction false} FilterKeepsAll<T(!new)>(s: seq<T>, keep: T -> bool)
    requires forall i :: 0 <= i < |s| ==> keep(s[i])
    ensures Filter(s, keep) == s
  {
    if |s| > 0 {
      FilterKeepsAll(s[1..], keep);
    }
  }

  /** Filtering twice by the same test is filtering once. */
  lemma FilterIdempotent<T(!new)>(s: seq<T>, keep: T -> bool)
    ensures Filter(Filter(s, keep), keep) == Filter(s, keep)
  {
    FilterKeepsAll(Filter(s, keep), keep);
  }

  /** Filtering by a weaker test first does not change what a stronger
      test selects. */
  lemma {:induction false} FilterNarrow<T(!new)>(s: seq<T>, strong: T -> bool, weak: T -> bool)
    requires forall i :: 0 <= i < |s| && strong(s[i]) ==> weak(s[i])
    ensures Filter(Filter(s, weak), strong) == Filter(s, strong)
  {
    if |s| > 0 {
      FilterNarrow(s[1..], strong, weak);
      if weak(s[0]) {
        var rest := Filter(s[1..], weak);
        assert ([s[0]] + rest)[0] == s[0];
        assert ([s[0]] + rest)[1..] == rest;
      }
    }
  }

  /** A test and its negation split a sequence without loss or overlap. */
  lemma {:induction false} FilterPartition<T(!new)>(s: seq<T>, keep: T -> bool, drop: T -> bool)
    requires forall i :: 0 <= i < |s| ==> drop(s[i]) == !keep(s[i])
    ensures |Filter(s, keep)| + |Filter(s, drop)| == |s|
  {
    if |s| > 0 {
      FilterPartition(s[1..], keep, drop);
    }
  }
}
