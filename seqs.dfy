/**
 * Sequence operations shared by the profilers and the view models: the
 * insertion-ordered distinct elements of a JavaScript `Set`, `Array.filter`,
 * and occurrence counts.
 */
module Seqs {

  /** No element occurs twice. */
  predicate NoDuplicates<T(==,!new)>(s: seq<T>) {
    forall i, j :: 0 <= i < j < |s| ==> s[i] != s[j]
  }

  /** The set of elements of `s`. */
  function Elements<T(!new)>(s: seq<T>): set<T> {
    set x | x in s
  }

  /** How often `x` occurs in `s`. */
  function Occurrences<T(==,!new)>(s: seq<T>, x: T): nat {
    multiset(s)[x]
  }

  /** The index of the first occurrence of `x` in `s`. */
  function FirstIndex<T(==,!new)>(s: seq<T>, x: T): (i: nat)
    requires x in s
    ensures i < |s| && s[i] == x
    ensures forall j :: 0 <= j < i ==> s[j] != x
  {
    if s[0] == x then 0 else 1 + FirstIndex(s[1..], x)
  }

  /** The distinct elements of `s` in order of first appearance: `Array.from(new Set(s))`. */
  function Distinct<T(==,!new)>(s: seq<T>): (r: seq<T>)
    ensures NoDuplicates(r)
    ensures forall x :: x in r <==> x in s
    ensures |r| <= |s|
  {
    if |s| == 0 then []
    else
      var init := s[..|s| - 1];
      var d := Distinct(init);
      assert s == init + [s[|s| - 1]];
      if s[|s| - 1] in d then d else d + [s[|s| - 1]]
  }

  /** A prefix keeps the first index of every element it holds. */
  lemma FirstIndexOfPrefix<T(!new)>(s: seq<T>, k: nat, x: T)
    requires k <= |s| && x in s[..k]
    ensures FirstIndex(s[..k], x) == FirstIndex(s, x)
  {
    var i := FirstIndex(s[..k], x);
    assert s[i] == x;
    var j := FirstIndex(s, x);
    assert j <= i;
    assert s[..k][j] == x;
  }

  /** `Distinct` lists its elements in the order they first appear in `s`. */
  lemma {:induction false} DistinctFirstSeenOrder<T(!new)>(s: seq<T>)
    ensures forall i, j :: 0 <= i < j < |Distinct(s)| ==>
              FirstIndex(s, Distinct(s)[i]) < FirstIndex(s, Distinct(s)[j])
  {
    if |s| > 0 {
      var init := s[..|s| - 1];
      var last := s[|s| - 1];
      var d := Distinct(init);
      DistinctFirstSeenOrder(init);
      assert s == init + [last];
      assert init == s[..|s| - 1];
      forall y | y in d ensures FirstIndex(s, y) == FirstIndex(init, y) && FirstIndex(s, y) < |s| - 1 {
        FirstIndexOfPrefix(s, |s| - 1, y);
      }
      if last !in d {
        assert FirstIndex(s, last) == |s| - 1;
      }
    }
  }

  /**
   * The first `k` distinct elements are the ones seen first: every element
   * outside them first appears after each of them.
   */
  lemma DistinctPrefixFirst<T(!new)>(s: seq<T>, k: nat, v: T)
    requires k <= |Distinct(s)| && v in s && v !in Distinct(s)[..k]
    ensures forall i :: 0 <= i < k ==> FirstIndex(s, Distinct(s)[i]) < FirstIndex(s, v)
  {
    var d := Distinct(s);
    DistinctFirstSeenOrder(s);
    var j :| 0 <= j < |d| && d[j] == v;
    assert forall i :: 0 <= i < k ==> d[..k][i] == d[i];
  }

  /**
   * The first `k` distinct elements: none repeats, all come from `s`, they
   * keep the order of first appearance, and every other element of `s`
   * first appears after each of them.
   */
  lemma DistinctPrefix<T(!new)>(s: seq<T>, k: nat)
    requires k <= |Distinct(s)|
    ensures NoDuplicates(Distinct(s)[..k])
    ensures forall v :: v in Distinct(s)[..k] ==> v in s
    ensures forall i, j :: 0 <= i < j < k ==>
              FirstIndex(s, Distinct(s)[..k][i]) < FirstIndex(s, Distinct(s)[..k][j])
    ensures forall i, v :: 0 <= i < k && v in s && v !in Distinct(s)[..k] ==>
              FirstIndex(s, Distinct(s)[..k][i]) < FirstIndex(s, v)
  {
    var d := Distinct(s);
    DistinctFirstSeenOrder(s);
    assert forall i :: 0 <= i < k ==> d[..k][i] == d[i];
    forall v | v in s && v !in d[..k]
      ensures forall i :: 0 <= i < k ==> FirstIndex(s, d[..k][i]) < FirstIndex(s, v)
    {
      DistinctPrefixFirst(s, k, v);
    }
  }

  /** A sequence without duplicates has as many elements as its length. */
  lemma {:induction false} NoDuplicatesCard<T(!new)>(s: seq<T>)
    requires NoDuplicates(s)
    ensures |Elements(s)| == |s|
  {
    if |s| > 0 {
      var init := s[..|s| - 1];
      NoDuplicatesCard(init);
      assert Elements(s) == Elements(init) + {s[|s| - 1]};
      assert s[|s| - 1] !in Elements(init);
    }
  }

  /** The JavaScript `new Set(s).size` equals the number of distinct elements and is at most `|s|`. */
  lemma DistinctCard<T(!new)>(s: seq<T>)
    ensures |Elements(s)| == |Distinct(s)| <= |s|
  {
    NoDuplicatesCard(Distinct(s));
    assert Elements(Distinct(s)) == Elements(s);
  }

  /** The occurrences in `values` of each of `ns`, added up. */
  function SumOccurrences<T(==,!new)>(ns: seq<T>, values: seq<T>): nat {
    if |ns| == 0 then 0 else Occurrences(values, ns[0]) + SumOccurrences(ns[1..], values)
  }

  /** Counting distinct elements never counts an element of `values` twice. */
  lemma {:induction false} SumOccurrencesBound<T(!new)>(ns: seq<T>, values: seq<T>)
    requires NoDuplicates(ns)
    ensures SumOccurrences(ns, values) <= |values|
  {
    if |values| == 0 {
      SumOccurrencesNone(ns, values);
    } else {
      SumOccurrencesStep(ns, values);
      OccurrencesOfDistinct(ns, values[0]);
      SumOccurrencesBound(ns, values[1..]);
    }
  }

  /** Nothing occurs in an empty sequence. */
  lemma {:induction false} SumOccurrencesNone<T(!new)>(ns: seq<T>, values: seq<T>)
    requires |values| == 0
    ensures SumOccurrences(ns, values) == 0
  {
    if |ns| > 0 {
      SumOccurrencesNone(ns[1..], values);
    }
  }

  /** Dropping the first value takes off one for each of `ns` equal to it. */
  lemma {:induction false} SumOccurrencesStep<T(!new)>(ns: seq<T>, values: seq<T>)
    requires |values| > 0
    ensures SumOccurrences(ns, values) == Occurrences(ns, values[0]) + SumOccurrences(ns, values[1..])
  {
    assert values == [values[0]] + values[1..];
    if |ns| > 0 {
      SumOccurrencesStep(ns[1..], values);
      assert ns == [ns[0]] + ns[1..];
    }
  }

  /** An element occurs at most once in a sequence without duplicates. */
  lemma {:induction false} OccurrencesOfDistinct<T(!new)>(ns: seq<T>, x: T)
    requires NoDuplicates(ns)
    ensures Occurrences(ns, x) <= 1
  {
    if |ns| > 0 {
      assert ns == [ns[0]] + ns[1..];
      OccurrencesOfDistinct(ns[1..], x);
      if ns[0] == x {
        assert x !in ns[1..];
      }
    }
  }

  /** `a` is `b` with some elements removed, the rest kept in order. */
  predicate IsSubsequence<T(==,!new)>(a: seq<T>, b: seq<T>)
    decreases |b|
  {
    if |a| == 0 then true
    else if |b| == 0 then false
    else if a[0] == b[0] then IsSubsequence(a[1..], b[1..])
    else IsSubsequence(a, b[1..])
  }

  /** A sequence is a subsequence of itself. */
  lemma {:induction false} SubsequenceOfSelf<T(!new)>(s: seq<T>)
    ensures IsSubsequence(s, s)
  {
    if |s| > 0 {
      SubsequenceOfSelf(s[1..]);
    }
  }

  /** `Array.filter`: the elements that pass `p`, in order. */
  function Filter<T(!new)>(s: seq<T>, p: T -> bool): (r: seq<T>)
    ensures |r| <= |s|
    ensures forall x :: x in r <==> x in s && p(x)
  {
    if |s| == 0 then []
    else
      var rest := Filter(s[1..], p);
      assert forall x :: x in s <==> x == s[0] || x in s[1..];
      if p(s[0]) then [s[0]] + rest else rest
  }

  /** A filter keeps an order-preserving subsequence. */
  lemma {:induction false} FilterIsSubsequence<T(!new)>(s: seq<T>, p: T -> bool)
    ensures IsSubsequence(Filter(s, p), s)
  {
    if |s| > 0 {
      FilterIsSubsequence(s[1..], p);
      if !p(s[0]) {
        SubsequenceDropFront(Filter(s[1..], p), s);
      }
    }
  }

  /** A subsequence of the tail is a subsequence of the whole. */
  lemma {:induction false} SubsequenceDropFront<T(!new)>(a: seq<T>, b: seq<T>)
    requires |b| > 0 && IsSubsequence(a, b[1..])
    ensures IsSubsequence(a, b)
    decreases |b|
  {
    if |a| > 0 && a[0] == b[0] {
      SubsequenceTail(a, b[1..]);
      assert b[1..][1..] == b[2..];
      SubsequenceDropFront(a[1..], b[1..]);
    }
  }

  /** Dropping the first element of a subsequence keeps a subsequence of the tail. */
  lemma {:induction false} SubsequenceTail<T(!new)>(a: seq<T>, b: seq<T>)
    requires |a| > 0 && IsSubsequence(a, b)
    ensures |b| > 0 && IsSubsequence(a[1..], b[1..])
    decreases |b|
  {
    if a[0] != b[0] {
      SubsequenceTail(a, b[1..]);
      assert b[1..][1..] == b[2..];
      SubsequenceDropFront(a[1..], b[1..]);
    }
  }

  /** A prefix one longer is the shorter prefix and the next element. */
  lemma TakeSnoc<T>(s: seq<T>, i: nat)
    requires i < |s|
    ensures s[..i + 1] == s[..i] + [s[i]]
  {
  }

  /** Appending an element adds it to the set of elements. */
  lemma ElementsSnoc<T(!new)>(s: seq<T>, x: T)
    ensures Elements(s + [x]) == Elements(s) + {x}
  {
  }

  /** Filtering an extended sequence extends the filtered one. */
  lemma {:induction false} FilterSnoc<T(!new)>(s: seq<T>, x: T, p: T -> bool)
    ensures Filter(s + [x], p) == Filter(s, p) + (if p(x) then [x] else [])
  {
    if |s| == 0 {
      assert s + [x] == [x];
    } else {
      assert (s + [x])[1..] == s[1..] + [x];
      FilterSnoc(s[1..], x, p);
    }
  }

  /** Filtering by a test and by its negation splits the sequence: the two lengths add up. */
  lemma {:induction false} FilterComplementLength<T(!new)>(s: seq<T>, p: T -> bool, q: T -> bool)
    requires forall x :: q(x) <==> !p(x)
    ensures |Filter(s, p)| + |Filter(s, q)| == |s|
  {
    if |s| > 0 {
      FilterComplementLength(s[1..], p, q);
    }
  }
}
