/** Sequence helpers: subsequences, Python's `list.remove`, and a random
    choice modelled by an arbitrary draw. */
module Sequences {

  lemma ConcatAssociative<T>(x: seq<T>, y: seq<T>, z: seq<T>)
    ensures x + (y + z) == (x + y) + z
  {
  }

  /** `a` can be obtained from `b` by deleting elements. */
  predicate IsSubsequence<T(==)>(a: seq<T>, b: seq<T>)
    decreases |b|
  {
    |a| == 0 ||
    (|b| > 0 &&
     ((a[0] == b[0] && IsSubsequence(a[1..], b[1..])) || IsSubsequence(a, b[1..])))
  }

  lemma {:induction false} SubsequenceReflexive<T>(a: seq<T>)
    ensures IsSubsequence(a, a)
    decreases |a|
  {
    if |a| > 0 {
      SubsequenceReflexive(a[1..]);
    }
  }

  lemma {:induction false} SubsequenceTransitive<T>(a: seq<T>, b: seq<T>, c: seq<T>)
    requires IsSubsequence(a, b) && IsSubsequence(b, c)
    ensures IsSubsequence(a, c)
    decreases |c|
  {
    if |a| == 0 {
    } else if IsSubsequence(b, c[1..]) {
      SubsequenceTransitive(a, b, c[1..]);
    } else {
      assert b[0] == c[0] && IsSubsequence(b[1..], c[1..]);
      if a[0] == b[0] && IsSubsequence(a[1..], b[1..]) {
        SubsequenceTransitive(a[1..], b[1..], c[1..]);
      } else {
        SubsequenceTransitive(a, b[1..], c[1..]);
      }
    }
  }

  /** Every element of a subsequence occurs in the whole. */
  lemma {:induction false} SubsequenceElements<T>(a: seq<T>, b: seq<T>)
    requires IsSubsequence(a, b)
    ensures forall x :: x in a ==> x in b
    decreases |b|
  {
    if |a| > 0 {
      if a[0] == b[0] && IsSubsequence(a[1..], b[1..]) {
        SubsequenceElements(a[1..], b[1..]);
        assert a == [a[0]] + a[1..];
        assert b == [b[0]] + b[1..];
      } else {
        SubsequenceElements(a, b[1..]);
        assert b == [b[0]] + b[1..];
      }
    }
  }

  /** Deleting the element at position `q` leaves a subsequence. */
  lemma {:induction false} DeleteOneIsSubsequence<T>(xs: seq<T>, q: nat)
    requires q < |xs|
    ensures IsSubsequence(xs[..q] + xs[q + 1..], xs)
    decreases q
  {
    var r := xs[..q] + xs[q + 1..];
    if q == 0 {
      assert r == xs[1..];
      SubsequenceReflexive(xs[1..]);
    } else {
      DeleteOneIsSubsequence(xs[1..], q - 1);
      assert r[0] == xs[0];
      assert r[1..] == xs[1..][..q - 1] + xs[1..][q..];
    }
  }

  /** The position of the first occurrence of `a`. */
  function FirstIndex<T(==)>(xs: seq<T>, a: T): (q: nat)
    requires a in xs
    ensures q < |xs| && xs[q] == a && a !in xs[..q]
  {
    if xs[0] == a then 0
    else
      var q := 1 + FirstIndex(xs[1..], a);
      assert xs[..q] == [xs[0]] + xs[1..][..q - 1];
      q
  }

  /** `xs.remove(a)`: delete the FIRST element equal to `a`. Python raises
      `ValueError` when `a` is absent; every caller here removes an element
      it has just read from the list. */
  function RemoveFirst<T(==)>(xs: seq<T>, a: T): (r: seq<T>)
    requires a in xs
    ensures |r| == |xs| - 1
  {
    var q := FirstIndex(xs, a);
    xs[..q] + xs[q + 1..]
  }

  /** What `remove` leaves is a subsequence of the list. */
  lemma RemoveFirstIsSubsequence<T>(xs: seq<T>, a: T)
    requires a in xs
    ensures IsSubsequence(RemoveFirst(xs, a), xs)
  {
    DeleteOneIsSubsequence(xs, FirstIndex(xs, a));
  }

  /** `remove` deletes exactly one copy of `a`. */
  lemma RemoveFirstCount<T>(xs: seq<T>, a: T)
    requires a in xs
    ensures multiset(RemoveFirst(xs, a)) == multiset(xs) - multiset{a}
  {
    var q := FirstIndex(xs, a);
    assert xs == xs[..q] + [xs[q]] + xs[q + 1..];
  }

  /** The copy `remove` deletes is the first one. */
  lemma RemoveFirstTakesFirstCopy<T>(xs: seq<T>, a: T, k: nat)
    requires k < |xs| && xs[k] == a && a !in xs[..k]
    ensures RemoveFirst(xs, a) == xs[..k] + xs[k + 1..]
  {
    FirstCopyIsFirstIndex(xs, a, k);
  }

  /** `remove` deletes exactly one copy of `a`, the first one, and keeps the
      order of the rest. */
  lemma RemoveFirstSpec<T>(xs: seq<T>, a: T)
    requires a in xs
    ensures multiset(RemoveFirst(xs, a)) == multiset(xs) - multiset{a}
    ensures IsSubsequence(RemoveFirst(xs, a), xs)
    ensures forall k :: 0 <= k < |xs| && xs[k] == a && a !in xs[..k] ==>
              RemoveFirst(xs, a) == xs[..k] + xs[k + 1..]
  {
    RemoveFirstCount(xs, a);
    RemoveFirstIsSubsequence(xs, a);
    forall k | 0 <= k < |xs| && xs[k] == a && a !in xs[..k]
      ensures RemoveFirst(xs, a) == xs[..k] + xs[k + 1..]
    {
      RemoveFirstTakesFirstCopy(xs, a, k);
    }
  }

  /** A copy of `a` with no earlier copy is the one `FirstIndex` finds. */
  lemma FirstCopyIsFirstIndex<T>(xs: seq<T>, a: T, k: nat)
    requires k < |xs| && xs[k] == a && a !in xs[..k]
    ensures k == FirstIndex(xs, a)
  {
    var q := FirstIndex(xs, a);
    assert forall j :: 0 <= j < k ==> xs[..k][j] == xs[j];
    assert forall j :: 0 <= j < q ==> xs[..q][j] == xs[j];
  }

  /** Removing `a` from `A + [a] + B` when `A` holds no `a` deletes exactly
      that occurrence. */
  lemma RemoveFirstAfterPrefix<T>(A: seq<T>, a: T, B: seq<T>)
    requires a !in A
    ensures RemoveFirst(A + [a] + B, a) == A + B
  {
    var xs := A + [a] + B;
    assert xs[..|A|] == A && xs[|A|] == a && xs[|A| + 1..] == B;
  }

  /** `random.choice(xs)` for a non-empty `xs`, with the randomness supplied
      as an arbitrary natural number. */
  function Pick<T>(xs: seq<T>, draw: nat): (r: T)
    requires |xs| > 0
    ensures r in xs
  {
    xs[draw % |xs|]
  }

  /** Every element can be the one picked, so the set of possible picks is
      exactly the set of elements. */
  lemma PickReachesEvery<T>(xs: seq<T>, i: nat)
    requires i < |xs|
    ensures Pick(xs, i) == xs[i]
  {
  }
}
