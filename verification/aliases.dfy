/** Alias resolution for a synthesized reaction command.

    The source walks the declared alias list with a `for` loop and calls
    `list.remove` on the same list whenever an alias is already a command
    name or alias. Python's list iterator keeps a position that it advances
    after every item, so after a removal the element that slides into the
    freed slot is never looked at. `ResolveAsWritten` models that loop
    exactly; `Intended` is the filter the loop was meant to compute. */
module Aliases {
  import opened JsonValues
  import opened Outcomes
  import opened Sequences

  /** `alias in bot.all_commands.keys()`: command names are strings, so only
      a string alias can be present. */
  predicate Clashes(existing: set<string>, a: Json)
  {
    a.JStr? && a.s in existing
  }

  predicate AllHashable(xs: seq<Json>)
  {
    forall i :: 0 <= i < |xs| ==> Hashable(xs[i])
  }

  /** The aliases at positions `j` and `j + 1` both clash. */
  predicate ClashPair(existing: set<string>, xs: seq<Json>, j: nat)
  {
    j + 1 < |xs| && Clashes(existing, xs[j]) && Clashes(existing, xs[j + 1])
  }

  /** Two neighbouring declared aliases both clash. */
  predicate AdjacentClash(existing: set<string>, xs: seq<Json>)
  {
    exists j: nat :: j < |xs| && ClashPair(existing, xs, j)
  }

  /** The loop from iterator position `i` over the current list `xs`. Each
      step reads `xs[i]`; the membership test raises `TypeError` for a list
      or dict alias. */
  function IterateRemoving(existing: set<string>, xs: seq<Json>, i: nat): Result<seq<Json>>
    decreases |xs| - i
  {
    if i >= |xs| then Ok(xs)
    else if !Hashable(xs[i]) then Err(TypeError)
    else if Clashes(existing, xs[i]) then IterateRemoving(existing, RemoveFirst(xs, xs[i]), i + 1)
    else IterateRemoving(existing, xs, i + 1)
  }

  /** The alias list left behind by the source's loop. The only exception is
      the `TypeError` of an unhashable alias, and with none of those the loop
      finishes. What it leaves is an order-preserving selection of the
      declared aliases that differs from them only in clashing aliases. */
  function ResolveAsWritten(existing: set<string>, declared: seq<Json>): (r: Result<seq<Json>>)
    ensures r.Err? ==> r.error == TypeError
    ensures AllHashable(declared) ==> r.Ok?
    ensures r.Ok? ==> IsSubsequence(r.value, declared) &&
                      Intended(existing, r.value) == Intended(existing, declared)
  {
    IterateRemovingKeeps(existing, declared, 0);
    IterateRemovingRaisesOnlyTypeError(existing, declared, 0);
    if AllHashable(declared) then
      IterateRemovingSucceeds(existing, declared, 0);
      IterateRemoving(existing, declared, 0)
    else
      IterateRemoving(existing, declared, 0)
  }

  /** The membership test is the only step of the loop that can raise. */
  lemma {:induction false} IterateRemovingRaisesOnlyTypeError(existing: set<string>, xs: seq<Json>, i: nat)
    ensures IterateRemoving(existing, xs, i).Err? ==> IterateRemoving(existing, xs, i).error == TypeError
    decreases |xs| - i
  {
    if i < |xs| && Hashable(xs[i]) {
      if Clashes(existing, xs[i]) {
        IterateRemovingRaisesOnlyTypeError(existing, RemoveFirst(xs, xs[i]), i + 1);
      } else {
        IterateRemovingRaisesOnlyTypeError(existing, xs, i + 1);
      }
    }
  }

  /** The evidently intended resolution: drop every clashing alias. */
  function Intended(existing: set<string>, xs: seq<Json>): seq<Json>
    decreases |xs|
  {
    if |xs| == 0 then []
    else if Clashes(existing, xs[0]) then Intended(existing, xs[1..])
    else [xs[0]] + Intended(existing, xs[1..])
  }

  /** The intended resolution keeps, in order, exactly the aliases that are
      not already commands, each as often as it is declared. */
  lemma {:induction false} IntendedSpec(existing: set<string>, xs: seq<Json>)
    ensures forall x :: x in Intended(existing, xs) <==> x in xs && !Clashes(existing, x)
    ensures forall x :: multiset(Intended(existing, xs))[x] == if Clashes(existing, x) then 0 else multiset(xs)[x]
    ensures IsSubsequence(Intended(existing, xs), xs)
    decreases |xs|
  {
    if |xs| > 0 {
      IntendedSpec(existing, xs[1..]);
      var rest := Intended(existing, xs[1..]);
      assert xs == [xs[0]] + xs[1..];
      assert multiset(xs) == multiset([xs[0]]) + multiset(xs[1..]);
      if !Clashes(existing, xs[0]) {
        assert multiset([xs[0]] + rest) == multiset([xs[0]]) + multiset(rest);
      }
      if Clashes(existing, xs[0]) {
        assert IsSubsequence(rest, xs) by {
          if |rest| > 0 && rest[0] == xs[0] {
            assert false;
          }
        }
      } else {
        assert ([xs[0]] + rest)[1..] == rest;
      }
    }
  }

  /** No alias the intended filter keeps is already a command. */
  lemma IntendedDropsClashes(existing: set<string>, xs: seq<Json>, a: Json)
    requires Clashes(existing, a)
    ensures a !in Intended(existing, xs)
  {
    IntendedSpec(existing, xs);
  }

  lemma {:induction false} IntendedConcat(existing: set<string>, a: seq<Json>, b: seq<Json>)
    ensures Intended(existing, a + b) == Intended(existing, a) + Intended(existing, b)
    decreases |a|
  {
    if |a| > 0 {
      assert (a + b)[1..] == a[1..] + b;
      IntendedConcat(existing, a[1..], b);
    } else {
      assert a + b == b;
    }
  }

  /** Removing a clashing alias does not change what the intended filter keeps. */
  lemma IntendedIgnoresClashRemoval(existing: set<string>, xs: seq<Json>, a: Json)
    requires a in xs && Clashes(existing, a)
    ensures Intended(existing, RemoveFirst(xs, a)) == Intended(existing, xs)
  {
    var q := FirstIndex(xs, a);
    assert xs == xs[..q] + ([a] + xs[q + 1..]);
    IntendedConcat(existing, xs[..q], [a] + xs[q + 1..]);
    IntendedConcat(existing, xs[..q], xs[q + 1..]);
    assert ([a] + xs[q + 1..])[1..] == xs[q + 1..];
  }

  /** What the loop leaves is a subsequence of what it started from, and it
      keeps every alias that does not clash: the list differs from the
      intended result only by clashing aliases that survived. */
  lemma {:induction false} IterateRemovingKeeps(existing: set<string>, xs: seq<Json>, i: nat)
    ensures IterateRemoving(existing, xs, i).Ok? ==>
              IsSubsequence(IterateRemoving(existing, xs, i).value, xs) &&
              Intended(existing, IterateRemoving(existing, xs, i).value) == Intended(existing, xs)
    decreases |xs| - i
  {
    if i >= |xs| {
      SubsequenceReflexive(xs);
    } else if !Hashable(xs[i]) {
    } else if Clashes(existing, xs[i]) {
      var ys := RemoveFirst(xs, xs[i]);
      IterateRemovingKeeps(existing, ys, i + 1);
      IntendedIgnoresClashRemoval(existing, xs, xs[i]);
      var r := IterateRemoving(existing, ys, i + 1);
      RemoveFirstIsSubsequence(xs, xs[i]);
      if r.Ok? {
        SubsequenceTransitive(r.value, ys, xs);
      }
    } else {
      IterateRemovingKeeps(existing, xs, i + 1);
    }
  }

  /** The resolved aliases are a subsequence of the declared ones that still
      holds every declared alias which is not already a command. */
  lemma ResolveAsWrittenKeeps(existing: set<string>, declared: seq<Json>)
    ensures ResolveAsWritten(existing, declared).Ok? ==>
              var r := ResolveAsWritten(existing, declared).value;
              IsSubsequence(r, declared) &&
              Intended(existing, r) == Intended(existing, declared) &&
              (forall x :: x in declared && !Clashes(existing, x) ==> x in r)
  {
    IntendedSpec(existing, declared);
    var res := ResolveAsWritten(existing, declared);
    if res.Ok? {
      IntendedSpec(existing, res.value);
      forall x | x in declared && !Clashes(existing, x)
        ensures x in res.value
      {
        assert x in Intended(existing, declared);
      }
    }
  }

  /** With only hashable aliases the loop never raises. */
  lemma {:induction false} IterateRemovingSucceeds(existing: set<string>, xs: seq<Json>, i: nat)
    requires AllHashable(xs)
    ensures IterateRemoving(existing, xs, i).Ok?
    decreases |xs| - i
  {
    if i < |xs| {
      if Clashes(existing, xs[i]) {
        var ys := RemoveFirst(xs, xs[i]);
        RemoveFirstIsSubsequence(xs, xs[i]);
        SubsequenceElements(ys, xs);
        forall k | 0 <= k < |ys|
          ensures Hashable(ys[k])
        {
          assert ys[k] in xs;
        }
        IterateRemovingSucceeds(existing, ys, i + 1);
      } else {
        IterateRemovingSucceeds(existing, xs, i + 1);
      }
    }
  }

  /** Some alias the iterator has already moved past clashes. */
  predicate ClashPassed(existing: set<string>, xs: seq<Json>, i: nat)
  {
    exists p :: 0 <= p < i && p < |xs| && Clashes(existing, xs[p])
  }

  /** A clashing alias the iterator has moved past is never removed for
      good: a later removal of an equal alias takes the earlier copy but
      leaves the one being read, which is already behind the iterator. */
  lemma {:induction false} PassedClashSurvives(existing: set<string>, xs: seq<Json>, i: nat)
    requires ClashPassed(existing, xs, i)
    ensures IterateRemoving(existing, xs, i).Ok? ==>
              exists x :: x in IterateRemoving(existing, xs, i).value && Clashes(existing, x)
    decreases |xs| - i
  {
    var p :| 0 <= p < i && p < |xs| && Clashes(existing, xs[p]);
    if i >= |xs| {
      assert xs[p] in xs;
    } else if !Hashable(xs[i]) {
    } else if Clashes(existing, xs[i]) {
      var a := xs[i];
      var q := FirstIndex(xs, a);
      var ys := RemoveFirst(xs, a);
      assert ys == xs[..q] + xs[q + 1..];
      if q < i {
        assert ys[i - 1] == xs[i];
      } else {
        assert ys[p] == xs[p];
      }
      PassedClashSurvives(existing, ys, i + 1);
    } else {
      PassedClashSurvives(existing, xs, i + 1);
    }
  }

  /** One loop step over an alias that is not a command: nothing is removed. */
  lemma StepOverKept(existing: set<string>, L: seq<Json>, i: nat)
    requires i < |L| && Hashable(L[i]) && !Clashes(existing, L[i])
    ensures IterateRemoving(existing, L, i) == IterateRemoving(existing, L, i + 1)
  {
  }

  /** One loop step over a clashing alias whose first occurrence is the one
      being read: it is removed and the iterator moves past its successor. */
  lemma StepOverRemoved(existing: set<string>, K: seq<Json>, a: Json, B: seq<Json>)
    requires Hashable(a) && Clashes(existing, a) && a !in K
    ensures IterateRemoving(existing, K + [a] + B, |K|) == IterateRemoving(existing, K + B, |K| + 1)
  {
    var L := K + [a] + B;
    assert L[|K|] == a;
    RemoveFirstAfterPrefix(K, a, B);
  }

  lemma IntendedOne(existing: set<string>, a: Json)
    ensures Intended(existing, [a]) == if Clashes(existing, a) then [] else [a]
  {
    assert [a][1..] == [];
  }

  /** Extending a prefix by one alias extends its intended resolution by
      that alias unless it clashes. */
  lemma IntendedExtend(existing: set<string>, xs: seq<Json>, k: nat)
    requires 0 < k <= |xs|
    ensures Intended(existing, xs[..k]) ==
            Intended(existing, xs[..k - 1]) + (if Clashes(existing, xs[k - 1]) then [] else [xs[k - 1]])
  {
    assert xs[..k] == xs[..k - 1] + [xs[k - 1]];
    IntendedConcat(existing, xs[..k - 1], [xs[k - 1]]);
    IntendedOne(existing, xs[k - 1]);
  }

  lemma Regroup(K: seq<Json>, a: Json, T: seq<Json>)
    ensures K + ([a] + T) == K + [a] + T
  {
  }

  lemma SuffixUnfold(xs: seq<Json>, k: nat)
    requires k < |xs|
    ensures xs[k..] == [xs[k]] + xs[k + 1..]
  {
  }

  /** The loop with the first `k` declared aliases filtered as intended and
      the iterator just after them. */
  function LoopAt(existing: set<string>, xs: seq<Json>, k: nat): Result<seq<Json>>
    requires k <= |xs|
  {
    IterateRemoving(existing, Intended(existing, xs[..k]) + xs[k..], |Intended(existing, xs[..k])|)
  }

  /** Reading an alias that is not a command moves the state on by one. */
  lemma AdvanceOverKept(existing: set<string>, xs: seq<Json>, k: nat)
    requires 0 < k <= |xs|
    requires Hashable(xs[k - 1]) && !Clashes(existing, xs[k - 1])
    ensures LoopAt(existing, xs, k - 1) == LoopAt(existing, xs, k)
  {
    var K := Intended(existing, xs[..k - 1]);
    var b := xs[k - 1];
    IntendedExtend(existing, xs, k);
    SuffixUnfold(xs, k - 1);
    Regroup(K, b, xs[k..]);
    StepOverKept(existing, K + [b] + xs[k..], |K|);
  }

  /** Reading a clashing alias removes it and skips its successor; when the
      successor does not clash this is the intended filter over both. */
  lemma AdvanceOverRemoved(existing: set<string>, xs: seq<Json>, k: nat)
    requires 2 <= k <= |xs|
    requires Hashable(xs[k - 2]) && Clashes(existing, xs[k - 2]) && !Clashes(existing, xs[k - 1])
    ensures LoopAt(existing, xs, k - 2) == LoopAt(existing, xs, k)
  {
    var K := Intended(existing, xs[..k - 2]);
    var a := xs[k - 2];
    var b := xs[k - 1];
    IntendedDropsClashes(existing, xs[..k - 2], xs[k - 2]);
    IntendedExtend(existing, xs, k - 1);
    IntendedExtend(existing, xs, k);
    assert a !in K;
    assert Intended(existing, xs[..k]) == K + [b];
    SuffixUnfold(xs, k - 2);
    SuffixUnfold(xs, k - 1);
    assert xs[k - 2..] == [a] + ([b] + xs[k..]);
    Regroup(K, a, [b] + xs[k..]);
    Regroup(K, b, xs[k..]);
    StepOverRemoved(existing, K, a, [b] + xs[k..]);
    assert LoopAt(existing, xs, k - 2) == IterateRemoving(existing, K + [a] + ([b] + xs[k..]), |K|);
    assert LoopAt(existing, xs, k) == IterateRemoving(existing, K + [b] + xs[k..], |K| + 1);
  }

  /** The iterator reaches declared position `k` with the state `LoopAt(k)`
      when it meets no two neighbouring clashes before `k`: everything before
      `k` has been filtered as intended and everything from `k` on is
      untouched. */
  lemma {:induction false} ReachPosition(existing: set<string>, xs: seq<Json>, k: nat)
    requires k <= |xs|
    requires AllHashable(xs)
    requires forall j: nat :: j + 1 < k ==> !ClashPair(existing, xs, j)
    requires k == 0 || !Clashes(existing, xs[k - 1])
    ensures IterateRemoving(existing, xs, 0) == LoopAt(existing, xs, k)
    decreases k, 1
  {
    if k == 0 {
      assert xs[..0] == [] && [] + xs[0..] == xs;
    } else if k == 1 || !Clashes(existing, xs[k - 2]) {
      ReachAfterKept(existing, xs, k);
    } else {
      ReachAfterRemoved(existing, xs, k);
    }
  }

  /** The inductive case where the alias before the kept one at `k - 1` does
      not clash either: the iterator reached `k - 1` and steps over one alias. */
  lemma {:induction false} ReachAfterKept(existing: set<string>, xs: seq<Json>, k: nat)
    requires 0 < k <= |xs|
    requires AllHashable(xs)
    requires forall j: nat :: j + 1 < k ==> !ClashPair(existing, xs, j)
    requires !Clashes(existing, xs[k - 1])
    requires k == 1 || !Clashes(existing, xs[k - 2])
    ensures IterateRemoving(existing, xs, 0) == LoopAt(existing, xs, k)
    decreases k, 0
  {
    assert Hashable(xs[k - 1]);
    ReachPosition(existing, xs, k - 1);
    AdvanceOverKept(existing, xs, k);
  }

  /** The inductive case where the alias at `k - 2` clashes: the iterator
      reached `k - 2`, removes that alias and skips the kept one after it. */
  lemma {:induction false} ReachAfterRemoved(existing: set<string>, xs: seq<Json>, k: nat)
    requires 2 <= k <= |xs|
    requires AllHashable(xs)
    requires forall j: nat :: j + 1 < k ==> !ClashPair(existing, xs, j)
    requires !Clashes(existing, xs[k - 1])
    requires Clashes(existing, xs[k - 2])
    ensures IterateRemoving(existing, xs, 0) == LoopAt(existing, xs, k)
    decreases k, 0
  {
    assert Hashable(xs[k - 2]);
    if k >= 3 {
      assert !ClashPair(existing, xs, k - 3);
    }
    ReachPosition(existing, xs, k - 2);
    AdvanceOverRemoved(existing, xs, k);
  }

  /** The first position of two neighbouring clashing aliases. */
  function FirstAdjacentClash(existing: set<string>, xs: seq<Json>): (j: nat)
    requires AdjacentClash(existing, xs)
    ensures ClashPair(existing, xs, j)
    ensures forall m: nat :: m < j ==> !ClashPair(existing, xs, m)
    decreases |xs|
  {
    if Clashes(existing, xs[0]) && Clashes(existing, xs[1]) then 0
    else
      assert AdjacentClash(existing, xs[1..]) by {
        var j: nat :| j < |xs| && ClashPair(existing, xs, j);
        assert j >= 1;
        assert xs[1..][j - 1] == xs[j] && xs[1..][j] == xs[j + 1];
        assert ClashPair(existing, xs[1..], j - 1);
      }
      var j := 1 + FirstAdjacentClash(existing, xs[1..]);
      assert forall m: nat :: 1 <= m < j ==> (ClashPair(existing, xs, m) <==> ClashPair(existing, xs[1..], m - 1));
      j
  }

  /** Once the iterator has passed every declared alias the loop stops with
      the intended list. */
  lemma LoopAtEnd(existing: set<string>, xs: seq<Json>)
    ensures LoopAt(existing, xs, |xs|) == Ok(Intended(existing, xs))
  {
    assert xs[..|xs|] == xs && xs[|xs|..] == [];
    var K := Intended(existing, xs);
    assert K + [] == K;
  }

  /** A clashing last alias read by the iterator is removed and the loop stops. */
  lemma LoopAtLastClash(existing: set<string>, xs: seq<Json>)
    requires |xs| > 0
    requires Hashable(xs[|xs| - 1]) && Clashes(existing, xs[|xs| - 1])
    ensures LoopAt(existing, xs, |xs| - 1) == Ok(Intended(existing, xs))
  {
    var n := |xs|;
    var K := Intended(existing, xs[..n - 1]);
    var a := xs[n - 1];
    IntendedDropsClashes(existing, xs[..n - 1], xs[n - 1]);
    IntendedExtend(existing, xs, n);
    assert xs[..n] == xs;
    assert xs[n - 1..] == [a];
    assert K + [a] == K + [a] + [];
    StepOverRemoved(existing, K, a, []);
    assert K + [] == K;
  }

  lemma NoAdjacentClashGivesIntended(existing: set<string>, xs: seq<Json>)
    requires AllHashable(xs) && !AdjacentClash(existing, xs)
    ensures ResolveAsWritten(existing, xs) == Ok(Intended(existing, xs))
  {
    var n := |xs|;
    if n == 0 {
    } else if !Clashes(existing, xs[n - 1]) {
      ReachPosition(existing, xs, n);
      LoopAtEnd(existing, xs);
    } else {
      if n >= 2 {
        assert !ClashPair(existing, xs, n - 2);
      }
      ReachPosition(existing, xs, n - 1);
      LoopAtLastClash(existing, xs);
    }
  }

  /** Reading a clashing alias at declared position `j`, reached with the
      state `LoopAt(j)`, removes that alias and moves the iterator past the
      alias that slid into its slot. */
  lemma RemoveAtClash(existing: set<string>, xs: seq<Json>, j: nat)
    requires j < |xs| && Hashable(xs[j]) && Clashes(existing, xs[j])
    ensures LoopAt(existing, xs, j) ==
            IterateRemoving(existing, Intended(existing, xs[..j]) + xs[j + 1..], |Intended(existing, xs[..j])| + 1)
  {
    var K := Intended(existing, xs[..j]);
    var a := xs[j];
    IntendedDropsClashes(existing, xs[..j], xs[j]);
    SuffixUnfold(xs, j);
    Regroup(K, a, xs[j + 1..]);
    assert LoopAt(existing, xs, j) == IterateRemoving(existing, K + [a] + xs[j + 1..], |K|);
    StepOverRemoved(existing, K, a, xs[j + 1..]);
  }

  /** When the first neighbouring clash pair starts at `j`, the loop ends
      with a clashing alias still in the list: the second alias of the pair
      slides into the freed slot behind the iterator. */
  lemma FirstClashPairSurvives(existing: set<string>, xs: seq<Json>, j: nat)
    requires AllHashable(xs) && ClashPair(existing, xs, j)
    requires forall m: nat :: m < j ==> !ClashPair(existing, xs, m)
    ensures IterateRemoving(existing, xs, 0).Ok? ==>
              exists x :: x in IterateRemoving(existing, xs, 0).value && Clashes(existing, x)
  {
    if j > 0 {
      assert !ClashPair(existing, xs, j - 1);
    }
    ReachPosition(existing, xs, j);
    assert Hashable(xs[j]);
    RemoveAtClash(existing, xs, j);
    var K := Intended(existing, xs[..j]);
    var ys := K + xs[j + 1..];
    assert ys[|K|] == xs[j + 1];
    assert ClashPassed(existing, ys, |K| + 1);
    PassedClashSurvives(existing, ys, |K| + 1);
  }

  /** After the first two neighbouring clashes the second one is behind the
      iterator, so the loop ends with a clashing alias left in the list. */
  lemma AdjacentClashLeavesClash(existing: set<string>, xs: seq<Json>)
    requires AllHashable(xs) && AdjacentClash(existing, xs)
    ensures ResolveAsWritten(existing, xs) != Ok(Intended(existing, xs))
  {
    var j := FirstAdjacentClash(existing, xs);
    FirstClashPairSurvives(existing, xs, j);
    var r := IterateRemoving(existing, xs, 0);
    assert r == ResolveAsWritten(existing, xs);
    if r == Ok(Intended(existing, xs)) {
      var x :| x in r.value && Clashes(existing, x);
      IntendedDropsClashes(existing, xs, x);
      assert false;
    }
  }

  /** The source's loop computes the intended filter exactly when no two
      neighbouring declared aliases are both already commands. */
  lemma MatchesIntendedIffNoAdjacentClash(existing: set<string>, xs: seq<Json>)
    requires AllHashable(xs)
    ensures ResolveAsWritten(existing, xs) == Ok(Intended(existing, xs)) <==> !AdjacentClash(existing, xs)
  {
    if !AdjacentClash(existing, xs) {
      NoAdjacentClashGivesIntended(existing, xs);
    } else {
      AdjacentClashLeavesClash(existing, xs);
    }
  }

  /** The smallest input that shows the difference: both declared aliases are
      already commands, yet the second one survives. */
  lemma SecondOfTwoClashesSurvives()
    ensures ResolveAsWritten({"pet", "pat"}, [JStr("pet"), JStr("pat")]) == Ok([JStr("pat")])
    ensures Intended({"pet", "pat"}, [JStr("pet"), JStr("pat")]) == []
  {
    var xs := [JStr("pet"), JStr("pat")];
    assert RemoveFirst(xs, JStr("pet")) == [JStr("pat")] by {
      RemoveFirstAfterPrefix([], JStr("pet"), [JStr("pat")]);
    }
  }
}
