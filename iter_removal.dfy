/**
  Removing elements from a Python list while a `for` loop iterates over that same list.

  The loop's iterator keeps an index that advances by one after every element; removing the
  element just examined shifts its successor into the examined slot, so the successor is never
  looked at in that pass. `RefreshPass` is what such a loop leaves behind when it removes every
  examined element that fails `keep`; `Filter` is what removing every failing element would
  leave behind.
*/
module IteratedRemoval {
  import opened Common

  /** The list a remove-while-iterating pass leaves. */
  function RefreshPass<T>(s: seq<T>, keep: T -> bool): (r: seq<T>)
    ensures |r| <= |s|
    ensures forall x :: x in r ==> x in s
  {
    if s == [] then []
    else if keep(s[0]) then [s[0]] + RefreshPass(s[1..], keep)
    else if |s| == 1 then []
    else [s[1]] + RefreshPass(s[2..], keep)
  }

  /** The elements the pass steps over: each successor of a removed element. */
  function Skipped<T>(s: seq<T>, keep: T -> bool): (r: seq<T>)
    ensures forall x :: x in r ==> x in s
  {
    if s == [] then []
    else if keep(s[0]) then Skipped(s[1..], keep)
    else if |s| == 1 then []
    else [s[1]] + Skipped(s[2..], keep)
  }

  /** The elements of `s` that satisfy `keep`, in order. */
  function Filter<T>(s: seq<T>, keep: T -> bool): (r: seq<T>)
    ensures |r| <= |s|
  {
    if s == [] then [] else (if keep(s[0]) then [s[0]] else []) + Filter(s[1..], keep)
  }

  /** The filter keeps exactly the elements that satisfy the predicate. */
  lemma {:induction false} FilterMembership<T>(s: seq<T>, keep: T -> bool, x: T)
    ensures x in Filter(s, keep) <==> x in s && keep(x)
  {
    if s != [] {
      FilterMembership(s[1..], keep, x);
      assert s == [s[0]] + s[1..];
    }
  }

  /** One step of the filter. */
  lemma FilterCons<T>(s: seq<T>, keep: T -> bool)
    requires s != []
    ensures Filter(s, keep) == (if keep(s[0]) then [s[0]] else []) + Filter(s[1..], keep)
  {
  }

  /** Filtering distributes over concatenation. */
  lemma {:induction false} FilterAppend<T>(a: seq<T>, b: seq<T>, keep: T -> bool)
    ensures Filter(a + b, keep) == Filter(a, keep) + Filter(b, keep)
  {
    if a == [] {
      AppendEmpty(b);
      AppendEmpty(Filter(b, keep));
    } else {
      FilterAppend(a[1..], b, keep);
      TailOfAppend(a, b);
      FilterCons(a + b, keep);
      FilterCons(a, keep);
      AppendAssoc(if keep(a[0]) then [a[0]] else [], Filter(a[1..], keep), Filter(b, keep));
    }
  }

  /** The pass never removes an element that satisfies `keep`. */
  lemma {:induction false} PassRemovesOnlyFailing<T>(s: seq<T>, keep: T -> bool, x: T)
    requires x in s && keep(x)
    ensures x in RefreshPass(s, keep)
  {
    if s[0] != x {
      if keep(s[0]) {
        PassRemovesOnlyFailing(s[1..], keep, x);
      } else if s[1] != x {
        PassRemovesOnlyFailing(s[2..], keep, x);
      }
    }
  }

  /** An element that fails `keep` yet survives the pass is one the pass stepped over. */
  lemma {:induction false} FailingSurvivorsWereSkipped<T>(s: seq<T>, keep: T -> bool, x: T)
    requires x in RefreshPass(s, keep) && !keep(x)
    ensures x in Skipped(s, keep)
  {
    if keep(s[0]) {
      FailingSurvivorsWereSkipped(s[1..], keep, x);
    } else if s[1] != x {
      FailingSurvivorsWereSkipped(s[2..], keep, x);
    }
  }

  /** With nothing to remove, the pass leaves the list as it was. */
  lemma {:induction false} PassAllKept<T>(s: seq<T>, keep: T -> bool)
    requires forall i :: 0 <= i < |s| ==> keep(s[i])
    ensures RefreshPass(s, keep) == s
  {
    if s != [] {
      PassAllKept(s[1..], keep);
    }
  }

  /** With exactly one failing element, the pass removes exactly that element. */
  lemma {:induction false} PassSingleFailure<T>(s: seq<T>, keep: T -> bool, k: nat)
    requires k < |s| && !keep(s[k])
    requires forall i :: 0 <= i < |s| && i != k ==> keep(s[i])
    ensures RefreshPass(s, keep) == s[..k] + s[k + 1..]
  {
    if k == 0 {
      if |s| > 1 {
        PassAllKept(s[2..], keep);
        assert s[1..] == [s[1]] + s[2..];
      }
    } else {
      PassSingleFailure(s[1..], keep, k - 1);
      assert s[..k] == [s[0]] + s[1..][..k - 1];
    }
  }

  /** No two failing elements next to each other. */
  predicate NoAdjacentFailures<T>(s: seq<T>, keep: T -> bool) {
    forall i :: 0 <= i < |s| - 1 ==> keep(s[i]) || keep(s[i + 1])
  }

  /**
    When no failing element follows another, the pass agrees with the filter: every element it
    steps over would have been kept anyway.
  */
  lemma {:induction false} PassIsFilterWithoutAdjacentFailures<T>(s: seq<T>, keep: T -> bool)
    requires NoAdjacentFailures(s, keep)
    ensures RefreshPass(s, keep) == Filter(s, keep)
  {
    if s == [] {
    } else if keep(s[0]) {
      PassIsFilterWithoutAdjacentFailures(s[1..], keep);
    } else if |s| > 1 {
      assert keep(s[1]);
      PassIsFilterWithoutAdjacentFailures(s[2..], keep);
      assert Filter(s[1..], keep) == [s[1]] + Filter(s[2..], keep);
    }
  }

  /** Two failing elements in a row: the pass removes the first and keeps the second. */
  lemma AdjacentFailureSurvives<T>(x: T, y: T, keep: T -> bool)
    requires !keep(x) && !keep(y)
    ensures RefreshPass([x, y], keep) == [y]
    ensures Filter([x, y], keep) == []
  {
    assert [x, y][2..] == [];
    assert [x, y][1..] == [y];
  }

  /* Step lemmas for a loop that keeps the iterator index `i` over the list it edits. */

  /** Examining a kept element moves it into the finished prefix. */
  lemma PassStepKeep<T>(s: seq<T>, i: nat, keep: T -> bool)
    requires i < |s| && keep(s[i])
    ensures s[..i] + RefreshPass(s[i..], keep) == s[..i + 1] + RefreshPass(s[i + 1..], keep)
    ensures Skipped(s[i..], keep) == Skipped(s[i + 1..], keep)
  {
    assert s[i..][1..] == s[i + 1..];
    assert s[..i + 1] == s[..i] + [s[i]];
  }

  /**
    Removing an examined element that fails, when another follows it: the follower takes the
    examined slot, joins the finished prefix unexamined, and is the next skipped element.
  */
  lemma PassStepRemove<T>(s: seq<T>, i: nat, keep: T -> bool)
    requires i + 1 < |s| && !keep(s[i])
    ensures var r := s[..i] + s[i + 1..];
      s[..i] + RefreshPass(s[i..], keep) == r[..i + 1] + RefreshPass(r[i + 1..], keep)
      && Skipped(s[i..], keep) == [r[i]] + Skipped(r[i + 1..], keep)
  {
    var r := s[..i] + s[i + 1..];
    assert s[i..][2..] == s[i + 2..] == r[i + 1..];
    assert s[i..][1] == s[i + 1] == r[i];
    assert r[..i + 1] == s[..i] + [s[i + 1]];
  }

  /** Removing a failing last element ends the pass. */
  lemma PassStepRemoveLast<T>(s: seq<T>, i: nat, keep: T -> bool)
    requires i + 1 == |s| && !keep(s[i])
    ensures s[..i] + RefreshPass(s[i..], keep) == s[..i] + s[i + 1..]
    ensures Skipped(s[i..], keep) == []
  {
    assert s[i..] == [s[i]];
    assert s[i + 1..] == [];
  }

  /**
    Where a remove-while-iterating loop over `orig` stands: `s` is the list now, `i` the
    iterator's index into it and `skipped` the elements stepped over so far. Once the index
    passes the end the loop is finished.
  */
  ghost predicate PassState<T>(orig: seq<T>, s: seq<T>, i: nat, skipped: seq<T>, keep: T -> bool) {
    if i <= |s| then
      s[..i] + RefreshPass(s[i..], keep) == RefreshPass(orig, keep)
      && skipped + Skipped(s[i..], keep) == Skipped(orig, keep)
    else
      i == |s| + 1 && s == RefreshPass(orig, keep) && skipped == Skipped(orig, keep)
  }

  lemma PassStateStart<T>(orig: seq<T>, keep: T -> bool)
    ensures PassState(orig, orig, 0, [], keep)
  {
    assert orig[0..] == orig;
  }

  lemma PassStateKeep<T>(orig: seq<T>, s: seq<T>, i: nat, skipped: seq<T>, keep: T -> bool)
    requires PassState(orig, s, i, skipped, keep) && i < |s| && keep(s[i])
    ensures PassState(orig, s, i + 1, skipped, keep)
  {
    PassStepKeep(s, i, keep);
  }

  lemma PassStateRemove<T>(orig: seq<T>, s: seq<T>, i: nat, skipped: seq<T>, keep: T -> bool)
    requires PassState(orig, s, i, skipped, keep) && i < |s| && !keep(s[i])
    ensures PassState(orig, s[..i] + s[i + 1..], i + 1, if i + 1 < |s| then skipped + [s[i + 1]] else skipped, keep)
  {
    if i + 1 < |s| {
      PassStepRemove(s, i, keep);
      var r := s[..i] + s[i + 1..];
      assert r[i] == s[i + 1];
      assert (skipped + [s[i + 1]]) + Skipped(r[i + 1..], keep) == skipped + ([r[i]] + Skipped(r[i + 1..], keep));
    } else {
      PassStepRemoveLast(s, i, keep);
      assert skipped + [] == skipped;
    }
  }

  lemma PassStateEnd<T>(orig: seq<T>, s: seq<T>, i: nat, skipped: seq<T>, keep: T -> bool)
    requires PassState(orig, s, i, skipped, keep) && i >= |s|
    ensures s == RefreshPass(orig, keep) && skipped == Skipped(orig, keep)
  {
    if i == |s| {
      assert s[..i] == s && s[i..] == [];
    }
  }

  /** After removing the element at `i`, the elements stepped over are still listed. */
  lemma SkippedStayListed<T>(items: seq<T>, i: nat, skipped: seq<T>, r: seq<T>, sk: seq<T>)
    requires i < |items| && (forall t :: t in skipped ==> t in items) && items[i] !in skipped
    requires r == items[..i] + items[i + 1..] && sk == if i + 1 < |items| then skipped + [items[i + 1]] else skipped
    ensures forall t :: t in sk ==> t in r
  {
    forall t | t in sk ensures t in r {
      if t in skipped {
        var k :| 0 <= k < |items| && items[k] == t;
        assert k != i;
        assert t == r[if k < i then k else k - 1];
      } else {
        assert t == r[i];
      }
    }
  }

  /** After removing the element at `i`, the elements stepped over all sit before the iterator. */
  lemma SkippedStayBehind<T>(items: seq<T>, i: nat, skipped: seq<T>, r: seq<T>, sk: seq<T>)
    requires i < |items| && forall a, b :: 0 <= a < |items| && 0 <= b < |items| && a != b ==> items[a] != items[b]
    requires forall k :: 0 <= k < |items| && items[k] in skipped ==> k < i
    requires r == items[..i] + items[i + 1..] && sk == if i + 1 < |items| then skipped + [items[i + 1]] else skipped
    ensures forall k :: 0 <= k < |r| && r[k] in sk ==> k < i + 1
  {
    forall k | 0 <= k < |r| && r[k] in sk ensures k < i + 1 {
      var j := if k < i then k else k + 1;
      assert r[k] == items[j];
      if r[k] !in skipped {
        assert items[j] == items[i + 1];
      }
    }
  }
}
