/**
  What the package editor's add and delete buttons do to the list of member names.

  Members are matched by name only: a stored transform compares equal to a string holding its
  name, so `name in items`, `items.index(name)` and `items.remove(name)` all look members up by
  name. These functions describe the resulting list of names; the classes that hold the members
  are proved to follow them.
*/
module Membership {
  import opened Common

  /**
    Adding a selection, name by name in selection order: a name in `excluded` is passed over,
    a name already present stays where it is (its member is refreshed), any other name is
    appended at the end.
  */
  function AddNames(names: seq<string>, selection: seq<string>, excluded: set<string>): seq<string>
    decreases |selection|
  {
    if selection == [] then names
    else
      var n := selection[0];
      AddNames(if n in excluded || n in names then names else names + [n], selection[1..], excluded)
  }

  /** Adding never moves or drops a name already present: the old list is a prefix. */
  lemma {:induction false} AddNamesPrefix(names: seq<string>, selection: seq<string>, excluded: set<string>)
    ensures |names| <= |AddNames(names, selection, excluded)|
    ensures AddNames(names, selection, excluded)[..|names|] == names
    decreases |selection|
  {
    if selection != [] {
      var n := selection[0];
      var next := if n in excluded || n in names then names else names + [n];
      AddNamesPrefix(next, selection[1..], excluded);
      assert next[..|names|] == names;
    }
  }

  /** After adding, a name is present exactly when it was before or it was selected and not excluded. */
  lemma {:induction false} AddNamesMembers(names: seq<string>, selection: seq<string>, excluded: set<string>, x: string)
    ensures x in AddNames(names, selection, excluded) <==> x in names || (x in selection && x !in excluded)
    decreases |selection|
  {
    if selection != [] {
      var n := selection[0];
      var next := if n in excluded || n in names then names else names + [n];
      AddNamesMembers(next, selection[1..], excluded, x);
      assert selection == [n] + selection[1..];
    }
  }

  /** Adding keeps the names distinct. */
  lemma {:induction false} AddNamesDistinct(names: seq<string>, selection: seq<string>, excluded: set<string>)
    requires Distinct(names)
    ensures Distinct(AddNames(names, selection, excluded))
    decreases |selection|
  {
    if selection != [] {
      var n := selection[0];
      var next := if n in excluded || n in names then names else names + [n];
      AddNamesDistinct(next, selection[1..], excluded);
    }
  }

  /** The names of `names` that are not in `gone`, in order. */
  function Without(names: seq<string>, gone: set<string>): (r: seq<string>)
    ensures |r| <= |names|
  {
    if names == [] then [] else (if names[0] in gone then [] else [names[0]]) + Without(names[1..], gone)
  }

  lemma {:induction false} WithoutMembers(names: seq<string>, gone: set<string>, x: string)
    ensures x in Without(names, gone) <==> x in names && x !in gone
  {
    if names != [] {
      WithoutMembers(names[1..], gone, x);
      assert names == [names[0]] + names[1..];
    }
  }

  lemma {:induction false} WithoutTwice(names: seq<string>, a: set<string>, b: set<string>)
    ensures Without(Without(names, a), b) == Without(names, a + b)
  {
    if names != [] {
      WithoutTwice(names[1..], a, b);
      var head := if names[0] in a then [] else [names[0]];
      WithoutAppend(head, Without(names[1..], a), b);
    }
  }

  lemma {:induction false} WithoutAppend(x: seq<string>, y: seq<string>, gone: set<string>)
    ensures Without(x + y, gone) == Without(x, gone) + Without(y, gone)
  {
    if x == [] {
      assert x + y == y;
    } else {
      assert (x + y)[1..] == x[1..] + y;
      WithoutAppend(x[1..], y, gone);
    }
  }

  /** `list.remove`: deletes the first occurrence of `n`. */
  function RemoveFirst(names: seq<string>, n: string): (r: seq<string>)
    requires n in names
    ensures |r| == |names| - 1
  {
    if names[0] == n then names[1..] else [names[0]] + RemoveFirst(names[1..], n)
  }

  /** `list.remove` deletes the element at the first position holding `n`. */
  lemma {:induction false} RemoveFirstAt(names: seq<string>, n: string, k: nat)
    requires k < |names| && names[k] == n
    requires forall i :: 0 <= i < k ==> names[i] != n
    ensures RemoveFirst(names, n) == names[..k] + names[k + 1..]
  {
    if k > 0 {
      RemoveFirstAt(names[1..], n, k - 1);
      assert names[..k] == [names[0]] + names[1..][..k - 1];
    }
  }

  /** In a list of distinct names, removing the first occurrence removes the name altogether. */
  lemma {:induction false} RemoveFirstDistinct(names: seq<string>, n: string)
    requires n in names && Distinct(names)
    ensures RemoveFirst(names, n) == Without(names, {n})
  {
    if names[0] == n {
      WithoutMembers(names[1..], {n}, n);
      WithoutIdentity(names[1..], {n});
    } else {
      RemoveFirstDistinct(names[1..], n);
    }
  }

  lemma {:induction false} WithoutIdentity(names: seq<string>, gone: set<string>)
    requires forall i :: 0 <= i < |names| ==> names[i] !in gone
    ensures Without(names, gone) == names
  {
    if names != [] {
      WithoutIdentity(names[1..], gone);
    }
  }

  /**
    Deleting the selected names one by one. The flag is false when a selected name is no longer
    present: the removal raises there, and the names removed before it stay removed.
  */
  function DeleteNames(names: seq<string>, selection: seq<string>): (seq<string>, bool)
    decreases |selection|
  {
    if selection == [] then (names, true)
    else if selection[0] !in names then (names, false)
    else DeleteNames(RemoveFirst(names, selection[0]), selection[1..])
  }

  /**
    On distinct names, deletion succeeds exactly when every selected name is present and none
    is selected twice, and then it leaves the other names in their order.
  */
  lemma {:induction false} DeleteNamesSpec(names: seq<string>, selection: seq<string>)
    requires Distinct(names)
    ensures DeleteNames(names, selection).1 <==> (forall x :: x in selection ==> x in names) && Distinct(selection)
    ensures DeleteNames(names, selection).1 ==> DeleteNames(names, selection).0 == Without(names, set x | x in selection)
    decreases |selection|
  {
    if selection == [] {
      WithoutIdentity(names, {});
      assert (set x | x in selection) == {};
    } else {
      var n := selection[0];
      var rest := selection[1..];
      assert selection == [n] + rest;
      if n in names {
        var next := RemoveFirst(names, n);
        RemoveFirstDistinct(names, n);
        forall x ensures x in next <==> x in names && x != n {
          WithoutMembers(names, {n}, x);
        }
        WithoutDistinct(names, {n});
        DeleteNamesSpec(next, rest);
        assert DeleteNames(names, selection) == DeleteNames(next, rest);
        if DeleteNames(next, rest).1 {
          WithoutTwice(names, {n}, set x | x in rest);
          assert {n} + (set x | x in rest) == set x | x in selection;
          DistinctCons(n, rest);
        } else if Distinct(selection) {
          DistinctTail(selection);
          var x :| x in rest && x !in next;
          assert x != n && x !in names && x in selection;
        }
      }
    }
  }

  /** A name put before distinct names it is not among keeps them distinct. */
  lemma DistinctCons(n: string, rest: seq<string>)
    requires Distinct(rest) && n !in rest
    ensures Distinct([n] + rest)
  {
    var s := [n] + rest;
    forall i, j | 0 <= i < j < |s| ensures s[i] != s[j] {
      assert s[j] == rest[j - 1];
      if i > 0 {
        assert s[i] == rest[i - 1];
      }
    }
  }

  /** The tail of a list of distinct names is distinct and does not hold the head. */
  lemma DistinctTail(selection: seq<string>)
    requires selection != [] && Distinct(selection)
    ensures Distinct(selection[1..]) && selection[0] !in selection[1..]
  {
    var rest := selection[1..];
    forall i | 0 <= i < |rest| ensures rest[i] != selection[0] {
      assert selection[0] != selection[i + 1];
    }
    forall i, j | 0 <= i < j < |rest| ensures rest[i] != rest[j] {
      assert selection[i + 1] != selection[j + 1];
    }
  }

  lemma {:induction false} WithoutDistinct(names: seq<string>, gone: set<string>)
    requires Distinct(names)
    ensures Distinct(Without(names, gone))
  {
    if names != [] {
      WithoutDistinct(names[1..], gone);
      WithoutMembers(names[1..], gone, names[0]);
    }
  }
}
