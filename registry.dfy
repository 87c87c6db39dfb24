/**
  The package manager: the ordered list of packages and the package currently open in the
  package editor. The list is never empty and the current package is always one of its
  packages. The editor's add, refresh and delete buttons act on the current package, and
  automatic generation appends one package per group of similar shapes.
*/
module PackageManager {
  import opened Common
  import opened Vectors
  import opened Transforms
  import opened UiHelpers
  import opened Clustering
  import opened Packages

  /** The transform above each shape of a group, in order (`listRelatives(..., parent=True)`). */
  function Parents(group: seq<string>, parentOf: string -> string): (r: seq<string>)
    ensures |r| == |group|
    ensures forall k :: 0 <= k < |group| ==> r[k] == parentOf(group[k])
  {
    seq(|group|, k requires 0 <= k < |group| => parentOf(group[k]))
  }

  /**
    What the host hands automatic generation: shapes, each under a live transform. Several
    shapes may share one transform, which then becomes a member once per shape.
  */
  predicate ShapesReady(shapes: seq<string>, parentOf: string -> string, scene: Scene) {
    forall s :: s in shapes ==> IsLiveTransform(scene, parentOf(s))
  }

  /**
    Two shapes under one transform, taken into one package, give that package two members of
    the same name.
  */
  lemma SharedParentRepeats(group: seq<string>, parentOf: string -> string, i: nat, j: nat)
    requires i < j < |group| && parentOf(group[i]) == parentOf(group[j])
    ensures !Distinct(Parents(group, parentOf))
  {
    var ps := Parents(group, parentOf);
    assert ps[i] == ps[j];
  }

  /** A package generated from a group: its members are the group's transforms, it is named after the first. */
  ghost predicate Generated(p: Package, group: seq<string>, parentOf: string -> string)
    reads p, p.nameField
  {
    group != []
    && Names(p.items) == Parents(group, parentOf)
    && p.FileName() == SanitizeFileName(parentOf(group[0]))
    && !p.customPathEnabled
  }

  /** Each package of `ps` was generated from the group at the same position. */
  ghost predicate GeneratedFrom(ps: seq<Package>, groups: seq<seq<string>>, parentOf: string -> string)
    reads set p | p in ps, set p | p in ps :: p.nameField
  {
    |ps| == |groups| && forall j :: 0 <= j < |ps| ==> Generated(ps[j], groups[j], parentOf)
  }

  lemma GeneratedFromAppend(ps: seq<Package>, groups: seq<seq<string>>, p: Package, group: seq<string>,
                            parentOf: string -> string)
    requires GeneratedFrom(ps, groups, parentOf) && Generated(p, group, parentOf)
    ensures GeneratedFrom(ps + [p], groups + [group], parentOf)
  {
  }

  /** A round of generation draws both halves of the list from the list it came from. */
  lemma RoundWithin(pool: seq<string>, similar: (string, string) -> bool, cancel: nat -> bool, poll: nat)
    requires pool != []
    ensures var round := Round(pool, similar, cancel, poll);
      && (forall s :: s in round.0 ==> s in pool)
      && (forall s :: s in round.1 ==> s in pool)
  {
    var round := Round(pool, similar, cancel, poll);
    RoundParts(pool, similar, cancel, poll);
    forall s | s in round.0 || s in round.1
      ensures s in pool
    {
      assert s in multiset(round.0) || s in multiset(round.1);
      assert s in multiset(pool);
    }
  }

  /** A round of generation over distinct shapes leaves both halves of the list distinct. */
  lemma RoundDistinct(pool: seq<string>, similar: (string, string) -> bool, cancel: nat -> bool, poll: nat)
    requires pool != [] && Distinct(pool)
    ensures var round := Round(pool, similar, cancel, poll);
      && Distinct(round.0) && Distinct(round.1)
  {
    var round := Round(pool, similar, cancel, poll);
    RoundParts(pool, similar, cancel, poll);
    MultisetDistinct(round.0, pool, round.1);
    MultisetDistinct(round.1, pool, round.0);
  }

  /** No two packages of the list share an attribute list: every member is created with lists of its own. */
  predicate PackagesSeparate(ps: seq<Package>)
    reads set p | p in ps
  {
    forall i, j :: 0 <= i < |ps| && 0 <= j < |ps| && i != j ==> ps[i].ItemArrays() !! ps[j].ItemArrays()
  }

  /** Removing one package keeps the others apart. */
  lemma PackagesSeparateRemove(ps: seq<Package>, k: nat)
    requires PackagesSeparate(ps) && k < |ps|
    ensures PackagesSeparate(ps[..k] + ps[k + 1..])
  {
    var r := ps[..k] + ps[k + 1..];
    assert forall j :: 0 <= j < |r| ==> r[j] == ps[if j < k then j else j + 1];
  }


  /** A part of a list of distinct elements, as counted by multisets, is itself distinct. */
  lemma MultisetDistinct(part: seq<string>, whole: seq<string>, other: seq<string>)
    requires Distinct(whole) && multiset(part) + multiset(other) == multiset(whole)
    ensures Distinct(part)
  {
    forall i, j | 0 <= i < j < |part|
      ensures part[i] != part[j]
    {
      if part[i] == part[j] {
        var x := part[i];
        TwiceCounted(part, i, j);
        DistinctCount(whole, x);
        assert false;
      }
    }
  }

  lemma TwiceCounted(s: seq<string>, i: nat, j: nat)
    requires i < j < |s| && s[i] == s[j]
    ensures multiset(s)[s[i]] >= 2
  {
    assert s == s[..j] + [s[j]] + s[j + 1..];
    assert s[i] in s[..j];
  }

  lemma {:induction false} DistinctCount(s: seq<string>, x: string)
    requires Distinct(s)
    ensures multiset(s)[x] <= 1
  {
    if s != [] {
      DistinctCount(s[1..], x);
      assert s == [s[0]] + s[1..];
      if s[0] == x {
        assert x !in s[1..];
      }
    }
  }

  class Registry {
    var packages: seq<Package>
    var current: Package

    /**
      The list is never empty, holds each package once, and holds the current package; no two
      packages share an attribute list.
    */
    ghost predicate Valid()
      reads this, packages
    {
      |packages| > 0 && current in packages && Distinct(packages)
      && (forall p :: p in packages ==> p.Valid())
      && PackagesSeparate(packages)
    }

    /** The manager starts with one new package, which is current. */
    constructor ()
      ensures Valid() && |packages| == 1 && current == packages[0]
      ensures fresh(current) && current.items == []
    {
      var p := new Package();
      packages := [p];
      current := p;
    }

    /** Append a new empty package; the current package stays current. */
    method AddPackage() returns (p: Package)
      requires Valid()
      modifies this
      ensures Valid() && packages == old(packages) + [p] && current == old(current)
      ensures fresh(p) && fresh(p.nameField) && p.items == [] && !p.customPathEnabled && p.FileName() == ""
    {
      p := new Package();
      packages := packages + [p];
    }

    /** Open a package of the list in the editor. */
    method SetCurrentPackage(p: Package)
      requires Valid() && p in packages
      modifies this
      ensures Valid() && current == p && packages == old(packages)
    {
      current := p;
    }

    /**
      The package's delete button. A package that is not in the list makes the removal raise
      and nothing changes (`ok == false`). Otherwise the package leaves the list; an emptied
      list gets a new package, which becomes current, and otherwise the first remaining package
      becomes current, even when the removed package was not the current one.
    */
    method RemovePackage(p: Package) returns (ok: bool)
      requires Valid()
      modifies this
      ensures Valid()
      ensures ok == (p in old(packages))
      ensures !ok ==> packages == old(packages) && current == old(current)
      ensures ok ==> p !in packages
      ensures ok && |old(packages)| > 1 ==>
                var k := FirstIndex(old(packages), p);
                packages == old(packages)[..k] + old(packages)[k + 1..] && current == packages[0]
      ensures ok && |old(packages)| == 1 ==>
                |packages| == 1 && current == packages[0] && fresh(current) && current.items == []
    {
      if p !in packages {
        return false;
      }
      var k := FirstIndex(packages, p);
      ghost var before := packages;
      packages := packages[..k] + packages[k + 1..];
      RemoveAtDistinct(before, k);
      PackagesSeparateRemove(before, k);
      if |packages| == 0 {
        var q := new Package();
        packages := [q];
        current := q;
      } else {
        current := packages[0];
      }
      return true;
    }

    /**
      The editor's add button, on the current package: the current package's members follow
      `AddMembers`, its old members keep their places, and every other package keeps its
      members and their attributes.
    */
    method AddSelection(selection: seq<string>, scene: Scene)
      requires Valid()
      requires forall n :: n in selection ==> IsLiveTransform(scene, n)
      modifies current, current.ItemArrays()
      ensures Valid()
      ensures AttrsOf(current.items) == AddMembers(old(AttrsOf(current.items)), selection, scene)
      ensures old(current.items) <= current.items
      ensures forall p :: p in packages && p != current ==> p.items == old(p.items) && AttrsOf(p.items) == old(AttrsOf(p.items))
    {
      ghost var added := current.AddSelection(selection, scene);
      OthersKept();
    }

    /**
      The editor's refresh button, on the current package: its members follow the
      remove-while-iterating pass, every member the pass did not step over holds what the
      scene has for it, the stepped-over members keep their attributes, and every other
      package keeps its members and their attributes.
    */
    method RefreshAll(scene: Scene)
      requires Valid()
      modifies current, current.ItemArrays()
      ensures Valid()
      ensures current.items == IteratedRemoval.RefreshPass(old(current.items), LiveIn(scene))
      ensures current.RefreshSettled(old(current.items), scene)
      ensures forall p :: p in packages && p != current ==> p.items == old(p.items) && AttrsOf(p.items) == old(AttrsOf(p.items))
    {
      current.RefreshAll(scene);
      OthersKept();
    }

    /**
      The editor's delete button, on the current package: the members follow `DeleteItems`
      (so their names follow `DeleteNames`), the remaining members are old members with their attributes as they were,
      and no other package changes.
    */
    method DeleteSelection(selection: Option<seq<string>>) returns (ok: bool)
      requires Valid()
      modifies current
      ensures Valid()
      ensures selection.None? ==> ok && current.items == old(current.items)
      ensures selection.Some? ==> (current.items, ok) == DeleteItems(old(current.items), selection.value)
      ensures selection.Some? ==> Names(current.items) == Membership.DeleteNames(old(Names(current.items)), selection.value).0
      ensures selection.Some? ==> ok == Membership.DeleteNames(old(Names(current.items)), selection.value).1
      ensures forall t :: t in current.items ==> t in old(current.items) && t.Valid() && t.Attrs() == old(t.Attrs())
      ensures forall p :: p in packages && p != current ==> p.items == old(p.items)
    {
      ok := current.DeleteSelection(selection);
      forall t | t in current.items
        ensures t.Valid()
      {
        var k :| 0 <= k < |current.items| && current.items[k] == t;
      }
      OthersKept();
    }

    /**
      After the current package alone has changed, and only in lists that were its own or are
      new: the other packages keep their attributes and the packages stay apart.
    */
    twostate lemma OthersKept()
      requires old(Valid()) && packages == old(packages) && current == old(current)
      requires current.Valid()
      requires forall p :: p in packages && p != current ==> p.items == old(p.items)
      requires forall o :: o in current.ItemArrays() ==> o in old(current.ItemArrays()) || fresh(o)
      requires forall p, o :: p in packages && p != current && o in p.ItemArrays() && o !in old(current.ItemArrays())
                 ==> unchanged(o)
      ensures Valid()
      ensures forall p :: p in packages && p != current ==> AttrsOf(p.items) == old(AttrsOf(p.items))
    {
      forall p | p in packages && p != current
        ensures AttrsOf(p.items) == old(AttrsOf(p.items))
      {
        var i, k := FirstIndex(packages, p), FirstIndex(packages, current);
        assert old(packages[i].ItemArrays() !! packages[k].ItemArrays());
        ArraysKept(p.items);
      }
      forall i, j | 0 <= i < |packages| && 0 <= j < |packages| && i != j
        ensures packages[i].ItemArrays() !! packages[j].ItemArrays()
      {
        assert old(packages[i].ItemArrays() !! packages[j].ItemArrays());
      }
    }

    /**
      One round of automatic generation: a new package becomes current, the last shape of
      `pool` seeds it, the scan collects the similar shapes, and the package is filled with
      their transforms, one member per shape, so a transform above two of the shapes becomes
      two members.
    */
    method GenerateRound(pool: seq<string>, similar: (string, string) -> bool, cancel: nat -> bool, poll: nat,
                         ghost shapes: seq<string>, parentOf: string -> string, scene: Scene)
      returns (group: seq<string>, left: seq<string>, nextPoll: nat)
      requires Valid() && pool != [] && forall s :: s in pool ==> s in shapes
      requires ShapesReady(shapes, parentOf, scene)
      modifies this
      ensures Valid()
      ensures (group, left, nextPoll) == Round(pool, similar, cancel, poll)
      ensures forall s :: s in left ==> s in shapes
      ensures |packages| == old(|packages|) + 1 && packages[..old(|packages|)] == old(packages)
      ensures Generated(packages[old(|packages|)], group, parentOf)
      ensures current == packages[old(|packages|)]
      ensures forall q :: q in old(packages) ==> unchanged(q, q.nameField)
    {
      var p := AddPackage();
      SetCurrentPackage(p);
      group, left, nextPoll := NextRound(pool, similar, cancel, poll);
      RoundWithin(pool, similar, cancel, poll);
      ghost var before := packages;
      label filling:
      var transforms := Parents(group, parentOf);
      forall k | 0 <= k < |transforms|
        ensures IsLiveTransform(scene, transforms[k])
      {
        assert group[k] in pool;
      }
      p.Populate(transforms, scene);
      NewPackageApart@filling(before, p);
    }

    /** The last package, just filled with new members, is apart from the packages before it. */
    twostate lemma NewPackageApart(new before: seq<Package>, new p: Package)
      requires old(Valid()) && before == old(packages) && packages == before && before != [] && p == before[|before| - 1]
      requires p !in old(packages[..|packages| - 1]) && old(p.items) == []
      requires forall q :: q in packages && q != p ==> q.items == old(q.items)
      requires forall q :: q in packages ==> q.Valid()
      requires forall k :: 0 <= k < |p.items| ==> fresh(p.items[k].Repr())
      ensures PackagesSeparate(packages)
    {
      var n := |packages| - 1;
      forall i, j | 0 <= i < |packages| && 0 <= j < |packages| && i != j
        ensures packages[i].ItemArrays() !! packages[j].ItemArrays()
      {
        if i != n && j != n {
          assert old(packages[i].ItemArrays() !! packages[j].ItemArrays());
        } else {
          var o := if i == n then j else i;
          assert packages[o] in old(packages[..|packages| - 1]);
          forall a | a in p.ItemArrays()
            ensures a !in packages[o].ItemArrays()
          {
            var k :| 0 <= k < |p.items| && a in p.items[k].Repr();
            assert fresh(a);
          }
        }
      }
    }

    /**
      Where the generator loop stands: `initial` is the list before generation began, `groups`
      the groups made so far, each with its package after `initial`, and `all` the groups the
      whole run produces, of which the rounds still to come from `pool` make the rest.
    */
    ghost predicate Generating(initial: seq<Package>, groups: seq<seq<string>>, all: seq<seq<string>>,
                               pool: seq<string>, poll: nat, remaining: nat, shapes: seq<string>,
                               similar: (string, string) -> bool, cancel: nat -> bool, parentOf: string -> string)
      reads this, packages, set p | p in packages :: p.nameField
    {
      Valid()
      && |packages| == |initial| + |groups| && packages[..|initial|] == initial
      && GeneratedFrom(packages[|initial|..], groups, parentOf)
      && groups + Rounds(pool, similar, cancel, poll, remaining) == all
      && (forall s :: s in pool ==> s in shapes)
    }

    /** One turn of the generator loop: a round, and the loop's bookkeeping after it. */
    method GenerateTurn(pool: seq<string>, poll: nat, ghost groups: seq<seq<string>>, ghost remaining: nat,
                        ghost initial: seq<Package>, ghost all: seq<seq<string>>,
                        similar: (string, string) -> bool, cancel: nat -> bool,
                        ghost shapes: seq<string>, parentOf: string -> string, scene: Scene)
      returns (left: seq<string>, next: nat, ghost groups': seq<seq<string>>)
      requires ShapesReady(shapes, parentOf, scene)
      requires pool != [] && !cancel(poll) && remaining > 0
      requires Generating(initial, groups, all, pool, poll, remaining, shapes, similar, cancel, parentOf)
      modifies this
      ensures Generating(initial, groups', all, left, next, remaining - 1, shapes, similar, cancel, parentOf)
    {
      ghost var before := packages;
      var group;
      group, left, next := GenerateRound(pool, similar, cancel, poll + 1, shapes, parentOf, scene);
      RoundsStep(groups, pool, similar, cancel, poll, remaining, group, left, next);
      assert GeneratedFrom(before[|initial|..], groups, parentOf);
      GeneratedFromAppend(before[|initial|..], groups, packages[|before|], group, parentOf);
      GrowFrom(before, packages, |initial|);
      groups' := groups + [group];
    }

    /**
      Automatic generation over the shapes the host reports; no shape list (the host's `None`)
      makes the generator raise before anything changes. Otherwise it generates the packages
      and finally opens the first package of the list.
    */
    method AutoGenerate(shapes: Option<seq<string>>, similar: (string, string) -> bool, cancel: nat -> bool,
                        parentOf: string -> string, scene: Scene) returns (ok: bool)
      requires Valid()
      requires shapes.Some? ==> ShapesReady(shapes.value, parentOf, scene)
      modifies this
      ensures Valid()
      ensures ok == shapes.Some?
      ensures !ok ==> packages == old(packages) && current == old(current)
      ensures ok ==> var groups := Rounds(shapes.value, similar, cancel, 0, |shapes.value|);
        && |packages| == old(|packages|) + |groups| && packages[..old(|packages|)] == old(packages)
        && GeneratedFrom(packages[old(|packages|)..], groups, parentOf)
        && current == packages[0]
    {
      if shapes.None? {
        return false;
      }
      GeneratePackages(shapes.value, similar, cancel, parentOf, scene);
      SetCurrentPackage(packages[0]);
      return true;
    }

    /**
      The generator loop: at most one round per shape, each polling for cancellation before
      it starts; a round appends a package for its group and makes it current.
    */
    method GeneratePackages(shapes: seq<string>, similar: (string, string) -> bool, cancel: nat -> bool,
                            parentOf: string -> string, scene: Scene)
      requires Valid() && ShapesReady(shapes, parentOf, scene)
      modifies this
      ensures Valid()
      ensures var groups := Rounds(shapes, similar, cancel, 0, |shapes|);
        && |packages| == old(|packages|) + |groups| && packages[..old(|packages|)] == old(packages)
        && GeneratedFrom(packages[old(|packages|)..], groups, parentOf)
    {
      var pool := shapes;
      var poll := 0;
      ghost var groups: seq<seq<string>> := [];
      ghost var all := Rounds(shapes, similar, cancel, 0, |shapes|);
      ghost var remaining: nat := |shapes|;
      for r := 0 to |shapes|
        invariant remaining == |shapes| - r
        invariant Generating(old(packages), groups, all, pool, poll, remaining, shapes, similar, cancel, parentOf)
      {
        var stop := cancel(poll);
        if stop || |pool| == 0 {
          RoundsDone(groups, pool, similar, cancel, poll, remaining);
          break;
        }
        var left, next;
        left, next, groups := GenerateTurn(pool, poll, groups, remaining, old(packages), all, similar, cancel, shapes, parentOf, scene);
        pool, poll := left, next;
        remaining := remaining - 1;
      }
      RoundsDone(groups, pool, similar, cancel, poll, remaining);
    }
  }

  /** Removing one element of a list of distinct elements removes it altogether. */
  lemma RemoveAtDistinct<T>(s: seq<T>, k: nat)
    requires k < |s| && Distinct(s)
    ensures Distinct(s[..k] + s[k + 1..])
    ensures s[k] !in s[..k] + s[k + 1..]
    ensures forall x :: x in s[..k] + s[k + 1..] ==> x in s
  {
    var r := s[..k] + s[k + 1..];
    assert forall j :: 0 <= j < |r| ==> r[j] == s[if j < k then j else j + 1];
  }
}
