/**
  Packages.

  A package is one mesh to export together with the transforms of its instances in the scene:
  an ordered list of member transforms, a file name field, and an optional custom export
  directory. The package editor's add, refresh and delete buttons act on one package.
*/
module Packages {
  import opened Common
  import opened Vectors
  import opened Transforms
  import opened UiHelpers
  import opened IteratedRemoval
  import opened Membership

  /** The member names, in order. */
  function Names(items: seq<Transform>): (r: seq<string>)
    ensures |r| == |items|
    ensures forall i :: 0 <= i < |items| ==> r[i] == items[i].name
  {
    seq(|items|, i requires 0 <= i < |items| => items[i].name)
  }

  /** The `update()` outcome as a predicate on members: is the name still a live transform? */
  function LiveIn(scene: Scene): Transform -> bool {
    (t: Transform) => IsLiveTransform(scene, t.name)
  }

  /**
    Valid transforms with separate attribute lists. Names may repeat: automatic generation
    appends one member per shape, and a transform with two shapes gets two members.
  */
  predicate MembersValid(items: seq<Transform>) {
    (forall i :: 0 <= i < |items| ==> items[i].Valid())
    && (forall i, j {:trigger Separate(items[i], items[j])} :: 0 <= i < |items| && 0 <= j < |items| && i != j ==> Separate(items[i], items[j]))
  }

  /** Two members share no attribute list. */
  predicate Separate(a: Transform, b: Transform) {
    a.Repr() !! b.Repr()
  }

  /** Every attribute list held by one of `items`. */
  function ArraysOf(items: seq<Transform>): set<array<real>> {
    set i, o | 0 <= i < |items| && o in items[i].Repr() :: o
  }

  lemma ArraysRemove(items: seq<Transform>, k: nat)
    requires k < |items|
    ensures ArraysOf(items[..k] + items[k + 1..]) <= ArraysOf(items)
  {
    var r := items[..k] + items[k + 1..];
    forall o | o in ArraysOf(r) ensures o in ArraysOf(items) {
      var i :| 0 <= i < |r| && o in r[i].Repr();
      assert r[i] == items[if i < k then i else i + 1];
    }
  }

  /** Members with separate lists are distinct objects. */
  lemma MembersDistinct(items: seq<Transform>)
    requires MembersValid(items)
    ensures forall a, b :: 0 <= a < b < |items| ==> items[a] != items[b]
  {
    forall a, b | 0 <= a < b < |items|
      ensures items[a] != items[b]
    {
      assert Separate(items[a], items[b]) && items[a].translate in items[a].Repr();
    }
  }

  /** One more member adds its own lists and no other. */
  lemma ArraysAppend(items: seq<Transform>, t: Transform)
    ensures forall o :: o in ArraysOf(items + [t]) ==> o in ArraysOf(items) || o in t.Repr()
  {
    var r := items + [t];
    forall o | o in ArraysOf(r)
      ensures o in ArraysOf(items) || o in t.Repr()
    {
      var i :| 0 <= i < |r| && o in r[i].Repr();
      if i < |items| {
        assert r[i] == items[i];
      }
    }
  }

  /** Removing one member keeps the others valid and separate. */
  lemma MembersValidRemove(items: seq<Transform>, k: nat)
    requires MembersValid(items) && k < |items|
    ensures MembersValid(items[..k] + items[k + 1..])
  {
    var r := items[..k] + items[k + 1..];
    assert forall i :: 0 <= i < |r| ==> r[i] == items[if i < k then i else i + 1];
  }

  /** A new member with its own lists keeps the members valid. */
  lemma MembersValidAppend(items: seq<Transform>, t: Transform)
    requires MembersValid(items) && t.Valid()
    requires forall k :: 0 <= k < |items| ==> Separate(t, items[k]) && Separate(items[k], t)
    ensures MembersValid(items + [t])
  {
    var r := items + [t];
    assert forall i :: 0 <= i < |items| ==> r[i] == items[i];
    assert r[|items|] == t;
  }

  /** `remove(name)` on the member list follows `RemoveFirst` on the name list. */
  lemma NamesRemoveFirst(items: seq<Transform>, name: string)
    requires name in Names(items)
    ensures Names(items[..IndexOfName(items, name)] + items[IndexOfName(items, name) + 1..])
         == RemoveFirst(Names(items), name)
  {
    var k := IndexOfName(items, name);
    var r := items[..k] + items[k + 1..];
    var ns := Names(items);
    RemoveFirstAt(ns, name, k);
    assert forall j :: 0 <= j < |r| ==> r[j] == items[if j < k then j else j + 1];
    assert Names(r) == ns[..k] + ns[k + 1..];
  }

  /** The member holds what `update()` reads from the scene for its name. */
  predicate Refreshed(t: Transform, scene: Scene)
    requires t.Valid()
    reads t.Repr()
  {
    IsLiveTransform(scene, t.name) && t.Attrs() == Snapshot(t.name, scene[t.name])
  }

  /** The member's attributes are what they were on entry. */
  twostate predicate Untouched(t: Transform)
    requires t.Valid()
    reads t.Repr()
  {
    t.Attrs() == old(t.Attrs())
  }

  /** Members whose attribute lists were not written keep their attributes. */
  twostate lemma ArraysKept(items: seq<Transform>)
    requires forall k :: 0 <= k < |items| ==> items[k].Valid()
    requires unchanged(ArraysOf(items))
    ensures AttrsOf(items) == old(AttrsOf(items))
  {
    forall k | 0 <= k < |items|
      ensures items[k].Attrs() == old(items[k].Attrs())
    {
      assert items[k].Repr() <= ArraysOf(items);
    }
  }

  /** The position of the first member called `name`, as `items.index(name)` finds it. */
  function IndexOfName(items: seq<Transform>, name: string): (k: nat)
    requires name in Names(items)
    ensures k < |items| && items[k].name == name
    ensures forall i :: 0 <= i < k ==> items[i].name != name
  {
    FirstIndex(Names(items), name)
  }

  /**
    The members left by deleting the selected names one by one: each name removes the first
    member of that name, and a name with no member stops the deletion with the flag false,
    the earlier removals kept.
  */
  function DeleteItems(items: seq<Transform>, selection: seq<string>): (r: (seq<Transform>, bool))
    ensures |r.0| <= |items|
    ensures forall t :: t in r.0 ==> t in items
    decreases |selection|
  {
    if selection == [] then (items, true)
    else if selection[0] !in Names(items) then (items, false)
    else
      var at := IndexOfName(items, selection[0]);
      var rest := items[..at] + items[at + 1..];
      assert forall t :: t in rest ==> t in items;
      DeleteItems(rest, selection[1..])
  }

  /** On member names, `DeleteItems` is the name-level `DeleteNames`. */
  lemma {:induction false} DeleteItemsNames(items: seq<Transform>, selection: seq<string>)
    ensures Names(DeleteItems(items, selection).0) == DeleteNames(Names(items), selection).0
    ensures DeleteItems(items, selection).1 == DeleteNames(Names(items), selection).1
    decreases |selection|
  {
    if selection != [] && selection[0] in Names(items) {
      var at := IndexOfName(items, selection[0]);
      NamesRemoveFirst(items, selection[0]);
      DeleteItemsNames(items[..at] + items[at + 1..], selection[1..]);
    }
  }

  /** The stored attributes of every member, in order. */
  function AttrsOf(items: seq<Transform>): (r: seq<Attributes>)
    requires forall k :: 0 <= k < |items| ==> items[k].Valid()
    reads ArraysOf(items)
    ensures |r| == |items|
    ensures forall k :: 0 <= k < |items| ==> r[k] == items[k].Attrs()
    ensures NamesOf(r) == Names(items)
  {
    seq(|items|, k requires 0 <= k < |items| reads ArraysOf(items) => items[k].Attrs())
  }

  /** The names recorded in a list of attribute records. */
  function NamesOf(members: seq<Attributes>): (r: seq<string>)
    ensures |r| == |members|
    ensures forall k :: 0 <= k < |members| ==> r[k] == members[k].name
  {
    seq(|members|, k requires 0 <= k < |members| => members[k].name)
  }

  /**
    What adding one selected name does to the members' attributes: the first member of that
    name is refreshed from the scene, or a new member with the scene's attributes is appended.
  */
  function AddMember(members: seq<Attributes>, n: string, scene: Scene): (r: seq<Attributes>)
    requires IsLiveTransform(scene, n)
    ensures NamesOf(r) == if n in NamesOf(members) then NamesOf(members) else NamesOf(members) + [n]
  {
    var names := NamesOf(members);
    if n in names then members[FirstIndex(names, n) := Snapshot(n, scene[n])]
    else members + [Snapshot(n, scene[n])]
  }

  /** Adding a whole selection, name by name. */
  function AddMembers(members: seq<Attributes>, selection: seq<string>, scene: Scene): seq<Attributes>
    requires forall n :: n in selection ==> IsLiveTransform(scene, n)
    decreases |selection|
  {
    if selection == [] then members
    else AddMembers(AddMember(members, selection[0], scene), selection[1..], scene)
  }

  /** Adding the rest of a selection from position `k` on is adding `selection[k]`, then the rest. */
  lemma AddMembersFrom(members: seq<Attributes>, selection: seq<string>, k: nat, scene: Scene)
    requires k < |selection| && forall n :: n in selection ==> IsLiveTransform(scene, n)
    ensures AddMembers(members, selection[k..], scene)
         == AddMembers(AddMember(members, selection[k], scene), selection[k + 1..], scene)
  {
    assert selection[k..][1..] == selection[k + 1..];
  }

  /** The names after adding follow `AddNames`. */
  lemma {:induction false} AddMembersNames(members: seq<Attributes>, selection: seq<string>, scene: Scene)
    requires forall n :: n in selection ==> IsLiveTransform(scene, n)
    ensures NamesOf(AddMembers(members, selection, scene)) == AddNames(NamesOf(members), selection, {})
    decreases |selection|
  {
    if selection != [] {
      AddMembersNames(AddMember(members, selection[0], scene), selection[1..], scene);
    }
  }

  /** With distinct names, one add touches only the member of that name, or appends it. */
  lemma AddMemberEffect(members: seq<Attributes>, n: string, scene: Scene)
    requires IsLiveTransform(scene, n) && Distinct(NamesOf(members))
    ensures var r := AddMember(members, n, scene);
      |members| <= |r| <= |members| + 1
      && (forall k :: 0 <= k < |members| && members[k].name != n ==> r[k] == members[k])
      && (forall k :: 0 <= k < |r| && r[k].name == n ==> r[k] == Snapshot(n, scene[n]))
      && (forall k :: |members| <= k < |r| ==> r[k].name == n)
      && Distinct(NamesOf(r))
  {
    var names := NamesOf(members);
    if n !in names {
      AddNamesDistinct(names, [n], {});
      assert AddNames(names, [n], {}) == names + [n];
    }
  }

  /**
    Adding a selection to members with distinct names: every member whose name is selected
    holds the scene's attributes, every other member is as it was, the members keep their
    places and the new members, at the end, all have selected names.
  */
  lemma {:induction false} AddMembersEffect(members: seq<Attributes>, selection: seq<string>, scene: Scene)
    requires forall n :: n in selection ==> IsLiveTransform(scene, n)
    requires Distinct(NamesOf(members))
    ensures var r := AddMembers(members, selection, scene);
      |members| <= |r|
      && (forall k :: 0 <= k < |members| && members[k].name !in selection ==> r[k] == members[k])
      && (forall k :: |members| <= k < |r| ==> r[k].name in selection)
      && (forall k :: 0 <= k < |r| && r[k].name in selection ==> r[k] == Snapshot(r[k].name, scene[r[k].name]))
      && Distinct(NamesOf(r))
    decreases |selection|
  {
    if selection != [] {
      var n, rest := selection[0], selection[1..];
      var m' := AddMember(members, n, scene);
      var r := AddMembers(m', rest, scene);
      AddMemberEffect(members, n, scene);
      AddMembersEffect(m', rest, scene);
      AddMembersNames(m', rest, scene);
      AddNamesPrefix(NamesOf(m'), rest, {});
      assert forall k :: 0 <= k < |m'| ==> r[k].name == m'[k].name by {
        forall k | 0 <= k < |m'| ensures r[k].name == m'[k].name {
          assert NamesOf(r)[k] == NamesOf(r)[..|m'|][k];
        }
      }
      forall k | 0 <= k < |r| && r[k].name in selection
        ensures r[k] == Snapshot(r[k].name, scene[r[k].name])
      {
        if r[k].name !in rest {
          assert k < |m'| && m'[k].name == n;
        }
      }
    }
  }

  /**
    Where the refresh loop stands, on values: `items` is the member list now, `attrs` their
    attributes, `i` the iterator index, `skipped` the members stepped over so far and `entry`
    the attributes every member had when the loop began. Members before the index that were
    not stepped over hold fresh attributes; the others still hold their entry attributes.
  */
  ghost predicate Progress(orig: seq<Transform>, entry: map<Transform, Attributes>, items: seq<Transform>,
                           attrs: seq<Attributes>, i: nat, skipped: seq<Transform>, scene: Scene)
  {
    PassState(orig, items, i, skipped, LiveIn(scene)) && Tracked(entry, items, attrs, i, skipped, scene)
  }

  /** The attribute half of `Progress`. */
  ghost predicate Tracked(entry: map<Transform, Attributes>, items: seq<Transform>, attrs: seq<Attributes>,
                          i: nat, skipped: seq<Transform>, scene: Scene)
  {
    |attrs| == |items|
    && (forall a, b :: 0 <= a < b < |items| ==> items[a] != items[b])
    && (forall k :: 0 <= k < |items| ==> items[k] in entry)
    && (forall t :: t in skipped ==> t in items)
    && (forall k :: 0 <= k < |items| && items[k] in skipped ==> k < i)
    && (forall k :: 0 <= k < |items| && k < i && items[k] !in skipped ==>
          IsLiveTransform(scene, items[k].name) && attrs[k] == Snapshot(items[k].name, scene[items[k].name]))
    && (forall k :: 0 <= k < |items| && (i <= k || items[k] in skipped) ==> attrs[k] == entry[items[k]])
  }

  lemma ProgressStart(items: seq<Transform>, entry: map<Transform, Attributes>, attrs: seq<Attributes>, scene: Scene)
    requires forall a, b :: 0 <= a < b < |items| ==> items[a] != items[b]
    requires |attrs| == |items|
    requires forall k :: 0 <= k < |items| ==> items[k] in entry && attrs[k] == entry[items[k]]
    ensures Progress(items, entry, items, attrs, 0, [], scene)
  {
    PassStateStart(items, LiveIn(scene));
  }

  /** A member whose transform is live is refreshed and stays. */
  lemma ProgressKeep(orig: seq<Transform>, entry: map<Transform, Attributes>, items: seq<Transform>,
                     attrs: seq<Attributes>, attrs': seq<Attributes>, i: nat, skipped: seq<Transform>, scene: Scene)
    requires Progress(orig, entry, items, attrs, i, skipped, scene) && i < |items|
    requires IsLiveTransform(scene, items[i].name)
    requires |attrs'| == |items| && attrs'[i] == Snapshot(items[i].name, scene[items[i].name])
    requires forall k :: 0 <= k < |items| && k != i ==> attrs'[k] == attrs[k]
    ensures Progress(orig, entry, items, attrs', i + 1, skipped, scene)
  {
    PassStateKeep(orig, items, i, skipped, LiveIn(scene));
  }

  /**
    A member whose transform is gone is removed; its follower takes its place and is stepped
    over, keeping its entry attributes.
  */
  lemma ProgressRemove(orig: seq<Transform>, entry: map<Transform, Attributes>, items: seq<Transform>,
                       attrs: seq<Attributes>, i: nat, skipped: seq<Transform>, scene: Scene)
    requires Progress(orig, entry, items, attrs, i, skipped, scene) && i < |items|
    requires !IsLiveTransform(scene, items[i].name)
    ensures Progress(orig, entry, items[..i] + items[i + 1..], attrs[..i] + attrs[i + 1..], i + 1,
                     if i + 1 < |items| then skipped + [items[i + 1]] else skipped, scene)
  {
    PassStateRemove(orig, items, i, skipped, LiveIn(scene));
    TrackedRemove(entry, items, attrs, i, skipped, scene);
  }

  lemma TrackedRemove(entry: map<Transform, Attributes>, items: seq<Transform>, attrs: seq<Attributes>,
                      i: nat, skipped: seq<Transform>, scene: Scene)
    requires Tracked(entry, items, attrs, i, skipped, scene) && i < |items|
    ensures Tracked(entry, items[..i] + items[i + 1..], attrs[..i] + attrs[i + 1..], i + 1,
                    if i + 1 < |items| then skipped + [items[i + 1]] else skipped, scene)
  {
    var r := items[..i] + items[i + 1..];
    var ra := attrs[..i] + attrs[i + 1..];
    var sk := if i + 1 < |items| then skipped + [items[i + 1]] else skipped;
    assert forall k :: 0 <= k < |r| ==> r[k] == items[if k < i then k else k + 1] && ra[k] == attrs[if k < i then k else k + 1];
    assert items[i] !in skipped;
    SkippedStayListed(items, i, skipped, r, sk);
    assert forall a, b :: 0 <= a < |items| && 0 <= b < |items| && a != b ==> items[a] != items[b] by {
      forall a, b | 0 <= a < |items| && 0 <= b < |items| && a != b ensures items[a] != items[b] {
        if b < a {
          assert items[b] != items[a];
        }
      }
    }
    SkippedStayBehind(items, i, skipped, r, sk);
    forall k | 0 <= k < |r| && k < i + 1 && r[k] !in sk
      ensures IsLiveTransform(scene, r[k].name) && ra[k] == Snapshot(r[k].name, scene[r[k].name])
    {
      if k == i {
        assert false;
      }
      assert r[k] == items[k] && ra[k] == attrs[k];
    }
    forall k | 0 <= k < |r| && (i + 1 <= k || r[k] in sk) ensures r[k] in entry && ra[k] == entry[r[k]] {
      var j := if k < i then k else k + 1;
      assert r[k] == items[j] && ra[k] == attrs[j];
    }
  }

  lemma ProgressEnd(orig: seq<Transform>, entry: map<Transform, Attributes>, items: seq<Transform>,
                    attrs: seq<Attributes>, i: nat, skipped: seq<Transform>, scene: Scene)
    requires Progress(orig, entry, items, attrs, i, skipped, scene) && i >= |items|
    ensures items == RefreshPass(orig, LiveIn(scene)) && skipped == Skipped(orig, LiveIn(scene))
    ensures forall k :: 0 <= k < |items| && items[k] !in skipped ==>
              IsLiveTransform(scene, items[k].name) && attrs[k] == Snapshot(items[k].name, scene[items[k].name])
    ensures forall t :: t in skipped ==> t in items
    ensures forall k :: 0 <= k < |items| && items[k] in skipped ==> attrs[k] == entry[items[k]]
  {
    PassStateEnd(orig, items, i, skipped, LiveIn(scene));
  }

  class Package {
    var items: seq<Transform>
    var customPathEnabled: bool
    const nameField: FileNameField
    const dirField: DirectoryField

    /** Members are valid transforms with separate attribute lists. */
    predicate Valid()
      reads this
    {
      MembersValid(items)
    }

    /** Every attribute list held by a member. */
    function ItemArrays(): set<array<real>>
      reads this
    {
      ArraysOf(items)
    }

    function FileName(): string
      reads this, nameField
    {
      nameField.text
    }

    /** A new package: no members, an empty file name, the custom directory switched off. */
    constructor ()
      ensures Valid() && items == [] && !customPathEnabled
      ensures fresh(nameField) && fresh(dirField)
      ensures nameField.text == "" && dirField.directory == ""
    {
      items := [];
      customPathEnabled := false;
      nameField := new FileNameField();
      dirField := new DirectoryField();
    }

    method ToggleCustomPath()
      modifies this
      ensures customPathEnabled == !old(customPathEnabled)
      ensures items == old(items)
    {
      customPathEnabled := !customPathEnabled;
    }

    /** `update()` on one member: the other members' attributes are untouched. */
    method RefreshMember(at: nat, scene: Scene) returns (ok: bool)
      requires Valid() && at < |items|
      modifies items[at].Repr()
      ensures ok == IsLiveTransform(scene, items[at].name)
      ensures AttrsOf(items) == if ok then old(AttrsOf(items))[at := Snapshot(items[at].name, scene[items[at].name])]
                                else old(AttrsOf(items))
    {
      ghost var attrs := AttrsOf(items);
      ok := items[at].Update(scene);
      forall i | 0 <= i < |items| && i != at
        ensures items[i].Attrs() == attrs[i]
      {
        assert Separate(items[at], items[i]);
      }
    }

    /** One selected name: refresh the member of that name, or append a new member. */
    method AddName(n: string, scene: Scene) returns (ghost more: seq<Transform>)
      requires Valid() && IsLiveTransform(scene, n)
      modifies this, ItemArrays()
      ensures Valid() && customPathEnabled == old(customPathEnabled)
      ensures AttrsOf(items) == AddMember(old(AttrsOf(items)), n, scene)
      ensures items == old(items) + more && forall t :: t in more ==> fresh(t.Repr())
      ensures forall o :: o in ItemArrays() ==> o in old(ItemArrays()) || fresh(o)
    {
      more := [];
      ghost var attrs := AttrsOf(items);
      assert NamesOf(attrs) == Names(items);
      if n in Names(items) {
        var at := IndexOfName(items, n);
        assert AddMember(attrs, n, scene) == attrs[at := Snapshot(n, scene[n])];
        assert items[at].Repr() <= ItemArrays();
        var _ := RefreshMember(at, scene);
        AppendEmpty(items);
      } else {
        ghost var before := items;
        var t := Append(n, scene);
        more := [t];
        ArraysAppend(before, t);
      }
    }

    /** `items.append(transform(n))`. */
    method Append(n: string, scene: Scene) returns (t: Transform)
      requires Valid() && IsLiveTransform(scene, n)
      modifies this
      ensures Valid() && customPathEnabled == old(customPathEnabled)
      ensures items == old(items) + [t] && t.name == n && fresh(t.Repr())
      ensures t.Valid() && t.Attrs() == Snapshot(n, scene[n])
      ensures AttrsOf(items) == old(AttrsOf(items)) + [Snapshot(n, scene[n])]
    {
      ghost var attrs := AttrsOf(items);
      t := new Transform(n, scene);
      forall k | 0 <= k < |items|
        ensures Separate(t, items[k]) && Separate(items[k], t)
      {
      }
      MembersValidAppend(items, t);
      ghost var before := items;
      items := items + [t];
      forall k | 0 <= k < |items| ensures AttrsOf(items)[k] == (attrs + [t.Attrs()])[k] {
        if k < |before| {
          assert items[k] == before[k];
        }
      }
    }

    /**
      Fill an empty package with new members for the given transforms, in order, and name the
      package after its first member, as automatic generation does. A transform listed twice
      gets two members, each with lists of its own.
    */
    method Populate(transforms: seq<string>, scene: Scene)
      requires Valid() && items == [] && transforms != []
      requires forall k :: 0 <= k < |transforms| ==> IsLiveTransform(scene, transforms[k])
      modifies this, nameField
      ensures Valid() && customPathEnabled == old(customPathEnabled)
      ensures Names(items) == transforms && |items| == |transforms|
      ensures forall k :: 0 <= k < |items| ==> Refreshed(items[k], scene) && fresh(items[k].Repr())
      ensures FileName() == SanitizeFileName(transforms[0])
    {
      for m := 0 to |transforms|
        invariant Valid() && customPathEnabled == old(customPathEnabled)
        invariant Names(items) == transforms[..m]
        invariant forall k :: 0 <= k < m ==> Refreshed(items[k], scene) && fresh(items[k].Repr())
      {
        var _ := Append(transforms[m], scene);
        TakeStep(transforms, m);
      }
      assert transforms[..|transforms|] == transforms;
      nameField.SetName(items[0].name);
    }

    /**
      The add button: each selected name already present refreshes its member in place (the
      outcome of that refresh is ignored), every other name gets a new member at the end.
    */
    method AddSelection(selection: seq<string>, scene: Scene) returns (ghost added: seq<Transform>)
      requires Valid()
      requires forall n :: n in selection ==> IsLiveTransform(scene, n)
      modifies this, ItemArrays()
      ensures Valid() && customPathEnabled == old(customPathEnabled)
      ensures AttrsOf(items) == AddMembers(old(AttrsOf(items)), selection, scene)
      ensures items == old(items) + added
      ensures forall o :: o in ItemArrays() ==> o in old(ItemArrays()) || fresh(o)
    {
      ghost var target := AddMembers(AttrsOf(items), selection, scene);
      added := [];
      for k := 0 to |selection|
        invariant Valid() && customPathEnabled == old(customPathEnabled)
        invariant AddMembers(AttrsOf(items), selection[k..], scene) == target
        invariant items == old(items) + added
        invariant forall o :: o in ItemArrays() ==> o in old(ItemArrays()) || fresh(o)
      {
        ghost var attrs := AttrsOf(items);
        AddMembersFrom(attrs, selection, k, scene);
        ghost var more := AddName(selection[k], scene);
        AppendAssoc(old(items), added, more);
        added := added + more;
      }
      assert selection[|selection|..] == [];
    }

    /**
      The refresh button: every member whose transform is gone from the scene is removed, but
      the removal happens inside the loop over the same list, so the member that slides into a
      removed member's place is stepped over in that pass, neither refreshed nor removed.
    */
    method RefreshAll(scene: Scene)
      requires Valid()
      modifies this, ItemArrays()
      ensures Valid()
      ensures items == RefreshPass(old(items), LiveIn(scene))
      ensures RefreshSettled(old(items), scene)
      ensures customPathEnabled == old(customPathEnabled)
      ensures ItemArrays() <= old(ItemArrays())
    {
      ghost var entry := map t | t in items :: t.Attrs();
      MembersDistinct(items);
      assert forall t :: t in old(items) ==> t in entry && t.Valid() && entry[t] == old(t.Attrs());
      ProgressStart(items, entry, AttrsOf(items), scene);
      var i, skipped := RefreshLoop(scene, items, entry);
      ProgressEnd(old(items), entry, items, AttrsOf(items), i, skipped, scene);
      SettledMembers(skipped, entry, scene);
    }

    /** The state of the refresh loop before iterator index `i`. */
    ghost predicate Refreshing(orig: seq<Transform>, entry: map<Transform, Attributes>, i: nat,
                               skipped: seq<Transform>, scene: Scene)
      reads this, ItemArrays()
    {
      Valid() && Progress(orig, entry, items, AttrsOf(items), i, skipped, scene)
    }

    /** The loop of `RefreshAll`, from the first member to past the last. */
    method RefreshLoop(scene: Scene, ghost orig: seq<Transform>, ghost entry: map<Transform, Attributes>)
      returns (i: nat, ghost skipped: seq<Transform>)
      requires Refreshing(orig, entry, 0, [], scene)
      modifies this, ItemArrays()
      ensures customPathEnabled == old(customPathEnabled)
      ensures ItemArrays() <= old(ItemArrays())
      ensures i >= |items| && Refreshing(orig, entry, i, skipped, scene)
    {
      i, skipped := 0, [];
      while i < |items|
        invariant customPathEnabled == old(customPathEnabled)
        invariant ItemArrays() <= old(ItemArrays())
        invariant Refreshing(orig, entry, i, skipped, scene)
        decreases |items| - i
      {
        skipped := RefreshTurn(i, scene, orig, entry, skipped);
        i := i + 1;
      }
    }

    /**
      After a refresh pass over `orig`: every member the pass did not step over holds what the
      scene has for its name, and every member it stepped over is still present with the
      attributes it had before.
    */
    twostate predicate RefreshSettled(orig: seq<Transform>, scene: Scene)
      requires Valid()
      reads this, ItemArrays()
    {
      (forall t :: t in items && t !in Skipped(orig, LiveIn(scene)) ==> Refreshed(t, scene))
      && (forall t :: t in Skipped(orig, LiveIn(scene)) ==> t in items && Untouched(t))
    }

    /** What the finished loop's progress means for the member objects. */
    twostate lemma SettledMembers(new skipped: seq<Transform>, new entry: map<Transform, Attributes>, scene: Scene)
      requires Valid()
      requires skipped == Skipped(old(items), LiveIn(scene))
      requires forall t :: t in old(items) ==> t in entry && t.Valid() && entry[t] == old(t.Attrs())
      requires forall k :: 0 <= k < |items| && items[k] !in skipped ==>
                 IsLiveTransform(scene, items[k].name) && AttrsOf(items)[k] == Snapshot(items[k].name, scene[items[k].name])
      requires forall t :: t in skipped ==> t in items
      requires forall k :: 0 <= k < |items| && items[k] in skipped ==> AttrsOf(items)[k] == entry[items[k]]
      ensures RefreshSettled(old(items), scene)
    {
    }

    /** One turn of the refresh loop, as the loop's progress sees it. */
    method RefreshTurn(i: nat, scene: Scene, ghost orig: seq<Transform>, ghost entry: map<Transform, Attributes>,
                       ghost skipped: seq<Transform>) returns (ghost skipped': seq<Transform>)
      requires i < |items| && Refreshing(orig, entry, i, skipped, scene)
      modifies this, ItemArrays()
      ensures customPathEnabled == old(customPathEnabled)
      ensures ItemArrays() <= old(ItemArrays()) && |items| <= old(|items|)
      ensures Refreshing(orig, entry, i + 1, skipped', scene)
    {
      assert items[i].Repr() <= ItemArrays();
      ghost var before, attrs := items, AttrsOf(items);
      var ok := RefreshStep(i, scene);
      if ok {
        ProgressKeep(orig, entry, before, attrs, AttrsOf(items), i, skipped, scene);
        skipped' := skipped;
      } else {
        ProgressRemove(orig, entry, before, attrs, i, skipped, scene);
        skipped' := if i + 1 < |before| then skipped + [before[i + 1]] else skipped;
      }
    }

    /**
      One turn of the refresh loop at iterator index `i`: refresh that member and, when its
      transform is gone, remove it. `remove` finds this very member, since members are distinct
      objects, and the members after it move down one place.
    */
    method RefreshStep(i: nat, scene: Scene) returns (ok: bool)
      requires Valid() && i < |items|
      modifies this, items[i].Repr()
      ensures Valid() && customPathEnabled == old(customPathEnabled)
      ensures ItemArrays() <= old(ItemArrays())
      ensures ok == IsLiveTransform(scene, old(items[i]).name)
      ensures ok ==> items == old(items)
      ensures ok ==> AttrsOf(items) == old(AttrsOf(items))[i := Snapshot(items[i].name, scene[items[i].name])]
      ensures !ok ==> items == old(items[..i] + items[i + 1..])
      ensures !ok ==> AttrsOf(items) == old(AttrsOf(items)[..i] + AttrsOf(items)[i + 1..])
    {
      ok := RefreshMember(i, scene);
      if !ok {
        RemoveMember(i);
      }
    }

    /** `items.remove` of the member at `at`. */
    method RemoveMember(at: nat)
      requires Valid() && at < |items|
      modifies this
      ensures Valid() && customPathEnabled == old(customPathEnabled)
      ensures ItemArrays() <= old(ItemArrays())
      ensures items == old(items[..at] + items[at + 1..])
      ensures AttrsOf(items) == old(AttrsOf(items)[..at] + AttrsOf(items)[at + 1..])
    {
      ghost var before, attrs := items, AttrsOf(items);
      MembersValidRemove(items, at);
      ArraysRemove(items, at);
      items := items[..at] + items[at + 1..];
      forall k | 0 <= k < |items| ensures AttrsOf(items)[k] == (attrs[..at] + attrs[at + 1..])[k] {
        var j := if k < at then k else k + 1;
        assert items[k] == before[j];
      }
    }

    /**
      The delete button. `selection` is the names selected in the member list, absent when
      nothing is selected. Each selected name removes the first member of that name; a name with
      no member raises, leaving the earlier removals in place (reported as `ok == false`).
    */
    method DeleteSelection(selection: Option<seq<string>>) returns (ok: bool)
      requires Valid()
      modifies this
      ensures Valid()
      ensures selection.None? ==> ok && items == old(items)
      ensures selection.Some? ==> (items, ok) == DeleteItems(old(items), selection.value)
      ensures selection.Some? ==> Names(items) == DeleteNames(old(Names(items)), selection.value).0
      ensures selection.Some? ==> ok == DeleteNames(old(Names(items)), selection.value).1
      ensures forall t :: t in items ==> t in old(items)
      ensures customPathEnabled == old(customPathEnabled)
      ensures ItemArrays() <= old(ItemArrays())
    {
      if selection.None? {
        return true;
      }
      var names := selection.value;
      DeleteItemsNames(items, names);
      for k := 0 to |names|
        invariant Valid()
        invariant DeleteItems(items, names[k..]) == DeleteItems(old(items), names)
        invariant forall t :: t in items ==> t in old(items)
        invariant customPathEnabled == old(customPathEnabled)
        invariant ItemArrays() <= old(ItemArrays())
      {
        var n := names[k];
        assert names[k..] == [n] + names[k + 1..];
        if n !in Names(items) {
          return false;
        }
        var at := IndexOfName(items, n);
        MembersValidRemove(items, at);
        ArraysRemove(items, at);
        items := items[..at] + items[at + 1..];
      }
      assert names[|names|..] == [];
      return true;
    }
  }
}
