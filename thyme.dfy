/**
  The clone manager script: a list of clones (scene transforms whose translate, rotate and scale
  are recorded), an optional root transform, the editor buttons that add, refresh and delete
  clones, the sorted clone list on screen, and the CSV export of the root and the clones.

  Unlike the package exporter's transforms, a clone records the translate exactly as the scene
  reports it (no rotate pivot), its relative attributes carry no name, and the root keeps its
  own rotate and scale.
*/
module Thyme {
  import opened Common
  import opened Vectors
  import opened IteratedRemoval
  import opened Membership

  /** The `attributes` dictionary of a clone. */
  datatype Attributes = Attributes(translate: Vec3, rotate: Vec3, scale: Vec3)

  /** What `update` records for a live node: its translate, rotate and scale as they are. */
  function Snapshot(node: SceneNode): Attributes {
    Attributes(node.translate, node.rotate, node.scale)
  }

  /** Differences of translate and rotate, quotient of scale. */
  function RelativeTo(a: Attributes, root: Attributes): Attributes
    requires NonZero(root.scale)
  {
    Attributes(Sub(a.translate, root.translate), Sub(a.rotate, root.rotate), Div(a.scale, root.scale))
  }

  /** The placement a relative record describes, applied on top of the root. */
  function PlaceUnder(r: Attributes, root: Attributes): Attributes {
    Attributes(Add(r.translate, root.translate), Add(r.rotate, root.rotate), Mul(r.scale, root.scale))
  }

  /** Relative attributes placed back under their root give the clone's attributes back. */
  lemma PlaceRelative(a: Attributes, root: Attributes)
    requires NonZero(root.scale)
    ensures PlaceUnder(RelativeTo(a, root), root) == a
  {
    var s := root.scale;
    assert a.scale.x / s.x * s.x == a.scale.x;
    assert a.scale.y / s.y * s.y == a.scale.y;
    assert a.scale.z / s.z * s.z == a.scale.z;
  }

  /** Snapshots hold what the scene holds, so a snapshot made relative and placed back is the scene's. */
  lemma SnapshotPlaced(node: SceneNode, root: Attributes)
    requires NonZero(root.scale)
    ensures var p := PlaceUnder(RelativeTo(Snapshot(node), root), root);
      p.translate == node.translate && p.rotate == node.rotate && p.scale == node.scale
  {
    PlaceRelative(Snapshot(node), root);
  }

  /** A value compared with a clone: a string or anything else. */
  datatype Operand = Str(text: string) | Other

  class Transform {
    const name: string
    var attributes: Attributes

    /** `transform(name)`: the host only hands over names of live transforms, so `update` succeeds. */
    constructor (name: string, scene: Scene)
      requires IsLiveTransform(scene, name)
      ensures this.name == name && attributes == Snapshot(scene[name])
    {
      this.name := name;
      attributes := Snapshot(scene[name]);
    }

    /**
      Whether a transform of this name is still in the scene; when it is and `force` is set,
      the attributes are read again. A missing or non-transform node changes nothing.
    */
    method Update(scene: Scene, force: bool) returns (ok: bool)
      modifies this
      ensures ok == IsLiveTransform(scene, name)
      ensures attributes == if ok && force then Snapshot(scene[name]) else old(attributes)
    {
      if !IsLiveTransform(scene, name) {
        return false;
      }
      if force {
        attributes := Snapshot(scene[name]);
      }
      return true;
    }

    /**
      The translate, rotate and scale relative to `other`. The lists are rewritten in place,
      so afterwards this clone's own attributes are the relative ones. `other` may be this clone.
    */
    method GetRelativeAttributes(other: Transform) returns (r: Attributes)
      requires NonZero(other.attributes.scale)
      modifies this
      ensures r == RelativeTo(old(attributes), old(other.attributes))
      ensures attributes == r
    {
      attributes := RelativeTo(attributes, other.attributes);
      r := attributes;
    }

    /** `__eq__`: a clone equals a string holding its name and nothing else. */
    predicate Equals(value: Operand) {
      value.Str? && value.text == name
    }
  }

  /** The clone names, in order. */
  function Names(clones: seq<Transform>): (r: seq<string>)
    ensures |r| == |clones|
    ensures forall i :: 0 <= i < |clones| ==> r[i] == clones[i].name
  {
    seq(|clones|, i requires 0 <= i < |clones| => clones[i].name)
  }

  /**
    `clones.index(n)`, or nothing when `n in clones` is false: both compare each clone with the
    string, so they find the first clone of that name.
  */
  function FindClone(clones: seq<Transform>, n: string): (r: Option<nat>)
    ensures r.None? <==> n !in Names(clones)
    ensures r.Some? ==> r.value < |clones| && clones[r.value].Equals(Str(n))
    ensures r.Some? ==> forall i :: 0 <= i < r.value ==> !clones[i].Equals(Str(n))
  {
    if clones == [] then None
    else if clones[0].Equals(Str(n)) then Some(0)
    else
      assert Names(clones) == [clones[0].name] + Names(clones[1..]);
      match FindClone(clones[1..], n)
      case None => None
      case Some(k) => Some(k + 1)
  }

  /** A string is found exactly at the first position of its name. */
  lemma FindCloneFirst(clones: seq<Transform>, n: string)
    requires n in Names(clones)
    ensures FindClone(clones, n) == Some(FirstIndex(Names(clones), n))
  {
    var names := Names(clones);
    var r := FindClone(clones, n);
    var k, f := r.value, FirstIndex(names, n);
    assert names[k] == n && clones[f].Equals(Str(n));
    assert !(k < f) && !(f < k);
  }

  /** `update()` as a predicate on clones: is the name still a live transform? */
  function LiveIn(scene: Scene): Transform -> bool {
    (t: Transform) => IsLiveTransform(scene, t.name)
  }

  /* ---------------- clones as values ---------------- */

  /** One clone's name and recorded attributes. */
  datatype Clone = Clone(name: string, attributes: Attributes)

  function NamesOf(cs: seq<Clone>): (r: seq<string>)
    ensures |r| == |cs|
    ensures forall i :: 0 <= i < |cs| ==> r[i] == cs[i].name
  {
    seq(|cs|, i requires 0 <= i < |cs| => cs[i].name)
  }

  /** The clones' names and attributes, in order. */
  function Entries(clones: seq<Transform>): (r: seq<Clone>)
    reads set c | c in clones
    ensures |r| == |clones|
    ensures forall i :: 0 <= i < |clones| ==> r[i] == Clone(clones[i].name, clones[i].attributes)
    ensures NamesOf(r) == Names(clones)
  {
    seq(|clones|, i requires 0 <= i < |clones| reads set c | c in clones => Clone(clones[i].name, clones[i].attributes))
  }

  /**
    What adding one selected name does: the root's name is passed over, the first clone of that
    name is read again from the scene, and any other name is appended as a new clone.
  */
  function AddClone(cs: seq<Clone>, n: string, scene: Scene, excluded: set<string>): seq<Clone>
    requires IsLiveTransform(scene, n)
  {
    if n in excluded then cs
    else if n in NamesOf(cs) then cs[FirstIndex(NamesOf(cs), n) := Clone(n, Snapshot(scene[n]))]
    else cs + [Clone(n, Snapshot(scene[n]))]
  }

  /** Adding a whole selection, name by name in selection order. */
  function AddClones(cs: seq<Clone>, selection: seq<string>, scene: Scene, excluded: set<string>): seq<Clone>
    requires forall k :: 0 <= k < |selection| ==> IsLiveTransform(scene, selection[k])
    decreases |selection|
  {
    if selection == [] then cs
    else AddClones(AddClone(cs, selection[0], scene, excluded), selection[1..], scene, excluded)
  }

  /** Adding the rest of a selection from position `k` is adding `selection[k]`, then the rest. */
  lemma AddClonesFrom(cs: seq<Clone>, selection: seq<string>, k: nat, scene: Scene, excluded: set<string>)
    requires k < |selection| && forall i :: 0 <= i < |selection| ==> IsLiveTransform(scene, selection[i])
    ensures AddClones(cs, selection[k..], scene, excluded)
         == AddClones(AddClone(cs, selection[k], scene, excluded), selection[k + 1..], scene, excluded)
  {
    assert selection[k..][1..] == selection[k + 1..];
  }

  /** The names after adding follow `AddNames`, with the root's name excluded. */
  lemma {:induction false} AddClonesNames(cs: seq<Clone>, selection: seq<string>, scene: Scene, excluded: set<string>)
    requires forall k :: 0 <= k < |selection| ==> IsLiveTransform(scene, selection[k])
    ensures NamesOf(AddClones(cs, selection, scene, excluded)) == AddNames(NamesOf(cs), selection, excluded)
    decreases |selection|
  {
    if selection != [] {
      var n := selection[0];
      var next := AddClone(cs, n, scene, excluded);
      assert NamesOf(next) == if n in excluded || n in NamesOf(cs) then NamesOf(cs) else NamesOf(cs) + [n];
      AddClonesNames(next, selection[1..], scene, excluded);
    }
  }

  /**
    Adding a selection to clones with distinct names: a selected name other than the root's
    ends up recorded with the scene's attributes, an unselected clone is as it was, clones keep
    their places, the names stay distinct and the root's name is never added.
  */
  lemma {:induction false} AddClonesEffect(cs: seq<Clone>, selection: seq<string>, scene: Scene, excluded: set<string>)
    requires forall k :: 0 <= k < |selection| ==> IsLiveTransform(scene, selection[k])
    requires Distinct(NamesOf(cs))
    ensures var r := AddClones(cs, selection, scene, excluded);
      |cs| <= |r|
      && (forall k :: 0 <= k < |cs| && cs[k].name !in selection ==> r[k] == cs[k])
      && (forall k :: 0 <= k < |cs| ==> r[k].name == cs[k].name)
      && (forall k :: 0 <= k < |r| && r[k].name in selection && r[k].name !in excluded ==>
            r[k] == Clone(r[k].name, Snapshot(scene[r[k].name])))
      && (forall x :: x in NamesOf(r) <==> x in NamesOf(cs) || (x in selection && x !in excluded))
      && Distinct(NamesOf(r))
    decreases |selection|
  {
    var r := AddClones(cs, selection, scene, excluded);
    AddClonesShape(cs, selection, scene, excluded);
    if selection != [] {
      var n, rest := selection[0], selection[1..];
      var next := AddClone(cs, n, scene, excluded);
      assert selection == [n] + rest;
      AddCloneEffect(cs, n, scene, excluded);
      AddClonesEffect(next, rest, scene, excluded);
      forall k | 0 <= k < |r| && r[k].name in selection && r[k].name !in excluded
        ensures r[k] == Clone(r[k].name, Snapshot(scene[r[k].name]))
      {
        if r[k].name !in rest {
          assert k < |next| && next[k].name == n;
        }
      }
    }
  }

  /**
    Adding a selection keeps the clones in their places, adds exactly the selected names other
    than the root's, and keeps the names distinct.
  */
  lemma AddClonesShape(cs: seq<Clone>, selection: seq<string>, scene: Scene, excluded: set<string>)
    requires forall k :: 0 <= k < |selection| ==> IsLiveTransform(scene, selection[k])
    requires Distinct(NamesOf(cs))
    ensures var r := AddClones(cs, selection, scene, excluded);
      |cs| <= |r|
      && (forall k :: 0 <= k < |cs| ==> r[k].name == cs[k].name)
      && (forall x :: x in NamesOf(r) <==> x in NamesOf(cs) || (x in selection && x !in excluded))
      && Distinct(NamesOf(r))
  {
    var r := AddClones(cs, selection, scene, excluded);
    AddClonesNames(cs, selection, scene, excluded);
    AddNamesPrefix(NamesOf(cs), selection, excluded);
    AddNamesDistinct(NamesOf(cs), selection, excluded);
    forall x ensures x in NamesOf(r) <==> x in NamesOf(cs) || (x in selection && x !in excluded) {
      AddNamesMembers(NamesOf(cs), selection, excluded, x);
    }
    forall k | 0 <= k < |cs| ensures r[k].name == cs[k].name {
      assert NamesOf(r)[..|cs|][k] == NamesOf(cs)[k];
    }
  }

  /** With distinct names, one add touches only the clone of that name, or appends it. */
  lemma AddCloneEffect(cs: seq<Clone>, n: string, scene: Scene, excluded: set<string>)
    requires IsLiveTransform(scene, n) && Distinct(NamesOf(cs))
    ensures var r := AddClone(cs, n, scene, excluded);
      |cs| <= |r| <= |cs| + 1
      && (forall k :: 0 <= k < |cs| && cs[k].name != n ==> r[k] == cs[k])
      && (forall k :: 0 <= k < |r| && r[k].name == n && n !in excluded ==> r[k] == Clone(n, Snapshot(scene[n])))
      && (forall k :: |cs| <= k < |r| ==> r[k].name == n)
      && Distinct(NamesOf(r))
  {
    var names := NamesOf(cs);
    if n !in excluded && n !in names {
      var r := AddClone(cs, n, scene, excluded);
      assert NamesOf(r) == names + [n];
    }
  }

  /* ---------------- the clone list on screen ---------------- */

  /** Python's string order: code point by code point, a proper prefix first. */
  predicate NameLe(a: string, b: string) {
    a == [] || (b != [] && (a[0] < b[0] || (a[0] == b[0] && NameLe(a[1..], b[1..]))))
  }

  /** Any two names are ordered one way or the other. */
  lemma {:induction false} NameLeTotal(a: string, b: string)
    ensures NameLe(a, b) || NameLe(b, a)
  {
    if a != [] && b != [] && a[0] == b[0] {
      NameLeTotal(a[1..], b[1..]);
    }
  }

  /** Neighbours are in name order. */
  predicate SortedByName(s: seq<string>) {
    forall i :: 0 < i < |s| ==> NameLe(s[i - 1], s[i])
  }

  /** Insert a name into a sorted list before the first name it does not follow. */
  function Insert(x: string, s: seq<string>): (r: seq<string>)
    requires SortedByName(s)
    ensures SortedByName(r)
    ensures multiset(r) == multiset(s) + multiset{x}
    ensures r != [] && (r[0] == x || (s != [] && r[0] == s[0]))
  {
    if s == [] || NameLe(x, s[0]) then [x] + s
    else
      NameLeTotal(x, s[0]);
      var rest := Insert(x, s[1..]);
      assert s == [s[0]] + s[1..];
      [s[0]] + rest
  }

  /** `sorted(clones, key = name)`, as names: the list the clone list control shows. */
  function SortedNames(names: seq<string>): (r: seq<string>)
    ensures SortedByName(r)
    ensures multiset(r) == multiset(names)
  {
    if names == [] then []
    else
      assert names == [names[0]] + names[1..];
      Insert(names[0], SortedNames(names[1..]))
  }

  /** The shown list holds exactly the clone names, each as often as it occurs. */
  lemma SortedNamesMembers(names: seq<string>, x: string)
    ensures x in SortedNames(names) <==> x in names
    ensures |SortedNames(names)| == |names|
  {
    var r := SortedNames(names);
    assert x in r <==> x in multiset(r);
    assert x in names <==> x in multiset(names);
    assert |r| == |multiset(r)| && |names| == |multiset(names)|;
  }

  /* ---------------- the CSV export ---------------- */

  /** The header row's labels. */
  const CsvColumns: seq<string> := ["name", "translate", "rotate", "scale"]

  /** A row of the CSV file: the header, or one transform's name and three lists. */
  datatype CsvRow = Columns(labels: seq<string>) | Record(name: string, translate: Vec3, rotate: Vec3, scale: Vec3)

  /**
    What the export leaves in the file. When no root is set the header is written and then the
    first row fails, so the file holds only the header and `complete` is false.
  */
  datatype CsvFile = CsvFile(path: string, rows: seq<CsvRow>, complete: bool)

  function RowOf(c: Clone): CsvRow {
    Record(c.name, c.attributes.translate, c.attributes.rotate, c.attributes.scale)
  }

  function CloneOf(row: CsvRow): Clone
    requires row.Record?
  {
    Clone(row.name, Attributes(row.translate, row.rotate, row.scale))
  }

  /** The data rows: one per transform, in order. */
  function RowsOf(cs: seq<Clone>): (r: seq<CsvRow>)
    ensures |r| == |cs|
    ensures forall i :: 0 <= i < |cs| ==> r[i] == RowOf(cs[i])
  {
    seq(|cs|, i requires 0 <= i < |cs| => RowOf(cs[i]))
  }

  /** The file's rows: the header, then the root and the clones in their stored order. */
  function CsvRows(root: Option<Clone>, cs: seq<Clone>): seq<CsvRow> {
    [Columns(CsvColumns)] + (if root.None? then [] else RowsOf([root.value] + cs))
  }

  /** Reading a file back: after the header, every row is one transform. */
  function ReadRows(rows: seq<CsvRow>): Option<seq<Clone>> {
    if rows == [] || rows[0] != Columns(CsvColumns) then None
    else if exists i :: 1 <= i < |rows| && !rows[i].Record? then None
    else Some(seq(|rows| - 1, i requires 0 <= i < |rows| - 1 => CloneOf(rows[i + 1])))
  }

  /** The file reads back as the root followed by the clones, names and attributes intact. */
  lemma CsvRoundTrip(root: Clone, cs: seq<Clone>)
    ensures ReadRows(CsvRows(Some(root), cs)) == Some([root] + cs)
  {
    var rows := CsvRows(Some(root), cs);
    var all := [root] + cs;
    assert forall i :: 1 <= i < |rows| ==> rows[i] == RowOf(all[i - 1]);
    assert forall i :: 1 <= i < |rows| ==> rows[i].Record?;
    var back := ReadRows(rows).value;
    assert |back| == |all|;
    forall i | 0 <= i < |all| ensures back[i] == all[i] {
      assert rows[i + 1] == RowOf(all[i]);
    }
    assert back == all;
  }

  /** Without a root nothing but the header is written. */
  lemma CsvWithoutRoot(cs: seq<Clone>)
    ensures ReadRows(CsvRows(None, cs)) == Some([])
  {
    var rows := CsvRows(None, cs);
    assert rows == [Columns(CsvColumns)];
    assert ReadRows(rows).Some?;
    assert |ReadRows(rows).value| == 0;
  }

  /* ---------------- the clone manager ---------------- */

  /**
    The script's global state: the clones, the root transform, the root name field of the
    settings pane and the items of the clone list control.
  */
  class CloneManager {
    var clones: seq<Transform>
    var root: Option<Transform>
    var rootLabel: string
    var listed: seq<string>

    /** Clone names are distinct (so clones are distinct objects) and the root is not a clone. */
    predicate Valid()
      reads this
    {
      Distinct(Names(clones)) && (root.Some? ==> root.value !in clones)
    }

    /** The names `addSelection` passes over: the root's. */
    function Excluded(): set<string>
      reads this
    {
      if root.Some? then {root.value.name} else {}
    }

    function RootEntry(): Option<Clone>
      reads this, if root.Some? then {root.value} else {}
    {
      if root.Some? then Some(Clone(root.value.name, root.value.attributes)) else None
    }

    constructor ()
      ensures Valid() && clones == [] && root.None? && listed == []
      ensures rootLabel == "No root transform set"
    {
      clones := [];
      root := None;
      rootLabel := "No root transform set";
      listed := [];
    }

    /**
      The "Use Selected Object" button: with exactly one transform selected it becomes the new
      root, recorded as the scene has it (its rotate and scale are kept), and its name is shown.
      Any other selection changes nothing.
    */
    method SetRootToSelected(selection: seq<string>, scene: Scene) returns (ok: bool)
      requires Valid()
      requires forall k :: 0 <= k < |selection| ==> IsLiveTransform(scene, selection[k])
      modifies this
      ensures Valid() && clones == old(clones) && listed == old(listed)
      ensures ok == (|selection| == 1)
      ensures !ok ==> root == old(root) && rootLabel == old(rootLabel)
      ensures ok ==> root.Some? && fresh(root.value) && rootLabel == selection[0]
      ensures ok ==> IsLiveTransform(scene, selection[0])
                     && RootEntry() == Some(Clone(selection[0], Snapshot(scene[selection[0]])))
    {
      if |selection| != 1 {
        return false;
      }
      var t := new Transform(selection[0], scene);
      root := Some(t);
      rootLabel := selection[0];
      return true;
    }

    /** Show the clone names sorted; the clones themselves keep their order. */
    method UpdateClonesList()
      modifies this
      ensures listed == SortedNames(Names(clones))
      ensures clones == old(clones) && root == old(root) && rootLabel == old(rootLabel)
    {
      listed := SortedNames(Names(clones));
    }

    /** `update()` on the clone at `at`: the other clones are untouched. */
    method RefreshClone(at: nat, scene: Scene)
      requires Valid() && at < |clones| && IsLiveTransform(scene, clones[at].name)
      modifies clones[at]
      ensures Entries(clones) == old(Entries(clones))[at := Clone(clones[at].name, Snapshot(scene[clones[at].name]))]
    {
      ghost var before := Entries(clones);
      var _ := clones[at].Update(scene, true);
      forall i | 0 <= i < |clones| && i != at
        ensures clones[i].attributes == before[i].attributes
      {
        assert Names(clones)[i] != Names(clones)[at];
      }
    }

    /** One selected name, as one turn of the add loop does it. */
    method AddName(n: string, scene: Scene)
      requires Valid() && IsLiveTransform(scene, n)
      modifies this, set c | c in clones
      ensures Valid() && root == old(root) && rootLabel == old(rootLabel) && listed == old(listed)
      ensures Entries(clones) == AddClone(old(Entries(clones)), n, scene, Excluded())
      ensures forall c :: c in clones ==> c in old(clones) || fresh(c)
    {
      ghost var before := Entries(clones);
      if root.Some? && root.value.Equals(Str(n)) {
        return;
      }
      var at := FindClone(clones, n);
      if at.Some? {
        FindCloneFirst(clones, n);
        RefreshClone(at.value, scene);
        return;
      }
      var t := new Transform(n, scene);
      assert Names(clones + [t]) == Names(clones) + [n];
      clones := clones + [t];
      assert Entries(clones) == before + [Clone(n, Snapshot(scene[n]))];
    }

    /**
      The add button: nothing happens for an empty selection; otherwise each selected name is
      passed over if it is the root's, refreshes its clone if there is one, and is appended as
      a new clone if not, and then the clone list is redrawn.
    */
    method AddSelection(selection: seq<string>, scene: Scene)
      requires Valid()
      requires forall k :: 0 <= k < |selection| ==> IsLiveTransform(scene, selection[k])
      modifies this, set c | c in clones
      ensures Valid() && root == old(root) && rootLabel == old(rootLabel)
      ensures Entries(clones) == AddClones(old(Entries(clones)), selection, scene, old(Excluded()))
      ensures selection == [] ==> clones == old(clones) && listed == old(listed)
      ensures selection != [] ==> listed == SortedNames(Names(clones))
    {
      if |selection| <= 0 {
        return;
      }
      for k := 0 to |selection|
        invariant Valid() && root == old(root) && rootLabel == old(rootLabel)
        invariant AddClones(Entries(clones), selection[k..], scene, old(Excluded()))
               == AddClones(old(Entries(clones)), selection, scene, old(Excluded()))
        invariant forall c :: c in clones ==> c in old(clones) || fresh(c)
      {
        AddClonesFrom(Entries(clones), selection, k, scene, old(Excluded()));
        AddName(selection[k], scene);
      }
      assert selection[|selection|..] == [];
      UpdateClonesList();
    }

    /**
      The refresh button: a clone whose transform is gone is removed, but inside the loop over
      the same list, so the clone that slides into its place is stepped over in that pass,
      neither refreshed nor removed. Then the clone list is redrawn.
    */
    method RefreshAll(scene: Scene) returns (ghost skipped: seq<Transform>)
      requires Valid()
      modifies this, set c | c in clones
      ensures Valid() && root == old(root) && rootLabel == old(rootLabel)
      ensures clones == RefreshPass(old(clones), LiveIn(scene)) && skipped == Skipped(old(clones), LiveIn(scene))
      ensures forall t :: t in skipped ==> t in clones && t.attributes == old(t.attributes)
      ensures forall k :: 0 <= k < |clones| && clones[k] !in skipped ==>
                IsLiveTransform(scene, clones[k].name) && clones[k].attributes == Snapshot(scene[clones[k].name])
      ensures listed == SortedNames(Names(clones))
    {
      ghost var entry;
      skipped, entry := RefreshClones(scene);
      UpdateClonesList();
    }

    /** The loop of `RefreshAll`; `entry` records each clone's attributes at the start. */
    method RefreshClones(scene: Scene) returns (ghost skipped: seq<Transform>, ghost entry: map<Transform, Attributes>)
      requires Valid()
      modifies this, set c | c in clones
      ensures Valid() && root == old(root) && rootLabel == old(rootLabel) && listed == old(listed)
      ensures forall t :: t in old(clones) ==> t in entry && entry[t] == old(t.attributes)
      ensures clones == RefreshPass(old(clones), LiveIn(scene)) && skipped == Skipped(old(clones), LiveIn(scene))
      ensures forall t :: t in skipped ==> t in clones && t.attributes == entry[t]
      ensures forall k :: 0 <= k < |clones| && clones[k] !in skipped ==>
                IsLiveTransform(scene, clones[k].name) && clones[k].attributes == Snapshot(scene[clones[k].name])
    {
      entry := map t | t in clones :: t.attributes;
      PassStateStart(clones, LiveIn(scene));
      RefreshingStart(entry, clones, scene);
      var i;
      i, skipped := RefreshLoop(scene, clones, entry);
      PassStateEnd(old(clones), clones, i, skipped, LiveIn(scene));
      RefreshingDone(entry, clones, i, skipped, scene);
    }

    /** The loop itself, from the first clone to past the last. */
    method RefreshLoop(scene: Scene, ghost orig: seq<Transform>, ghost entry: map<Transform, Attributes>)
      returns (i: nat, ghost skipped: seq<Transform>)
      requires Refreshes(orig, entry, 0, [], scene) && orig == clones
      modifies this, set c | c in clones
      ensures root == old(root) && rootLabel == old(rootLabel) && listed == old(listed)
      ensures i >= |clones| && Refreshes(orig, entry, i, skipped, scene)
    {
      i, skipped := 0, [];
      while i < |clones|
        invariant root == old(root) && rootLabel == old(rootLabel) && listed == old(listed)
        invariant Refreshes(orig, entry, i, skipped, scene)
        decreases |clones| - i
      {
        skipped := RefreshTurn(i, scene, orig, entry, skipped);
        i := i + 1;
      }
    }

    /** The state of the refresh loop before iterator index `i`. */
    ghost predicate Refreshes(orig: seq<Transform>, entry: map<Transform, Attributes>, i: nat,
                              skipped: seq<Transform>, scene: Scene)
      reads this, set c | c in clones
    {
      Valid() && (forall t :: t in clones ==> t in orig)
      && PassState(orig, clones, i, skipped, LiveIn(scene))
      && Refreshing(entry, clones, Entries(clones), i, skipped, scene)
    }

    /**
      One turn of the refresh loop at iterator index `i`: refresh that clone and, when its
      transform is gone, remove it; `remove` finds this very clone, since clones are distinct
      objects, and the clones after it move down one place.
    */
    method RefreshTurn(i: nat, scene: Scene, ghost orig: seq<Transform>, ghost entry: map<Transform, Attributes>,
                       ghost skipped: seq<Transform>) returns (ghost skipped': seq<Transform>)
      requires i < |clones| && Refreshes(orig, entry, i, skipped, scene)
      modifies this, clones[i]
      ensures root == old(root) && rootLabel == old(rootLabel) && listed == old(listed)
      ensures |clones| <= old(|clones|)
      ensures Refreshes(orig, entry, i + 1, skipped', scene)
    {
      var before := clones;
      ghost var es := Entries(clones);
      DistinctObjects(before);
      var ok := clones[i].Update(scene, true);
      assert ok == LiveIn(scene)(before[i]);
      if ok {
        PassStateKeep(orig, before, i, skipped, LiveIn(scene));
        skipped' := skipped;
        var refreshed := Clone(before[i].name, Snapshot(scene[before[i].name]));
        assert Entries(clones) == es[i := refreshed];
        RefreshingKeep(entry, before, es, i, skipped, scene, refreshed);
      } else {
        PassStateRemove(orig, before, i, skipped, LiveIn(scene));
        skipped' := if i + 1 < |before| then skipped + [before[i + 1]] else skipped;
        assert Entries(before) == es;
        RemoveClone(i);
        RefreshingRemove(entry, before, es, i, skipped, scene);
      }
    }

    /** `clones.remove` of the clone at `at`. */
    method RemoveClone(at: nat)
      requires Valid() && at < |clones|
      modifies this
      ensures Valid() && root == old(root) && rootLabel == old(rootLabel) && listed == old(listed)
      ensures clones == old(clones[..at] + clones[at + 1..])
      ensures Names(clones) == old(Names(clones)[..at] + Names(clones)[at + 1..])
      ensures Entries(clones) == old(Entries(clones)[..at] + Entries(clones)[at + 1..])
    {
      ghost var es := Entries(clones);
      DistinctRemove(clones, at);
      clones := clones[..at] + clones[at + 1..];
      assert forall k :: 0 <= k < |clones| ==> clones[k] == old(clones)[if k < at then k else k + 1];
      assert Entries(clones) == es[..at] + es[at + 1..];
    }

    /**
      The delete button. `selection` is the names selected in the clone list, absent when
      nothing is selected. Each selected name removes the first clone of that name; a name with
      no clone raises, leaving the earlier removals in place and the list control as it was
      (reported as `ok == false`).
    */
    method DeleteSelection(selection: Option<seq<string>>) returns (ok: bool)
      requires Valid()
      modifies this
      ensures Valid() && root == old(root) && rootLabel == old(rootLabel)
      ensures selection.None? ==> ok && clones == old(clones) && listed == old(listed)
      ensures selection.Some? ==> Names(clones) == DeleteNames(old(Names(clones)), selection.value).0
      ensures selection.Some? ==> ok == DeleteNames(old(Names(clones)), selection.value).1
      ensures selection.Some? && ok ==> listed == SortedNames(Names(clones))
      ensures !ok ==> listed == old(listed)
      ensures forall t :: t in clones ==> t in old(clones)
    {
      if selection.None? {
        return true;
      }
      var names := selection.value;
      for k := 0 to |names|
        invariant Valid() && root == old(root) && rootLabel == old(rootLabel) && listed == old(listed)
        invariant DeleteNames(Names(clones), names[k..]) == DeleteNames(old(Names(clones)), names)
        invariant forall t :: t in clones ==> t in old(clones)
      {
        var n := names[k];
        assert names[k..] == [n] + names[k + 1..];
        var at := FindClone(clones, n);
        if at.None? {
          return false;
        }
        FindCloneFirst(clones, n);
        RemoveFirstAt(Names(clones), n, at.value);
        DistinctRemove(clones, at.value);
        clones := clones[..at.value] + clones[at.value + 1..];
      }
      assert names[|names|..] == [];
      UpdateClonesList();
      return true;
    }

    /**
      The export button: a header, then one row for the root and one per clone in stored
      order, with the attributes as recorded, written to `<directory>/<fileName>.csv`.
    */
    method ExportCsv(directory: string, fileName: string) returns (file: CsvFile)
      ensures file.path == directory + "/" + fileName + ".csv"
      ensures file.complete == root.Some?
      ensures file.rows == CsvRows(RootEntry(), Entries(clones))
    {
      var path := directory + "/" + fileName + ".csv";
      var rows := [Columns(CsvColumns)];
      if root.None? {
        // `[rootTransform] + clones` starts with None, whose `name` raises after the header.
        return CsvFile(path, rows, false);
      }
      var all := [root.value] + clones;
      for k := 0 to |all|
        invariant rows == [Columns(CsvColumns)] + RowsOf(Entries(all)[..k])
      {
        var t := all[k];
        TakeStep(Entries(all), k);
        rows := rows + [Record(t.name, t.attributes.translate, t.attributes.rotate, t.attributes.scale)];
      }
      assert Entries(all)[..|all|] == [RootEntry().value] + Entries(clones);
      return CsvFile(path, rows, true);
    }
  }

  /**
    Where the refresh loop stands, with `es` the clones' names and attributes: before `i` every
    clone not stepped over is live and refreshed, and the others hold what they held at the start.
  */
  ghost predicate Refreshing(entry: map<Transform, Attributes>, items: seq<Transform>, es: seq<Clone>, i: nat,
                             skipped: seq<Transform>, scene: Scene)
  {
    |es| == |items|
    && (forall k :: 0 <= k < |items| ==> items[k] in entry && es[k].name == items[k].name)
    && (forall t :: t in skipped ==> t in items)
    && (forall k :: 0 <= k < |items| && items[k] in skipped ==> k < i)
    && (forall k :: 0 <= k < |items| && k < i && items[k] !in skipped ==>
          IsLiveTransform(scene, es[k].name) && es[k].attributes == Snapshot(scene[es[k].name]))
    && (forall k :: 0 <= k < |items| && (i <= k || items[k] in skipped) ==> es[k].attributes == entry[items[k]])
  }

  /** Before the loop every clone is as recorded in `entry`. */
  lemma RefreshingStart(entry: map<Transform, Attributes>, items: seq<Transform>, scene: Scene)
    requires entry == map t | t in items :: t.attributes
    ensures Refreshing(entry, items, Entries(items), 0, [], scene)
  {
  }

  /** At the end of the loop every clone is either refreshed or stepped over and as it was. */
  lemma RefreshingDone(entry: map<Transform, Attributes>, items: seq<Transform>, i: nat,
                       skipped: seq<Transform>, scene: Scene)
    requires Refreshing(entry, items, Entries(items), i, skipped, scene) && i >= |items|
    ensures forall t :: t in skipped ==> t in items && t.attributes == entry[t]
    ensures forall k :: 0 <= k < |items| && items[k] !in skipped ==>
              IsLiveTransform(scene, items[k].name) && items[k].attributes == Snapshot(scene[items[k].name])
  {
    var es := Entries(items);
    forall t | t in skipped ensures t in items && t.attributes == entry[t] {
      var k :| 0 <= k < |items| && items[k] == t;
      assert es[k].attributes == entry[t];
    }
  }

  /** A clone whose transform is live is refreshed and stays. */
  lemma RefreshingKeep(entry: map<Transform, Attributes>, items: seq<Transform>, es: seq<Clone>, i: nat,
                       skipped: seq<Transform>, scene: Scene, refreshed: Clone)
    requires Refreshing(entry, items, es, i, skipped, scene) && i < |items|
    requires refreshed.name == items[i].name && IsLiveTransform(scene, refreshed.name)
    requires refreshed.attributes == Snapshot(scene[refreshed.name])
    ensures Refreshing(entry, items, es[i := refreshed], i + 1, skipped, scene)
  {
    assert items[i] !in skipped;
  }

  /** A clone whose transform is gone is removed; its successor, if any, is stepped over. */
  lemma RefreshingRemove(entry: map<Transform, Attributes>, items: seq<Transform>, es: seq<Clone>, i: nat,
                         skipped: seq<Transform>, scene: Scene)
    requires Refreshing(entry, items, es, i, skipped, scene) && i < |items| && Distinct(Names(items))
    ensures Refreshing(entry, items[..i] + items[i + 1..], es[..i] + es[i + 1..], i + 1,
                       if i + 1 < |items| then skipped + [items[i + 1]] else skipped, scene)
  {
    var r := items[..i] + items[i + 1..];
    var re := es[..i] + es[i + 1..];
    var sk := if i + 1 < |items| then skipped + [items[i + 1]] else skipped;
    assert forall k :: 0 <= k < |r| ==> r[k] == items[if k < i then k else k + 1];
    assert forall k :: 0 <= k < |re| ==> re[k] == es[if k < i then k else k + 1];
    assert items[i] !in skipped;
    DistinctObjects(items);
    SkippedStayListed(items, i, skipped, r, sk);
    SkippedStayBehind(items, i, skipped, r, sk);
  }

  /** Clones with distinct names are distinct objects. */
  lemma DistinctObjects(items: seq<Transform>)
    requires Distinct(Names(items))
    ensures forall j, k :: 0 <= j < |items| && 0 <= k < |items| && j != k ==> items[j] != items[k]
  {
    forall j, k | 0 <= j < |items| && 0 <= k < |items| && j != k ensures items[j] != items[k] {
      assert Names(items)[j] != Names(items)[k];
    }
  }

  /** Removing one clone keeps the names distinct. */
  lemma DistinctRemove(items: seq<Transform>, i: nat)
    requires i < |items| && Distinct(Names(items))
    ensures Distinct(Names(items[..i] + items[i + 1..]))
    ensures Names(items[..i] + items[i + 1..]) == Names(items)[..i] + Names(items)[i + 1..]
  {
    var r := items[..i] + items[i + 1..];
    assert forall k :: 0 <= k < |r| ==> r[k] == items[if k < i then k else k + 1];
    assert Names(r) == Names(items)[..i] + Names(items)[i + 1..];
  }
}
