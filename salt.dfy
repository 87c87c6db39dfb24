/**
  The component-selection script: `separateComponentString`, the version whose group 3 entry
  is always a list of indices, and the edge-perimeter tool, which turns a face selection on one
  object into the selection of the edges on the border of those faces.
*/
module Salt {
  import opened Common
  import opened ComponentStrings

  /** One entry of the result: a text group, or the list of indices of group 3. */
  datatype Part = Text(text: string) | Numbers(values: seq<nat>)

  /** The entry for group `g` of a match. */
  function GroupPart(m: ComponentMatch, g: int): Outcome<Part> {
    if g != 3 then
      match GroupText(m, g)
      case Ok(t) => Ok(Text(t))
      case Raises(e) => Raises(e)
    else
      match ParseIndices(m.indices)
      case Ok(ix) => Ok(Numbers(IndexList(ix)))
      case Raises(e) => Raises(e)
  }

  /** The entries for `groups`, in order; the first group that raises ends the call. */
  function GroupParts(m: ComponentMatch, groups: seq<int>): Outcome<seq<Part>> {
    if groups == [] then Ok([])
    else
      match GroupParts(m, groups[..|groups| - 1])
      case Raises(e) => Raises(e)
      case Ok(parts) =>
        match GroupPart(m, groups[|groups| - 1])
        case Raises(e) => Raises(e)
        case Ok(p) => Ok(parts + [p])
  }

  /** What `separateComponentString(s, groups)` returns or raises. */
  function Separated(s: string, groups: seq<int>): Outcome<seq<Part>> {
    match MatchComponent(s)
    case None => Ok([Text("")])
    case Some(m) => GroupParts(m, groups)
  }

  /** The parser: one entry per requested group, built in a loop over `groups`. */
  method SeparateComponentString(componentString: string, groups: seq<int>) returns (r: Outcome<seq<Part>>)
    ensures r == Separated(componentString, groups)
  {
    var found := MatchComponent(componentString);
    if found.None? {
      return Ok([Text("")]);
    }
    var m := found.value;
    var separated: seq<Part> := [];
    for i := 0 to |groups|
      invariant GroupParts(m, groups[..i]) == Ok(separated)
    {
      assert groups[..i + 1][..i] == groups[..i];
      if groups[i] != 3 {
        var group := GroupText(m, groups[i]);
        if group.Raises? {
          GroupPartsStops(m, groups, i + 1);
          return Raises(group.error);
        }
        separated := separated + [Text(group.value)];
        continue;
      }
      // The range pattern first, then `int()` of the whole group.
      var indices := ParseIndices(m.indices);
      if indices.Raises? {
        GroupPartsStops(m, groups, i + 1);
        return Raises(indices.error);
      }
      separated := separated + [Numbers(IndexList(indices.value))];
    }
    assert groups[..|groups|] == groups;
    return Ok(separated);
  }

  /**
    The result has one entry per requested group, in the order of `groups`, unless a group
    raises; then the first group that raises decides the error.
  */
  lemma {:induction false} GroupPartsShape(m: ComponentMatch, groups: seq<int>)
    ensures GroupParts(m, groups).Ok? <==> forall i :: 0 <= i < |groups| ==> GroupPart(m, groups[i]).Ok?
    ensures GroupParts(m, groups).Ok? ==>
      |GroupParts(m, groups).value| == |groups|
      && forall i :: 0 <= i < |groups| ==> GroupParts(m, groups).value[i] == GroupPart(m, groups[i]).value
    ensures GroupParts(m, groups).Raises? ==>
      exists i :: 0 <= i < |groups| && GroupPart(m, groups[i]) == Raises(GroupParts(m, groups).error)
                  && forall j :: 0 <= j < i ==> GroupPart(m, groups[j]).Ok?
  {
    if groups != [] {
      var init := groups[..|groups| - 1];
      GroupPartsShape(m, init);
      assert forall i :: 0 <= i < |init| ==> init[i] == groups[i];
    }
  }

  /** A string without a `.` does not match: the result is `[""]`, whatever the groups. */
  lemma SeparatedNoDot(s: string, groups: seq<int>)
    requires '.' !in s
    ensures Separated(s, groups) == Ok([Text("")])
  {
    SpanStops(s, [], '.');
    assert s + [] == s;
  }

  /** Once a prefix of the groups raises, the whole call raises the same error. */
  lemma {:induction false} GroupPartsStops(m: ComponentMatch, groups: seq<int>, i: nat)
    requires i <= |groups| && GroupParts(m, groups[..i]).Raises?
    ensures GroupParts(m, groups) == GroupParts(m, groups[..i])
    decreases |groups|
  {
    if i < |groups| {
      var init := groups[..|groups| - 1];
      assert init[..i] == groups[..i];
      GroupPartsStops(m, init, i);
    } else {
      assert groups[..i] == groups;
    }
  }

  /** A single requested group gives its own entry, or its error. */
  lemma GroupPartsOne(m: ComponentMatch, g: int)
    ensures GroupParts(m, [g]) == match GroupPart(m, g) case Ok(p) => Ok([p]) case Raises(e) => Raises(e)
  {
    var gs := [g];
    assert gs[..|gs| - 1] == [];
    assert GroupParts(m, gs[..|gs| - 1]) == Ok([]);
    if GroupPart(m, g).Ok? {
      assert [] + [GroupPart(m, g).value] == [GroupPart(m, g).value];
    }
  }

  /** The documented example: `pCube1.e[8]` separates into `pCube1`, `e` and `[8]`. */
  lemma SeparatedExample()
    ensures Separated("pCube1.e[8]", [1, 2, 3]) == Ok([Text("pCube1"), Text("e"), Numbers([8])])
  {
    assert NatToString(8) == "8";
    assert "pCube1.e[8]" == "pCube1" + "." + "e" + "[" + NatToString(8) + "]";
    SeparatedSingle("pCube1", "e", 8);
  }

  /** Separating a printed component `name.type[n]` gives back its name, its type and `[n]`. */
  lemma SeparatedSingle(name: string, kind: string, n: nat)
    requires WellFormed(ComponentMatch(name, kind, NatToString(n)))
    ensures Separated(name + "." + kind + "[" + NatToString(n) + "]", [1, 2, 3])
         == Ok([Text(name), Text(kind), Numbers([n])])
  {
    var m := ComponentMatch(name, kind, NatToString(n));
    MatchComplete(m, "]");
    assert MatchComponent(name + "." + kind + "[" + NatToString(n) + "]") == Some(m);
    ParseSingle(n);
    assert GroupPart(m, 3) == Ok(Numbers([n]));
    ThreeGroups(m, [n]);
  }

  /** Groups 1, 2 and 3 of a match whose indices can be read. */
  lemma ThreeGroups(m: ComponentMatch, indices: seq<nat>)
    requires GroupPart(m, 3) == Ok(Numbers(indices))
    ensures GroupParts(m, [1, 2, 3]) == Ok([Text(m.objectName), Text(m.kind), Numbers(indices)])
  {
    var g1, g12, g123 := [1], [1, 2], [1, 2, 3];
    GroupPartsOne(m, 1);
    assert GroupParts(m, g1) == Ok([Text(m.objectName)]);
    GroupPartsSnoc(m, g1, 2);
    assert g1 + [2] == g12;
    assert [Text(m.objectName)] + [Text(m.kind)] == [Text(m.objectName), Text(m.kind)];
    assert GroupParts(m, g12) == Ok([Text(m.objectName), Text(m.kind)]);
    GroupPartsSnoc(m, g12, 3);
    assert g12 + [3] == g123;
    assert [Text(m.objectName), Text(m.kind)] + [Numbers(indices)]
        == [Text(m.objectName), Text(m.kind), Numbers(indices)];
    assert GroupParts(m, g123) == Ok([Text(m.objectName), Text(m.kind), Numbers(indices)]);
  }

  /** One more requested group adds its entry at the end. */
  lemma GroupPartsSnoc(m: ComponentMatch, groups: seq<int>, g: int)
    ensures GroupParts(m, groups + [g]) == match GroupParts(m, groups)
      case Raises(e) => Raises(e)
      case Ok(parts) => (match GroupPart(m, g) case Ok(p) => Ok(parts + [p]) case Raises(e) => Raises(e))
  {
    assert (groups + [g])[..|groups|] == groups;
  }

  /** Group 3 of a printed range `name.type[a:b]` is every index from `a` to `b`, none when `b < a`. */
  lemma SeparatedRange(name: string, kind: string, a: nat, b: nat)
    requires WellFormed(ComponentMatch(name, kind, NatToString(a) + ":" + NatToString(b)))
    ensures Separated(name + "." + kind + "[" + NatToString(a) + ":" + NatToString(b) + "]", [3])
         == Ok([Numbers(InclusiveRange(a, b))])
  {
    var x := NatToString(a) + ":" + NatToString(b);
    var m := ComponentMatch(name, kind, x);
    MatchComplete(m, "]");
    RangeText(name, kind, NatToString(a), NatToString(b));
    ParseRange(a, b);
    GroupPartsOne(m, 3);
  }

  /* ---------------- the edge-perimeter tool ---------------- */

  /** `separateComponentString(edge, [3])[0]` as the tool iterates it: a non-matching edge yields the empty string, which holds no index. */
  function EdgeIndices(edge: string): Outcome<seq<nat>> {
    match MatchComponent(edge)
    case None => Ok([])
    case Some(m) =>
      match ParseIndices(m.indices)
      case Ok(ix) => Ok(IndexList(ix))
      case Raises(e) => Raises(e)
  }

  /** The indices of a list of edge strings, concatenated in order. */
  function IndicesOf(edges: seq<string>): Outcome<seq<nat>> {
    if edges == [] then Ok([])
    else
      match IndicesOf(edges[..|edges| - 1])
      case Raises(e) => Raises(e)
      case Ok(xs) =>
        match EdgeIndices(edges[|edges| - 1])
        case Raises(e) => Raises(e)
        case Ok(ys) => Ok(xs + ys)
  }

  /** Once a prefix of the edges raises, the whole list raises the same error. */
  lemma {:induction false} IndicesOfStops(edges: seq<string>, i: nat)
    requires i <= |edges| && IndicesOf(edges[..i]).Raises?
    ensures IndicesOf(edges) == IndicesOf(edges[..i])
    decreases |edges|
  {
    if i < |edges| {
      var init := edges[..|edges| - 1];
      assert init[..i] == edges[..i];
      IndicesOfStops(init, i);
    } else {
      assert edges[..i] == edges;
    }
  }

  /** The edge component `<objectName>.e[<k>]`. */
  function EdgeName(objectName: string, k: nat): string {
    objectName + ".e[" + NatToString(k) + "]"
  }

  /** The edges for `indices` that are not internal, in order. */
  function External(objectName: string, internal: seq<nat>, indices: seq<nat>): seq<string> {
    if indices == [] then []
    else
      var k := indices[|indices| - 1];
      External(objectName, internal, indices[..|indices| - 1]) + (if k in internal then [] else [EdgeName(objectName, k)])
  }

  /** The tool's nested loop: for each edge string, its indices that are not internal. */
  function PerimeterEdges(objectName: string, internal: seq<nat>, edges: seq<string>): Outcome<seq<string>> {
    if edges == [] then Ok([])
    else
      match PerimeterEdges(objectName, internal, edges[..|edges| - 1])
      case Raises(e) => Raises(e)
      case Ok(names) =>
        match EdgeIndices(edges[|edges| - 1])
        case Raises(e) => Raises(e)
        case Ok(ys) => Ok(names + External(objectName, internal, ys))
  }

  /** Once a prefix of the edges raises, the whole loop raises the same error. */
  lemma {:induction false} PerimeterEdgesStops(objectName: string, internal: seq<nat>, edges: seq<string>, i: nat)
    requires i <= |edges| && PerimeterEdges(objectName, internal, edges[..i]).Raises?
    ensures PerimeterEdges(objectName, internal, edges) == PerimeterEdges(objectName, internal, edges[..i])
    decreases |edges|
  {
    if i < |edges| {
      var init := edges[..|edges| - 1];
      assert init[..i] == edges[..i];
      PerimeterEdgesStops(objectName, internal, init, i);
    } else {
      assert edges[..i] == edges;
    }
  }

  /** A selected component is a face when its type group is `f`. */
  predicate IsFace(item: string) {
    MatchComponent(item).Some? && MatchComponent(item).value.kind == "f"
  }

  /** The object name as the tool reads it: group 1 of the first selected component, or "" when it does not match. */
  function ObjectName(item: string): string {
    match MatchComponent(item)
    case None => ""
    case Some(m) => m.objectName
  }

  /**
    What the tool does: `None` when it returns without touching the selection, the new
    selection otherwise. `objects` is the selected objects, `selected` the selected
    components, and `internalEdges` and `allEdges` are the host's conversions of the selected
    faces to their internal edges and to all their edges.
  */
  function Perimeter(objects: seq<string>, selected: seq<string>, internalEdges: seq<string>, allEdges: seq<string>)
    : Outcome<Option<seq<string>>>
  {
    if |objects| != 1 then Ok(None)
    else if selected == [] then Raises(IndexError)
    else if !(exists i :: 0 <= i < |selected| && IsFace(selected[i])) then Ok(None)
    else
      match IndicesOf(internalEdges)
      case Raises(e) => Raises(e)
      case Ok(internal) =>
        match PerimeterEdges(ObjectName(selected[0]), internal, allEdges)
        case Raises(e) => Raises(e)
        case Ok(names) => Ok(Some(names))
  }

  /** The tool's loops: the face check, the internal indices, then the perimeter edges. */
  method FacesToEdgePerimeter(objects: seq<string>, selected: seq<string>, internalEdges: seq<string>,
                              allEdges: seq<string>)
    returns (r: Outcome<Option<seq<string>>>)
    ensures r == Perimeter(objects, selected, internalEdges, allEdges)
  {
    if |objects| <= 0 || |objects| > 1 {
      return Ok(None);
    }
    if |selected| == 0 {
      return Raises(IndexError);
    }
    var name := SeparateComponentString(selected[0], [1]);
    var objectName := ObjectNameFrom(selected[0], name);
    var faces := false;
    var i := 0;
    while i < |selected| && !faces
      invariant 0 <= i <= |selected|
      invariant faces <==> exists j :: 0 <= j < i && IsFace(selected[j])
    {
      var kind := SeparateComponentString(selected[i], [2]);
      faces := KindIsFace(selected[i], kind);
      i := i + 1;
    }
    if !faces {
      return Ok(None);
    }
    var internal := CollectIndices(internalEdges);
    if internal.Raises? {
      return Raises(internal.error);
    }
    var edges := CollectPerimeter(objectName, internal.value, allEdges);
    if edges.Raises? {
      return Raises(edges.error);
    }
    return Ok(Some(edges.value));
  }

  /** `separateComponentString(item, [1])[0]`, the object name. */
  method ObjectNameFrom(item: string, parts: Outcome<seq<Part>>) returns (objectName: string)
    requires parts == Separated(item, [1])
    ensures objectName == ObjectName(item)
  {
    if MatchComponent(item).Some? {
      GroupPartsOne(MatchComponent(item).value, 1);
    }
    objectName := parts.value[0].text;
  }

  /** `separateComponentString(item, [2])[0] == "f"`. */
  method KindIsFace(item: string, parts: Outcome<seq<Part>>) returns (face: bool)
    requires parts == Separated(item, [2])
    ensures face == IsFace(item)
  {
    if MatchComponent(item).Some? {
      GroupPartsOne(MatchComponent(item).value, 2);
    }
    face := parts.value[0] == Text("f");
  }

  /** `separateComponentString(edge, [3])[0]`, as a list of indices. */
  method IndicesFrom(edge: string) returns (r: Outcome<seq<nat>>)
    ensures r == EdgeIndices(edge)
  {
    var parts := SeparateComponentString(edge, [3]);
    if MatchComponent(edge).Some? {
      GroupPartsOne(MatchComponent(edge).value, 3);
    }
    if parts.Raises? {
      return Raises(parts.error);
    }
    var first := parts.value[0];
    // A string that does not match yields "", and extending a list by "" adds nothing.
    r := if first.Numbers? then Ok(first.values) else Ok([]);
  }

  /** The loop over the internal edges, concatenating their indices. */
  method CollectIndices(edges: seq<string>) returns (r: Outcome<seq<nat>>)
    ensures r == IndicesOf(edges)
  {
    var indices: seq<nat> := [];
    for i := 0 to |edges|
      invariant IndicesOf(edges[..i]) == Ok(indices)
    {
      assert edges[..i + 1][..i] == edges[..i];
      var more := IndicesFrom(edges[i]);
      if more.Raises? {
        IndicesOfStops(edges, i + 1);
        return Raises(more.error);
      }
      indices := indices + more.value;
    }
    assert edges[..|edges|] == edges;
    return Ok(indices);
  }

  /** The nested loop over all edges and their indices, skipping internal ones. */
  method CollectPerimeter(objectName: string, internal: seq<nat>, edges: seq<string>) returns (r: Outcome<seq<string>>)
    ensures r == PerimeterEdges(objectName, internal, edges)
  {
    var external: seq<string> := [];
    for i := 0 to |edges|
      invariant PerimeterEdges(objectName, internal, edges[..i]) == Ok(external)
    {
      assert edges[..i + 1][..i] == edges[..i];
      var indices := IndicesFrom(edges[i]);
      if indices.Raises? {
        PerimeterEdgesStops(objectName, internal, edges, i + 1);
        return Raises(indices.error);
      }
      var found := ExternalOf(objectName, internal, indices.value);
      external := external + found;
    }
    assert edges[..|edges|] == edges;
    return Ok(external);
  }

  /** The inner loop: one edge string's indices that are not internal. */
  method ExternalOf(objectName: string, internal: seq<nat>, indices: seq<nat>) returns (names: seq<string>)
    ensures names == External(objectName, internal, indices)
  {
    names := [];
    for j := 0 to |indices|
      invariant names == External(objectName, internal, indices[..j])
    {
      assert indices[..j + 1][..j] == indices[..j];
      if indices[j] in internal {
        continue;
      }
      names := names + [EdgeName(objectName, indices[j])];
    }
    assert indices[..|indices|] == indices;
  }

  /** Filtering distributes over concatenation. */
  lemma {:induction false} ExternalAppend(objectName: string, internal: seq<nat>, xs: seq<nat>, ys: seq<nat>)
    ensures External(objectName, internal, xs + ys)
         == External(objectName, internal, xs) + External(objectName, internal, ys)
    decreases |ys|
  {
    if ys == [] {
      assert xs + ys == xs;
    } else {
      var init := ys[..|ys| - 1];
      assert (xs + ys)[..|xs + ys| - 1] == xs + init;
      ExternalAppend(objectName, internal, xs, init);
    }
  }

  /**
    The perimeter loop is the filter of all the edges' indices, in order: the edges emitted
    are `<objectName>.e[k]` for each index `k` of the all-edges list that is not internal.
  */
  lemma {:induction false} PerimeterIsExternal(objectName: string, internal: seq<nat>, edges: seq<string>)
    ensures PerimeterEdges(objectName, internal, edges).Ok? <==> IndicesOf(edges).Ok?
    ensures IndicesOf(edges).Ok? ==>
      PerimeterEdges(objectName, internal, edges).value == External(objectName, internal, IndicesOf(edges).value)
  {
    if edges != [] {
      var init := edges[..|edges| - 1];
      PerimeterIsExternal(objectName, internal, init);
      if IndicesOf(init).Ok? && EdgeIndices(edges[|edges| - 1]).Ok? {
        ExternalAppend(objectName, internal, IndicesOf(init).value, EdgeIndices(edges[|edges| - 1]).value);
      }
    }
  }

  /** An edge is emitted exactly when it names an index of the list that is not internal. */
  lemma {:induction false} ExternalMembers(objectName: string, internal: seq<nat>, indices: seq<nat>, e: string)
    ensures e in External(objectName, internal, indices)
        <==> exists k :: k in indices && k !in internal && e == EdgeName(objectName, k)
  {
    if indices != [] {
      var init := indices[..|indices| - 1];
      var last := indices[|indices| - 1];
      ExternalMembers(objectName, internal, init, e);
      assert indices == init + [last];
      if exists k :: k in indices && k !in internal && e == EdgeName(objectName, k) {
        var k :| k in indices && k !in internal && e == EdgeName(objectName, k);
        if k != last {
          assert k in init;
        }
      }
    }
  }

  /** The tool changes the selection only for exactly one object with at least one face selected. */
  lemma PerimeterNeedsOneObjectAndFace(objects: seq<string>, selected: seq<string>, internalEdges: seq<string>,
                                       allEdges: seq<string>)
    ensures var r := Perimeter(objects, selected, internalEdges, allEdges);
      r.Ok? && r.value.Some? ==> |objects| == 1 && exists i :: 0 <= i < |selected| && IsFace(selected[i])
    ensures |selected| > 0 && !(exists i :: 0 <= i < |selected| && IsFace(selected[i]))
      ==> Perimeter(objects, selected, internalEdges, allEdges) == Ok(None)
  {
  }
}
