/**
  The older `separateComponentString` of the scripts folder. It matches the same pattern and
  reads the same groups, but the indices are spliced into the result: one index is added as a
  bare number and a range adds each of its numbers, so the result is a flat list.
*/
module ScriptsSalt {
  import opened Common
  import opened ComponentStrings
  import Salt

  /** One element of the flat result: a text group or one index. */
  datatype Item = Str(text: string) | Int(value: nat)

  /** The indices as elements of the flat result. */
  function Ints(xs: seq<nat>): (r: seq<Item>)
    ensures |r| == |xs|
    ensures forall i :: 0 <= i < |r| ==> r[i] == Int(xs[i])
  {
    seq(|xs|, i requires 0 <= i < |xs| => Int(xs[i]))
  }

  /** The elements group `g` adds: its text, the one index, or every index of the range. */
  function GroupItems(m: ComponentMatch, g: int): Outcome<seq<Item>> {
    if g != 3 then
      match GroupText(m, g)
      case Ok(t) => Ok([Str(t)])
      case Raises(e) => Raises(e)
    else
      match ParseIndices(m.indices)
      case Ok(ix) => Ok(Ints(IndexList(ix)))
      case Raises(e) => Raises(e)
  }

  /** The elements for `groups`, in order; the first group that raises ends the call. */
  function FlatParts(m: ComponentMatch, groups: seq<int>): Outcome<seq<Item>> {
    if groups == [] then Ok([])
    else
      match FlatParts(m, groups[..|groups| - 1])
      case Raises(e) => Raises(e)
      case Ok(items) =>
        match GroupItems(m, groups[|groups| - 1])
        case Raises(e) => Raises(e)
        case Ok(more) => Ok(items + more)
  }

  /** What this `separateComponentString(s, groups)` returns or raises. */
  function Separated(s: string, groups: seq<int>): Outcome<seq<Item>> {
    match MatchComponent(s)
    case None => Ok([Str("")])
    case Some(m) => FlatParts(m, groups)
  }

  /** The parser, with its loop over `groups`. */
  method SeparateComponentString(componentString: string, groups: seq<int>) returns (r: Outcome<seq<Item>>)
    ensures r == Separated(componentString, groups)
  {
    var found := MatchComponent(componentString);
    if found.None? {
      return Ok([Str("")]);
    }
    var m := found.value;
    var separated: seq<Item> := [];
    for i := 0 to |groups|
      invariant FlatParts(m, groups[..i]) == Ok(separated)
    {
      assert groups[..i + 1][..i] == groups[..i];
      if groups[i] != 3 {
        var group := GroupText(m, groups[i]);
        if group.Raises? {
          FlatPartsStops(m, groups, i + 1);
          return Raises(group.error);
        }
        separated := separated + [Str(group.value)];
        continue;
      }
      var indices := ParseIndices(m.indices);
      if indices.Raises? {
        FlatPartsStops(m, groups, i + 1);
        return Raises(indices.error);
      }
      match indices.value
      case Single(n) =>
        assert Ints([n]) == [Int(n)];
        separated := separated + [Int(n)];
      case Range(first, last) =>
        separated := separated + Ints(InclusiveRange(first, last));
    }
    assert groups[..|groups|] == groups;
    return Ok(separated);
  }

  /** Once a prefix of the groups raises, the whole call raises the same error. */
  lemma {:induction false} FlatPartsStops(m: ComponentMatch, groups: seq<int>, i: nat)
    requires i <= |groups| && FlatParts(m, groups[..i]).Raises?
    ensures FlatParts(m, groups) == FlatParts(m, groups[..i])
    decreases |groups|
  {
    if i < |groups| {
      var init := groups[..|groups| - 1];
      assert init[..i] == groups[..i];
      FlatPartsStops(m, init, i);
    } else {
      assert groups[..i] == groups;
    }
  }

  /** How many of the requested groups are group 3. */
  function CountIndexGroups(groups: seq<int>): (n: nat)
    ensures n <= |groups|
  {
    if groups == [] then 0
    else CountIndexGroups(groups[..|groups| - 1]) + (if groups[|groups| - 1] == 3 then 1 else 0)
  }

  /**
    The length of the flat result: one element per text group and, per group 3, as many as
    the indices hold (one for a single index, `max(0, b - a + 1)` for a range `a:b`).
  */
  lemma {:induction false} FlatLength(m: ComponentMatch, groups: seq<int>, ix: Indices)
    requires ParseIndices(m.indices) == Ok(ix)
    requires FlatParts(m, groups).Ok?
    ensures |FlatParts(m, groups).value|
         == |groups| - CountIndexGroups(groups) + CountIndexGroups(groups) * |IndexList(ix)|
  {
    if groups != [] {
      var init := groups[..|groups| - 1];
      var g := groups[|groups| - 1];
      FlatLength(m, init, ix);
      var c, w := CountIndexGroups(init), |IndexList(ix)|;
      var n := |FlatParts(m, init).value|;
      assert n == |init| - c + c * w;
      if g == 3 {
        assert |FlatParts(m, groups).value| == n + w;
        MulSucc(c, w);
      } else {
        assert |FlatParts(m, groups).value| == n + 1;
      }
    }
  }

  lemma MulSucc(c: nat, w: nat)
    ensures (c + 1) * w == c * w + w
  {
  }

  /** The parts of the list-valued version, spliced into one flat list. */
  function Flatten(parts: seq<Salt.Part>): seq<Item> {
    if parts == [] then []
    else
      var last := parts[|parts| - 1];
      Flatten(parts[..|parts| - 1]) + (match last case Text(t) => [Str(t)] case Numbers(xs) => Ints(xs))
  }

  /** Flattening distributes over concatenation. */
  lemma {:induction false} FlattenSnoc(parts: seq<Salt.Part>, p: Salt.Part)
    ensures Flatten(parts + [p]) == Flatten(parts) + Flatten([p])
  {
    assert (parts + [p])[..|parts|] == parts;
    assert [p][..0] == [];
  }

  /**
    The two versions agree: on every input both raise the same error, or this one returns the
    other's result with each index list spliced in.
  */
  lemma {:induction false} VariantsAgree(s: string, groups: seq<int>)
    ensures Separated(s, groups).Ok? <==> Salt.Separated(s, groups).Ok?
    ensures Separated(s, groups).Ok? ==> Separated(s, groups).value == Flatten(Salt.Separated(s, groups).value)
    ensures Separated(s, groups).Raises? ==> Separated(s, groups).error == Salt.Separated(s, groups).error
  {
    match MatchComponent(s)
    case None =>
      assert [Salt.Text("")][..0] == [];
    case Some(m) =>
      PartsAgree(m, groups);
  }

  /** The flat and the list-valued group loops agree, group by group. */
  lemma {:induction false} PartsAgree(m: ComponentMatch, groups: seq<int>)
    ensures FlatParts(m, groups).Ok? <==> Salt.GroupParts(m, groups).Ok?
    ensures FlatParts(m, groups).Ok? ==> FlatParts(m, groups).value == Flatten(Salt.GroupParts(m, groups).value)
    ensures FlatParts(m, groups).Raises? ==> FlatParts(m, groups).error == Salt.GroupParts(m, groups).error
  {
    if groups != [] {
      var init := groups[..|groups| - 1];
      var g := groups[|groups| - 1];
      PartsAgree(m, init);
      if Salt.GroupParts(m, init).Ok? && Salt.GroupPart(m, g).Ok? {
        var p := Salt.GroupPart(m, g).value;
        FlattenSnoc(Salt.GroupParts(m, init).value, p);
        assert [p][..0] == [];
      }
    }
  }

  /** A printed range `name.type[a:b]` with group 3 gives every index from `a` to `b`, spliced in. */
  lemma RangeSpliced(name: string, kind: string, a: nat, b: nat)
    requires WellFormed(ComponentMatch(name, kind, NatToString(a) + ":" + NatToString(b)))
    ensures Separated(name + "." + kind + "[" + NatToString(a) + ":" + NatToString(b) + "]", [3])
         == Ok(Ints(InclusiveRange(a, b)))
  {
    var m := ComponentMatch(name, kind, NatToString(a) + ":" + NatToString(b));
    MatchComplete(m, "]");
    RangeText(name, kind, NatToString(a), NatToString(b));
    ParseRange(a, b);
    OneIndexGroup(m, Range(a, b));
  }

  /** Group 3 alone gives the indices of the match, spliced in. */
  lemma OneIndexGroup(m: ComponentMatch, ix: Indices)
    requires ParseIndices(m.indices) == Ok(ix)
    ensures FlatParts(m, [3]) == Ok(Ints(IndexList(ix)))
  {
    var gs := [3];
    assert gs[..|gs| - 1] == [];
    assert FlatParts(m, gs[..|gs| - 1]) == Ok([]);
    assert [] + Ints(IndexList(ix)) == Ints(IndexList(ix));
  }
}
