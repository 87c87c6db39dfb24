/**
  The package exporter's `transform`: a snapshot of one scene transform (its name and its
  translate, rotate and scale lists), refreshed from the scene on demand and rewritten in place
  when it is made relative to the root transform.
*/
module Transforms {
  import opened Vectors

  /** A transform's attributes as they appear in the scene document. */
  datatype Attributes = Attributes(name: string, translate: Vec3, rotate: Vec3, scale: Vec3)

  /**
    What `update` records for a live node: the translate is offset by the rotate pivot, so
    the stored position is the pivot's position.
  */
  function Snapshot(name: string, node: SceneNode): (a: Attributes)
    ensures a.name == name && a.rotate == node.rotate && a.scale == node.scale
    ensures Sub(a.translate, node.rotatePivot) == node.translate
  {
    Attributes(name, Add(node.translate, node.rotatePivot), node.rotate, node.scale)
  }

  /**
    The attributes of `a` relative to `root`: the change that takes the root onto `a`. Positions
    and rotations are differences, scales are quotients; the name is kept. `PlaceRelative` and
    `RelativePlace` prove it the inverse of `PlaceUnder`.
  */
  function RelativeTo(a: Attributes, root: Attributes): (r: Attributes)
    requires NonZero(root.scale)
    ensures r.name == a.name
  {
    Attributes(a.name, Sub(a.translate, root.translate), Sub(a.rotate, root.rotate), Div(a.scale, root.scale))
  }

  /** The inverse placement: a relative record applied on top of the root. */
  function PlaceUnder(r: Attributes, root: Attributes): Attributes {
    Attributes(r.name, Add(r.translate, root.translate), Add(r.rotate, root.rotate), Mul(r.scale, root.scale))
  }

  /** Placing a relative record back under its root gives the absolute attributes back. */
  lemma PlaceRelative(a: Attributes, root: Attributes)
    requires NonZero(root.scale)
    ensures PlaceUnder(RelativeTo(a, root), root) == a
  {
    var s := root.scale;
    assert a.scale.x / s.x * s.x == a.scale.x;
    assert a.scale.y / s.y * s.y == a.scale.y;
    assert a.scale.z / s.z * s.z == a.scale.z;
  }

  /** And making a placed record relative again gives the record back. */
  lemma RelativePlace(r: Attributes, root: Attributes)
    requires NonZero(root.scale)
    ensures RelativeTo(PlaceUnder(r, root), root) == r
  {
    var s := root.scale;
    assert r.scale.x * s.x / s.x == r.scale.x;
    assert r.scale.y * s.y / s.y == r.scale.y;
    assert r.scale.z * s.z / s.z == r.scale.z;
  }

  /** A root at the origin with no rotation and unit scale leaves attributes as they are. */
  predicate IsIdentityRoot(root: Attributes) {
    root.translate == Origin && root.rotate == Origin && root.scale == Unit
  }

  lemma RelativeToIdentity(a: Attributes, root: Attributes)
    requires IsIdentityRoot(root)
    ensures RelativeTo(a, root) == a
  {
  }

  /**
    Making an already relative record relative again subtracts the root a second time: the
    operation is not idempotent.
  */
  lemma RelativeTwice(a: Attributes, root: Attributes)
    requires NonZero(root.scale)
    ensures RelativeTo(RelativeTo(a, root), root).translate == Sub(a.translate, Add(root.translate, root.translate))
    ensures RelativeTo(RelativeTo(a, root), root).rotate == Sub(a.rotate, Add(root.rotate, root.rotate))
    ensures RelativeTo(RelativeTo(a, root), root).scale == Div(Div(a.scale, root.scale), root.scale)
  {
  }

  /** In particular a root away from the origin moves the record again on every repetition. */
  lemma RepeatedRelativeDiffers(a: Attributes, root: Attributes)
    requires NonZero(root.scale) && root.translate != Origin
    ensures RelativeTo(RelativeTo(a, root), root) != RelativeTo(a, root)
  {
    var once := RelativeTo(a, root);
    var twice := RelativeTo(once, root);
    assert twice.translate == Sub(once.translate, root.translate);
  }

  class Transform {
    const name: string
    const translate: array<real>
    const rotate: array<real>
    const scale: array<real>

    /** Three separate three-element lists. */
    predicate Valid() {
      translate.Length == 3 && rotate.Length == 3 && scale.Length == 3
      && translate != rotate && translate != scale && rotate != scale
    }

    function Repr(): set<array<real>> {
      {translate, rotate, scale}
    }

    /** The stored attributes. */
    function Attrs(): Attributes
      requires Valid()
      reads Repr()
    {
      Attributes(name, Read(translate), Read(rotate), Read(scale))
    }

    /** Snapshot a live scene transform; the host only hands over names of live transforms. */
    constructor (name: string, scene: Scene)
      requires IsLiveTransform(scene, name)
      ensures this.name == name && Valid() && fresh(Repr())
      ensures Attrs() == Snapshot(name, scene[name])
    {
      var s := Snapshot(name, scene[name]);
      this.name := name;
      translate := new real[] [s.translate.x, s.translate.y, s.translate.z];
      rotate := new real[] [s.rotate.x, s.rotate.y, s.rotate.z];
      scale := new real[] [s.scale.x, s.scale.y, s.scale.z];
    }

    /**
      Report whether the scene still has a transform under this name and, if so, re-read its
      attributes; a missing or non-transform node leaves the stored values alone.
    */
    method Update(scene: Scene) returns (ok: bool)
      requires Valid()
      modifies Repr()
      ensures ok == IsLiveTransform(scene, name)
      ensures ok ==> Attrs() == Snapshot(name, scene[name])
      ensures !ok ==> Attrs() == old(Attrs())
    {
      if !IsLiveTransform(scene, name) {
        return false;
      }
      var s := Snapshot(name, scene[name]);
      Store(translate, s.translate);
      Store(rotate, s.rotate);
      Store(scale, s.scale);
      return true;
    }

    /**
      The attributes relative to `other`, computed by rewriting this transform's own lists, so
      afterwards the stored attributes are the relative ones. `other` may be this transform.
    */
    method GetRelativeAttributes(other: Transform) returns (r: Attributes)
      requires Valid() && other.Valid()
      requires other == this || Repr() !! other.Repr()
      requires NonZero(other.Attrs().scale)
      modifies Repr()
      ensures r == RelativeTo(old(Attrs()), old(other.Attrs()))
      ensures Attrs() == r
    {
      SubtractInPlace(translate, other.translate);
      SubtractInPlace(rotate, other.rotate);
      DivideInPlace(scale, other.scale);
      r := Attrs();
    }
  }
}
