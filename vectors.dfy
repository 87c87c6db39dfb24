/**
  Three-component attribute values (translate, rotate, scale), the host scene they are read
  from, and the in-place loops that subtract or divide one stored triple by another.

  Python floats are modelled as `real`: rounding is not part of the model.
*/
module Vectors {

  datatype Vec3 = Vec3(x: real, y: real, z: real)

  const Origin: Vec3 := Vec3(0.0, 0.0, 0.0)
  const Unit: Vec3 := Vec3(1.0, 1.0, 1.0)

  function Add(a: Vec3, b: Vec3): Vec3 {
    Vec3(a.x + b.x, a.y + b.y, a.z + b.z)
  }

  function Sub(a: Vec3, b: Vec3): Vec3 {
    Vec3(a.x - b.x, a.y - b.y, a.z - b.z)
  }

  function Mul(a: Vec3, b: Vec3): Vec3 {
    Vec3(a.x * b.x, a.y * b.y, a.z * b.z)
  }

  predicate NonZero(v: Vec3) {
    v.x != 0.0 && v.y != 0.0 && v.z != 0.0
  }

  function Div(a: Vec3, b: Vec3): Vec3
    requires NonZero(b)
  {
    Vec3(a.x / b.x, a.y / b.y, a.z / b.z)
  }

  /** What the host reports for one scene node. */
  datatype SceneNode = SceneNode(isTransform: bool, translate: Vec3, rotatePivot: Vec3, rotate: Vec3, scale: Vec3)

  /** The host scene, by node name; a name that is not a key does not exist. */
  type Scene = map<string, SceneNode>

  /** `objExists` and `objectType(...) == 'transform'` together. */
  predicate IsLiveTransform(scene: Scene, name: string) {
    name in scene && scene[name].isTransform
  }

  /** The triple stored in a three-element list. */
  function Read(a: array<real>): Vec3
    requires a.Length == 3
    reads a
  {
    Vec3(a[0], a[1], a[2])
  }

  method Store(a: array<real>, v: Vec3)
    requires a.Length == 3
    modifies a
    ensures Read(a) == v
  {
    a[0], a[1], a[2] := v.x, v.y, v.z;
  }

  /**
    `a[i] -= value for i, value in enumerate(b)`. The two lists may be the same list: each
    element of `b` is read before it is overwritten, so the result is the difference of the
    old values either way.
  */
  method SubtractInPlace(a: array<real>, b: array<real>)
    requires a.Length == 3 && b.Length == 3
    modifies a
    ensures Read(a) == Sub(old(Read(a)), old(Read(b)))
  {
    for i := 0 to 3
      invariant forall k :: 0 <= k < i ==> a[k] == old(a[k]) - old(b[k])
      invariant forall k :: i <= k < 3 ==> a[k] == old(a[k]) && b[k] == old(b[k])
    {
      a[i] := a[i] - b[i];
    }
  }

  /** `a[i] /= value for i, value in enumerate(b)`, for a divisor with no zero component. */
  method DivideInPlace(a: array<real>, b: array<real>)
    requires a.Length == 3 && b.Length == 3
    requires NonZero(Read(b))
    modifies a
    ensures NonZero(old(Read(b)))
    ensures Read(a) == Div(old(Read(a)), old(Read(b)))
  {
    for i := 0 to 3
      invariant forall k :: 0 <= k < i ==> old(b[k]) != 0.0 && a[k] == old(a[k]) / old(b[k])
      invariant forall k :: i <= k < 3 ==> a[k] == old(a[k]) && b[k] == old(b[k]) && b[k] != 0.0
    {
      a[i] := a[i] / b[i];
    }
  }
}
