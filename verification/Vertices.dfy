/** Vertices, matrices over exact reals, and what a transform does to a vertex. */
module Vertices {
  datatype Vec3 = Vec3(x: real, y: real, z: real)
  datatype Vec4 = Vec4(x: real, y: real, z: real, w: real)

  /** A 4x4 matrix by rows. */
  datatype Mat4 = Mat4(r0: Vec4, r1: Vec4, r2: Vec4, r3: Vec4)

  datatype Color = Color(r: int, g: int, b: int, a: int)

  datatype Vertex = Vertex(pos: Vec3, isWorld: real, color: Color, uv: Vec3)

  const IDENTITY := Mat4(Vec4(1.0, 0.0, 0.0, 0.0), Vec4(0.0, 1.0, 0.0, 0.0),
                         Vec4(0.0, 0.0, 1.0, 0.0), Vec4(0.0, 0.0, 0.0, 1.0))

  function Dot(a: Vec4, b: Vec4): real {
    a.x * b.x + a.y * b.y + a.z * b.z + a.w * b.w
  }

  function Times(m: Mat4, v: Vec4): Vec4 {
    Vec4(Dot(m.r0, v), Dot(m.r1, v), Dot(m.r2, v), Dot(m.r3, v))
  }

  function Scale(k: real, v: Vec4): Vec4 {
    Vec4(k * v.x, k * v.y, k * v.z, k * v.w)
  }

  function Add(a: Vec4, b: Vec4): Vec4 {
    Vec4(a.x + b.x, a.y + b.y, a.z + b.z, a.w + b.w)
  }

  /** A row vector times a matrix. */
  function RowTimes(a: Vec4, m: Mat4): Vec4 {
    Add(Add(Scale(a.x, m.r0), Scale(a.y, m.r1)), Add(Scale(a.z, m.r2), Scale(a.w, m.r3)))
  }

  function Product(a: Mat4, b: Mat4): Mat4 {
    Mat4(RowTimes(a.r0, b), RowTimes(a.r1, b), RowTimes(a.r2, b), RowTimes(a.r3, b))
  }

  /** The homogeneous position; a zero world flag counts as 1. */
  function Homogeneous(v: Vertex): Vec4 {
    Vec4(v.pos.x, v.pos.y, v.pos.z, if v.isWorld == 0.0 then 1.0 else v.isWorld)
  }

  /** `vertex::transform`: moves the position and keeps the world flag, whatever `w` came out. */
  function Transform(m: Mat4, v: Vertex): Vertex {
    var p := Times(m, Homogeneous(v));
    v.(pos := Vec3(p.x, p.y, p.z))
  }

  function Channel(c: int, t: real): int {
    var x := c as real / 255.0 * t;
    ((if x < 0.0 then 0.0 else if x > 1.0 then 1.0 else x) * 255.0).Floor
  }

  function TransformTinted(m: Mat4, tint: Vec4, v: Vertex): Vertex {
    Transform(m, v).(color := Color(Channel(v.color.r, tint.x), Channel(v.color.g, tint.y),
                                    Channel(v.color.b, tint.z), Channel(v.color.a, tint.w)))
  }

  /** The fast path is no other path: the identity transform changes no vertex. */
  lemma {:induction false} IdentityTransform(v: Vertex)
    ensures Transform(IDENTITY, v) == v
  {
    var p := Homogeneous(v);
    assert Dot(IDENTITY.r0, p) == p.x && Dot(IDENTITY.r1, p) == p.y && Dot(IDENTITY.r2, p) == p.z;
  }

  // ----- Two transforms in turn -----

  /** The last row is (0, 0, 0, 1): homogeneous positions keep their `w`. */
  predicate Affine(m: Mat4) {
    m.r3 == Vec4(0.0, 0.0, 0.0, 1.0)
  }

  /** No translation: the upper three entries of the last column are zero. */
  predicate Untranslating(m: Mat4) {
    m.r0.w == 0.0 && m.r1.w == 0.0 && m.r2.w == 0.0
  }

  lemma {:induction false} DotScale(k: real, r: Vec4, v: Vec4)
    ensures Dot(Scale(k, r), v) == k * Dot(r, v)
  {
    var x, y, z, w := r.x * v.x, r.y * v.y, r.z * v.z, r.w * v.w;
    assert k * r.x * v.x == k * x && k * r.y * v.y == k * y;
    assert k * r.z * v.z == k * z && k * r.w * v.w == k * w;
    assert k * (x + y + z + w) == k * x + k * y + k * z + k * w;
  }

  lemma {:induction false} DotAdd(a: Vec4, b: Vec4, v: Vec4)
    ensures Dot(Add(a, b), v) == Dot(a, v) + Dot(b, v)
  {
  }

  lemma {:induction false} RowAssociates(a: Vec4, m: Mat4, v: Vec4)
    ensures Dot(RowTimes(a, m), v) == Dot(a, Times(m, v))
  {
    DotScale(a.x, m.r0, v);
    DotScale(a.y, m.r1, v);
    DotScale(a.z, m.r2, v);
    DotScale(a.w, m.r3, v);
    DotAdd(Scale(a.x, m.r0), Scale(a.y, m.r1), v);
    DotAdd(Scale(a.z, m.r2), Scale(a.w, m.r3), v);
    DotAdd(Add(Scale(a.x, m.r0), Scale(a.y, m.r1)), Add(Scale(a.z, m.r2), Scale(a.w, m.r3)), v);
  }

  /** Exchanging the last coordinate. */
  lemma {:induction false} DotWithW(a: Vec4, p: Vec4, w: real)
    ensures Dot(a, Vec4(p.x, p.y, p.z, w)) == Dot(a, p) + a.w * (w - p.w)
  {
  }

  /** Dropping `w` in between costs the translation its factor, and nothing else. */
  lemma {:induction false} RowAfter(a: Vec4, m: Mat4, v: Vertex)
    ensures Dot(a, Homogeneous(Transform(m, v)))
         == Dot(RowTimes(a, m), Homogeneous(v))
            + a.w * (Homogeneous(v).w - Dot(m.r3, Homogeneous(v)))
  {
    var h := Homogeneous(v);
    RowAssociates(a, m, h);
    DotWithW(a, Times(m, h), h.w);
  }

  lemma {:induction false} Composes(b: Mat4, a: Mat4, v: Vertex)
    requires Affine(a) || Untranslating(b)
    ensures Transform(b, Transform(a, v)) == Transform(Product(b, a), v)
  {
    RowAfter(b.r0, a, v);
    RowAfter(b.r1, a, v);
    RowAfter(b.r2, a, v);
    var h := Homogeneous(v);
    if Affine(a) {
      assert Dot(a.r3, h) == h.w;
    }
  }

  /** A vertex whose `w` the non-affine matrix `m` changes. */
  function Probe(m: Mat4): (v: Vertex)
    ensures !Affine(m) ==> Homogeneous(v).w != Dot(m.r3, Homogeneous(v))
  {
    var at := (x: real, y: real, z: real) => Vertex(Vec3(x, y, z), 0.0, Color(0, 0, 0, 0), Vec3(0.0, 0.0, 0.0));
    if m.r3.w != 1.0 then at(0.0, 0.0, 0.0)
    else if m.r3.x != 0.0 then at(1.0, 0.0, 0.0)
    else if m.r3.y != 0.0 then at(0.0, 1.0, 0.0)
    else at(0.0, 0.0, 1.0)
  }

  /**
    * Exactly when transforming by `a` and then by `b` is transforming by their product, for every
    * vertex: the first matrix is affine, or the second does not translate.
    */
  lemma {:induction false} ComposesIff(b: Mat4, a: Mat4)
    ensures (forall v :: Transform(b, Transform(a, v)) == Transform(Product(b, a), v))
       <==> Affine(a) || Untranslating(b)
  {
    if Affine(a) || Untranslating(b) {
      forall v
        ensures Transform(b, Transform(a, v)) == Transform(Product(b, a), v)
      {
        Composes(b, a, v);
      }
    } else {
      var v := ProbeTells(b, a);
    }
  }

  /** Neither condition: the product misplaces the probe. */
  lemma {:induction false} ProbeTells(b: Mat4, a: Mat4) returns (v: Vertex)
    requires !Affine(a) && !Untranslating(b)
    ensures Transform(b, Transform(a, v)) != Transform(Product(b, a), v)
  {
    v := Probe(a);
    var d := Homogeneous(v).w - Dot(a.r3, Homogeneous(v));
    RowMisses(b.r0, a, v, d);
    RowMisses(b.r1, a, v, d);
    RowMisses(b.r2, a, v, d);
  }

  lemma {:induction false} RowMisses(r: Vec4, m: Mat4, v: Vertex, d: real)
    requires d == Homogeneous(v).w - Dot(m.r3, Homogeneous(v)) && d != 0.0
    ensures Dot(r, Homogeneous(Transform(m, v))) == Dot(RowTimes(r, m), Homogeneous(v)) <==> r.w == 0.0
  {
    RowAfter(r, m, v);
    NonZeroProduct(r.w, d);
  }

  lemma {:induction false} NonZeroProduct(x: real, y: real)
    requires y != 0.0
    ensures x * y == 0.0 <==> x == 0.0
  {
  }
}
