/**
  * The command buffer: vertices and one index stream per topology. Every operation appends whole
  * primitives over its own vertices, so indices never dangle; queueing one buffer into another appends
  * exactly the geometry that buffer shows.
  */
module CommandBuffer {
  import opened Options
  import opened Vertices
  import opened Patterns
  import opened Triangulate
  import opened Pixels

  const BLANK := Vertex(Vec3(0.0, 0.0, 0.0), 0.0, Color(0, 0, 0, 0), Vec3(0.0, 0.0, 0.0))

  function Blanks(n: nat): (r: seq<Vertex>)
    ensures |r| == n && forall i {:trigger r[i]} :: 0 <= i < n ==> r[i] == BLANK
  {
    seq(n, _ => BLANK)
  }

  /** Index slots that all name vertex `base`. */
  function Slots(base: nat, n: nat): (r: seq<nat>)
    ensures |r| == n && forall i {:trigger r[i]} :: 0 <= i < n ==> r[i] == base
  {
    seq(n, _ => base)
  }

  /** Indices counted from vertex `base` instead of 0. */
  function Rebased(idx: seq<nat>, base: nat): (r: seq<nat>)
    ensures |r| == |idx|
    ensures forall k {:trigger r[k]} :: 0 <= k < |r| ==> r[k] == idx[k] + base
  {
    seq(|idx|, k requires 0 <= k < |idx| => idx[k] + base)
  }

  /** What `queue` does to each vertex. */
  function Moved(tf: Mat4, tint: Option<Vec4>, v: Vertex): Vertex {
    if tint.Some? then TransformTinted(tf, tint.value, v) else Transform(tf, v)
  }

  function MovedAll(tf: Mat4, tint: Option<Vec4>, vs: seq<Vertex>): (r: seq<Vertex>)
    ensures |r| == |vs|
    ensures forall i {:trigger r[i]} :: 0 <= i < |r| ==> r[i] == Moved(tf, tint, vs[i])
  {
    seq(|vs|, i requires 0 <= i < |vs| => Moved(tf, tint, vs[i]))
  }

  /** The geometry a stream shows: its vertices in index order. */
  ghost function Resolved(vs: seq<Vertex>, idx: seq<nat>): (r: seq<Vertex>)
    requires forall k {:trigger idx[k]} :: 0 <= k < |idx| ==> idx[k] < |vs|
    ensures |r| == |idx|
  {
    seq(|idx|, k requires 0 <= k < |idx| => vs[idx[k]])
  }

  /** Closer than a thousandth: the squared distance is compared, which spares the root. */
  predicate Near(a: Point, b: Point) {
    var d := Minus(a, b);
    d.x * d.x + d.y * d.y < 0.000001
  }

  /** A sub-path without its last point when that closes the path. */
  function Outline(points: seq<Point>): seq<Point> {
    if |points| >= 2 && Near(points[0], points[|points| - 1]) then points[..|points| - 1] else points
  }

  class CommandBuffer {
    var vertices: seq<Vertex>
    var triangles: seq<nat>
    var lines: seq<nat>
    var epoch: nat

    function Indices(top: Topology): seq<nat>
      reads this
    {
      if top.Line? then lines else triangles
    }

    /** Whole primitives, and no dangling index. */
    ghost predicate Valid()
      reads this
    {
      WellFormed(triangles, |vertices|, Triangle) && WellFormed(lines, |vertices|, Line)
    }

    constructor ()
      ensures Valid() && vertices == [] && triangles == [] && lines == [] && epoch == 1
    {
      vertices, triangles, lines, epoch := [], [], [], 1;
    }

    /** Appends blank vertices, and index slots that all name the first of them. */
    method Allocate(vtx: nat, idx: nat, top: Topology)
      modifies this
      ensures vertices == old(vertices) + Blanks(vtx)
      ensures Indices(top) == old(Indices(top)) + Slots(|old(vertices)|, idx)
      ensures top.Line? ==> triangles == old(triangles)
      ensures top.Triangle? ==> lines == old(lines)
      ensures epoch == old(epoch) + 1
    {
      epoch := epoch + 1;
      var base := |vertices|;
      vertices := vertices + Blanks(vtx);
      if top.Line? {
        lines := lines + Slots(base, idx);
      } else {
        triangles := triangles + Slots(base, idx);
      }
    }

    /** Writes through the pointers `allocate` returned: the last vertices and index slots. */
    method Fill(vs: seq<Vertex>, slots: seq<nat>, top: Topology)
      requires |vs| <= |vertices| && |slots| <= |Indices(top)|
      modifies this
      ensures vertices == old(vertices)[..|old(vertices)| - |vs|] + vs
      ensures Indices(top) == old(Indices(top))[..|old(Indices(top))| - |slots|] + slots
      ensures top.Line? ==> triangles == old(triangles)
      ensures top.Triangle? ==> lines == old(lines)
      ensures epoch == old(epoch)
    {
      vertices := vertices[..|vertices| - |vs|] + vs;
      if top.Line? {
        lines := lines[..|lines| - |slots|] + slots;
      } else {
        triangles := triangles[..|triangles| - |slots|] + slots;
      }
    }

    // ----- Emitters -----

    /** What every emitter does: its vertices, and its pattern counted from the first of them. */
    ghost predicate Appended(vs0: seq<Vertex>, tris0: seq<nat>, lines0: seq<nat>, vs: seq<Vertex>,
                             pattern: seq<nat>, top: Topology)
      reads this
    {
      && vertices == vs0 + vs
      && triangles == tris0 + (if top.Triangle? then Rebased(pattern, |vs0|) else [])
      && lines == lines0 + (if top.Line? then Rebased(pattern, |vs0|) else [])
    }

    /** Strip of the given vertices: `write_strip`, and `allocate_strip` with the vertices it returns. */
    method WriteStrip(vs: seq<Vertex>, top: Topology)
      requires Valid()
      modifies this
      ensures Valid() && epoch == old(epoch) + 1
      ensures Appended(old(vertices), old(triangles), old(lines), vs,
                       Strip(if |vs| < Arity(top) then 0 else |vs| - (Arity(top) - 1), top), top)
    {
      var windows := if |vs| < Arity(top) then 0 else |vs| - (Arity(top) - 1);
      Allocate(|vs|, windows * Arity(top), top);
      var slots := FillStrip(Slots(|vertices| - |vs|, windows * Arity(top)), windows, top);
      Fill(vs, slots, top);
      SlotsAreRebased(slots, Strip(windows, top), |old(vertices)|);
      AppendKeeps(old(vertices), old(triangles), old(lines), vs, Strip(windows, top), top);
    }

    /** List of the given vertices: `write_list`, and `allocate_list`; left-over vertices stay unindexed. */
    method WriteList(vs: seq<Vertex>, top: Topology)
      requires Valid()
      modifies this
      ensures Valid() && epoch == old(epoch) + 1
      ensures Appended(old(vertices), old(triangles), old(lines), vs,
                       Listed(|vs| / Arity(top) * Arity(top)), top)
    {
      var n := |vs| / Arity(top) * Arity(top);
      Allocate(|vs|, n, top);
      var slots := FillList(Slots(|vertices| - |vs|, n));
      Fill(vs, slots, top);
      SlotsAreRebased(slots, Listed(n), |old(vertices)|);
      ListedIsWhole(|vs|, top);
      AppendKeeps(old(vertices), old(triangles), old(lines), vs, Listed(n), top);
    }

    /** `fill_ellipse`: a centre and `n` rim points make `n - 1` triangles. */
    method FillEllipse(centre: Vertex, rim: seq<Vertex>)
      requires Valid()
      modifies this
      ensures Valid()
      ensures |rim| <= 1 ==> vertices == old(vertices) && triangles == old(triangles) && lines == old(lines)
      ensures |rim| > 1 ==>
        Appended(old(vertices), old(triangles), old(lines), [centre] + rim, Fan(|rim| - 1), Triangle)
    {
      if |rim| <= 1 {
        return;
      }
      EmitFan([centre] + rim, |rim| - 1);
    }

    /** `fill_quad_rounded`: a fan over the 64 outline points. */
    method FillQuadRounded(outline: seq<Vertex>)
      requires Valid() && |outline| == 64
      modifies this
      ensures Valid()
      ensures Appended(old(vertices), old(triangles), old(lines), outline, Fan(62), Triangle)
    {
      EmitFan(outline, 62);
    }

    method EmitFan(vs: seq<Vertex>, n: nat)
      requires Valid() && |vs| == n + 2
      modifies this
      ensures Valid() && Appended(old(vertices), old(triangles), old(lines), vs, Fan(n), Triangle)
    {
      Allocate(|vs|, 3 * n, Triangle);
      var slots := FillFan(Slots(|vertices| - |vs|, 3 * n), n);
      Fill(vs, slots, Triangle);
      SlotsAreRebased(slots, Fan(n), |old(vertices)|);
      AppendKeeps(old(vertices), old(triangles), old(lines), vs, Fan(n), Triangle);
    }

    /** `fill_sphere`: `ny` rows of `nx` points make a grid of quads. */
    method FillSphere(vs: seq<Vertex>, nx: nat, ny: nat)
      requires Valid() && |vs| == RowStart(ny, nx)
      modifies this
      ensures Valid()
      ensures nx <= 1 || ny <= 1 ==>
        vertices == old(vertices) && triangles == old(triangles) && lines == old(lines)
      ensures nx > 1 && ny > 1 ==>
        Appended(old(vertices), old(triangles), old(lines), vs, Grid(nx, ny - 1), Triangle)
    {
      if nx <= 1 || ny <= 1 {
        return;
      }
      ghost var pattern := Grid(nx, ny - 1);
      var n := RowStart(ny - 1, 6 * (nx - 1));
      Allocate(|vs|, n, Triangle);
      var slots := FillGrid(Slots(|vertices| - |vs|, n), nx, ny);
      Fill(vs, slots, Triangle);
      SlotsAreRebased(slots, pattern, |old(vertices)|);
      GridBounded(nx, ny - 1, |vs|);
      AppendKeeps(old(vertices), old(triangles), old(lines), vs, pattern, Triangle);
    }

    /**
      * One sub-path of `fill_path`, with a vertex for every point: nothing, or the outline's vertices with
      * its triangulation. The ghost results are the triangulation and the corners it left unclipped.
      */
    method FillSubpath(points: seq<Point>, vs: seq<Vertex>)
      returns (ghost local: seq<nat>, ghost ring: seq<nat>)
      requires Valid() && |vs| == |points|
      modifies this
      ensures Valid() && local == Triangulation(Outline(points))
      ensures |Outline(points)| >= 3 ==> Triangulates(Outline(points), local, ring)
      ensures |Outline(points)| < 3 || local == [] ==>
        vertices == old(vertices) && triangles == old(triangles) && lines == old(lines)
      ensures |Outline(points)| >= 3 && local != [] ==>
        Appended(old(vertices), old(triangles), old(lines), vs[..|Outline(points)|], local, Triangle)
      ensures |Outline(points)| >= 3 && StronglyConvex(Outline(points)) ==> |local| == 3 * (|Outline(points)| - 2)
    {
      local, ring := [], [];
      var outline := points;
      if |outline| >= 2 && Near(outline[0], outline[|outline| - 1]) {
        outline := outline[..|outline| - 1];
      }
      if |outline| >= 3 {
        local, ring := FillOutline(outline, vs[..|outline|]);
      }
    }

    method FillOutline(outline: seq<Point>, vs: seq<Vertex>)
      returns (ghost local: seq<nat>, ghost ring: seq<nat>)
      requires Valid() && |vs| == |outline| >= 3
      modifies this
      ensures Valid() && local == Triangulation(outline) && Triangulates(outline, local, ring)
      ensures local == [] ==>
        vertices == old(vertices) && triangles == old(triangles) && lines == old(lines)
      ensures local != [] ==> Appended(old(vertices), old(triangles), old(lines), vs, local, Triangle)
      ensures StronglyConvex(outline) ==> |local| == 3 * (|outline| - 2)
    {
      var indices;
      indices, ring := TriangulateSimple(outline);
      local := indices;
      if indices == [] {
        return;
      }
      TriplesAreWhole(indices, |outline|);
      EmitTriangles(vs, indices);
    }

    method EmitTriangles(vs: seq<Vertex>, local: seq<nat>)
      requires Valid() && WellFormed(local, |vs|, Triangle)
      modifies this
      ensures Valid() && Appended(old(vertices), old(triangles), old(lines), vs, local, Triangle)
    {
      Allocate(|vs|, |local|, Triangle);
      var slots := AddLoop(Slots(|vertices| - |vs|, |local|), local);
      Fill(vs, slots, Triangle);
      SlotsAreRebased(slots, local, |old(vertices)|);
      AppendKeeps(old(vertices), old(triangles), old(lines), vs, local, Triangle);
    }

    // ----- Whole-buffer operations -----

    method TransformAll(tf: Mat4, tint: Option<Vec4>)
      requires Valid()
      modifies `vertices, `epoch
      ensures Valid() && vertices == MovedAll(tf, tint, old(vertices)) && epoch == old(epoch) + 1
    {
      epoch := epoch + 1;
      var i := 0;
      ghost var was := vertices;
      while i < |vertices|
        invariant 0 <= i <= |vertices| == |was|
        invariant epoch == old(epoch) + 1
        invariant forall k {:trigger vertices[k]} :: 0 <= k < i ==> vertices[k] == Moved(tf, tint, was[k])
        invariant forall k {:trigger vertices[k]} :: i <= k < |was| ==> vertices[k] == was[k]
      {
        vertices := vertices[i := Moved(tf, tint, vertices[i])];
        i := i + 1;
      }
    }

    method Clear()
      modifies this
      ensures Valid() && vertices == [] && triangles == [] && lines == [] && epoch == old(epoch) + 1
    {
      vertices, triangles, lines := [], [], [];
      epoch := epoch + 1;
    }

    method Clone() returns (out: CommandBuffer)
      requires Valid()
      ensures fresh(out) && out.Valid()
      ensures out.vertices == vertices && out.triangles == triangles && out.lines == lines
      ensures out.epoch == epoch
    {
      out := new CommandBuffer();
      out.vertices := vertices;
      out.triangles := triangles;
      out.lines := lines;
      out.epoch := epoch;
    }

    // ----- Queueing -----

    /**
      * Appends another buffer's vertices, moved, and its index streams, rebased. The stream that is
      * allocated with the vertices is the first non-empty one.
      */
    method Queue(src: CommandBuffer, tf: Mat4, tint: Option<Vec4>)
      requires src != this && Valid() && src.Valid()
      modifies this
      ensures Valid()
      ensures vertices == old(vertices) + MovedAll(tf, tint, src.vertices)
      ensures triangles == old(triangles) + Rebased(src.triangles, |old(vertices)|)
      ensures lines == old(lines) + Rebased(src.lines, |old(vertices)|)
    {
      var first := if src.triangles == [] && src.lines != [] then Line else Triangle;
      var base := |vertices|;
      ghost var vs0, tris0, lines0 := vertices, triangles, lines;
      Allocate(|src.vertices|, |src.Indices(first)|, first);
      var moved := MoveVertices(src.vertices, tf, tint);
      var slots := CopyIndices(src.Indices(first), base);
      Fill(moved, slots, first);
      if first.Triangle? && src.lines != [] {
        AppendLines(src.lines, base);
      }
      QueueKeeps(vs0, tris0, lines0, MovedAll(tf, tint, src.vertices), src.triangles, src.lines);
    }

    /** A further stream, over vertices that are there already. */
    method AppendLines(idx: seq<nat>, base: nat)
      modifies this
      ensures vertices == old(vertices) && triangles == old(triangles)
      ensures lines == old(lines) + Rebased(idx, base)
    {
      Allocate(0, |idx|, Line);
      var more := CopyIndices(idx, base);
      Fill([], more, Line);
    }
  }

  /** The three vertex paths of `queue`: a plain copy, a move, a tinted move. */
  method MoveVertices(vs: seq<Vertex>, tf: Mat4, tint: Option<Vec4>) returns (out: seq<Vertex>)
    ensures out == MovedAll(tf, tint, vs)
  {
    if tint == None && tf == IDENTITY {
      IdentityMoves(vs);
      return vs;
    }
    out := MoveLoop(vs, tf, tint);
  }

  /** The vertex loops of `queue`. */
  method MoveLoop(vs: seq<Vertex>, tf: Mat4, tint: Option<Vec4>) returns (out: seq<Vertex>)
    ensures out == MovedAll(tf, tint, vs)
  {
    out := [];
    var i := 0;
    while i < |vs|
      invariant 0 <= i <= |vs| && |out| == i
      invariant forall k {:trigger out[k]} :: 0 <= k < i ==> out[k] == Moved(tf, tint, vs[k])
    {
      out := out + [Moved(tf, tint, vs[i])];
      i := i + 1;
    }
  }

  /** `copy_indices`: a plain copy onto an empty buffer, else a shift. */
  method CopyIndices(idx: seq<nat>, base: nat) returns (out: seq<nat>)
    ensures out == Rebased(idx, base)
  {
    if base == 0 {
      return idx;
    }
    out := [];
    var i := 0;
    while i < |idx|
      invariant 0 <= i <= |idx| && |out| == i
      invariant forall k {:trigger out[k]} :: 0 <= k < i ==> out[k] == idx[k] + base
    {
      out := out + [idx[i] + base];
      i := i + 1;
    }
  }

  /** `id[i] += local[i]`. */
  method AddLoop(dst: seq<nat>, local: seq<nat>) returns (out: seq<nat>)
    requires |dst| == |local|
    ensures out == AddOnto(dst, local)
  {
    out := dst;
    var i := 0;
    while i < |local|
      invariant 0 <= i <= |local| && Written(dst, out, local[..i])
    {
      out := out[i := out[i] + local[i]];
      i := i + 1;
    }
  }

  lemma {:induction false} SlotsAreRebased(slots: seq<nat>, pattern: seq<nat>, base: nat)
    requires slots == AddOnto(Slots(base, |pattern|), pattern)
    ensures slots == Rebased(pattern, base)
  {
  }

  lemma {:induction false} ListedIsWhole(n: nat, top: Topology)
    ensures WellFormed(Listed(n / Arity(top) * Arity(top)), n, top)
  {
  }

  /** The fast path of `queue`: no tint and the identity matrix leave every vertex as it is. */
  lemma {:induction false} IdentityMoves(vs: seq<Vertex>)
    ensures MovedAll(IDENTITY, None, vs) == vs
  {
    forall i | 0 <= i < |vs|
      ensures Moved(IDENTITY, None, vs[i]) == vs[i]
    {
      IdentityTransform(vs[i]);
    }
  }

  lemma {:induction false} TriplesAreWhole(idx: seq<nat>, n: nat)
    requires Triples(idx, n)
    ensures WellFormed(idx, n, Triangle)
  {
  }

  lemma {:induction false} WholeSum(a: nat, b: nat, top: Topology)
    requires a % Arity(top) == 0 && b % Arity(top) == 0
    ensures (a + b) % Arity(top) == 0
  {
    match top
    case Line =>
    case Triangle =>
  }

  lemma {:induction false} AppendedBelow(idx0: seq<nat>, n0: nat, idx: seq<nat>, n: nat, k: nat)
    requires forall j {:trigger idx0[j]} :: 0 <= j < |idx0| ==> idx0[j] < n0
    requires forall j {:trigger idx[j]} :: 0 <= j < |idx| ==> idx[j] < n
    requires k < |idx0| + |idx|
    ensures (idx0 + Rebased(idx, n0))[k] < n0 + n
  {
    if k >= |idx0| {
      assert Rebased(idx, n0)[k - |idx0|] == idx[k - |idx0|] + n0;
    }
  }

  /** Streams stay well formed when more vertices and a rebased well-formed stream are appended. */
  lemma {:induction false} AppendStream(idx0: seq<nat>, n0: nat, pattern: seq<nat>, n: nat,
                                        top: Topology)
    requires WellFormed(idx0, n0, top) && WellFormed(pattern, n, top)
    ensures WellFormed(idx0 + Rebased(pattern, n0), n0 + n, top)
  {
    var all := idx0 + Rebased(pattern, n0);
    WholeSum(|idx0|, |pattern|, top);
    forall k | 0 <= k < |all|
      ensures all[k] < n0 + n
    {
      AppendedBelow(idx0, n0, pattern, n, k);
    }
  }

  lemma {:induction false} AppendKeeps(vs0: seq<Vertex>, tris0: seq<nat>, lines0: seq<nat>,
                                       vs: seq<Vertex>, pattern: seq<nat>, top: Topology)
    requires WellFormed(tris0, |vs0|, Triangle) && WellFormed(lines0, |vs0|, Line)
    requires WellFormed(pattern, |vs|, top)
    ensures WellFormed(tris0 + (if top.Triangle? then Rebased(pattern, |vs0|) else []), |vs0 + vs|, Triangle)
    ensures WellFormed(lines0 + (if top.Line? then Rebased(pattern, |vs0|) else []), |vs0 + vs|, Line)
  {
    AppendStream(tris0, |vs0|, if top.Triangle? then pattern else [], |vs|, Triangle);
    AppendStream(lines0, |vs0|, if top.Line? then pattern else [], |vs|, Line);
  }

  lemma {:induction false} QueueKeeps(vs0: seq<Vertex>, tris0: seq<nat>, lines0: seq<nat>,
                                      vs: seq<Vertex>, tris: seq<nat>, lines: seq<nat>)
    requires WellFormed(tris0, |vs0|, Triangle) && WellFormed(lines0, |vs0|, Line)
    requires WellFormed(tris, |vs|, Triangle) && WellFormed(lines, |vs|, Line)
    ensures WellFormed(tris0 + Rebased(tris, |vs0|), |vs0 + vs|, Triangle)
    ensures WellFormed(lines0 + Rebased(lines, |vs0|), |vs0 + vs|, Line)
  {
    AppendStream(tris0, |vs0|, tris, |vs|, Triangle);
    AppendStream(lines0, |vs0|, lines, |vs|, Line);
  }

  // ----- What queueing shows -----

  /**
    * A stream after queueing shows what it showed before, followed by what the source's stream shows,
    * each vertex moved.
    */
  lemma {:induction false} QueueShows(vs0: seq<Vertex>, idx0: seq<nat>, vs: seq<Vertex>, idx: seq<nat>,
                                      tf: Mat4, tint: Option<Vec4>)
    requires forall k {:trigger idx0[k]} :: 0 <= k < |idx0| ==> idx0[k] < |vs0|
    requires forall k {:trigger idx[k]} :: 0 <= k < |idx| ==> idx[k] < |vs|
    ensures var all := idx0 + Rebased(idx, |vs0|);
            && (forall k {:trigger all[k]} :: 0 <= k < |all| ==> all[k] < |vs0| + |vs|)
            && Resolved(vs0 + MovedAll(tf, tint, vs), all)
            == Resolved(vs0, idx0) + MovedAll(tf, tint, Resolved(vs, idx))
  {
    var all := idx0 + Rebased(idx, |vs0|);
    var moved := MovedAll(tf, tint, vs);
    forall k | 0 <= k < |all|
      ensures all[k] < |vs0| + |vs|
      ensures (vs0 + moved)[all[k]]
           == (Resolved(vs0, idx0) + MovedAll(tf, tint, Resolved(vs, idx)))[k]
    {
      if k >= |idx0| {
        assert all[k] == Rebased(idx, |vs0|)[k - |idx0|] == idx[k - |idx0|] + |vs0|;
        assert MovedAll(tf, tint, Resolved(vs, idx))[k - |idx0|] == Moved(tf, tint, vs[idx[k - |idx0|]]);
      }
    }
  }

  /** Moving vertices through two matrices in turn is moving them once through the product. */
  lemma {:induction false} MovedTwice(vs: seq<Vertex>, a: Mat4, b: Mat4)
    requires Affine(a) || Untranslating(b)
    ensures MovedAll(b, None, MovedAll(a, None, vs)) == MovedAll(Product(b, a), None, vs)
  {
    forall i | 0 <= i < |vs|
      ensures MovedAll(b, None, MovedAll(a, None, vs))[i] == MovedAll(Product(b, a), None, vs)[i]
    {
      Composes(b, a, vs[i]);
    }
  }

  /** A stream rebased onto an empty buffer and then onto `n` vertices is rebased once. */
  lemma {:induction false} RebasedTwice(idx: seq<nat>, m: nat, n: nat)
    ensures Rebased(Rebased(idx, m), n) == Rebased(idx, m + n)
  {
  }

  /**
    * Untinted queueing through two matrices in turn, by way of a fresh buffer, is queueing once with
    * their product: the contract is that of `dst.Queue(src, Product(b, a), None)`.
    */
  method QueueThrough(dst: CommandBuffer, src: CommandBuffer, a: Mat4, b: Mat4)
    requires src != dst && dst.Valid() && src.Valid() && (Affine(a) || Untranslating(b))
    modifies dst
    ensures dst.Valid()
    ensures dst.vertices == old(dst.vertices) + MovedAll(Product(b, a), None, src.vertices)
    ensures dst.triangles == old(dst.triangles) + Rebased(src.triangles, |old(dst.vertices)|)
    ensures dst.lines == old(dst.lines) + Rebased(src.lines, |old(dst.vertices)|)
  {
    ghost var n := |dst.vertices|;
    MovedTwice(src.vertices, a, b);
    RebasedTwice(src.triangles, 0, n);
    RebasedTwice(src.lines, 0, n);
    var between := Moving(src, a);
    dst.Queue(between, b, None);
  }

  /** A fresh buffer with one buffer queued into it. */
  method Moving(src: CommandBuffer, tf: Mat4) returns (out: CommandBuffer)
    requires src.Valid()
    ensures fresh(out) && out.Valid() && out.vertices == MovedAll(tf, None, src.vertices)
    ensures out.triangles == Rebased(src.triangles, 0) && out.lines == Rebased(src.lines, 0)
  {
    out := new CommandBuffer();
    out.Queue(src, tf, None);
    FromEmpty(out.vertices, MovedAll(tf, None, src.vertices));
    FromEmpty(out.triangles, Rebased(src.triangles, 0));
    FromEmpty(out.lines, Rebased(src.lines, 0));
  }

  lemma {:induction false} FromEmpty<T>(s: seq<T>, t: seq<T>)
    requires s == [] + t
    ensures s == t
  {
  }
}
