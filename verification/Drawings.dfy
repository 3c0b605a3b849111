/**
  * Drawings: any run of emitters and whole-buffer operations on a command buffer, with buffers queued
  * into buffers to any depth, shows the same triangles and lines as a plain list of vertices would.
  */
module Drawings {
  import opened Options
  import opened Sequences
  import opened Vertices
  import opened Pixels
  import opened Patterns
  import opened Triangulate
  import opened CommandBuffer

  /** What a buffer shows: the corners of its triangles and of its lines, in order. */
  datatype Picture = Picture(triangles: seq<Vertex>, lines: seq<Vertex>)

  const EMPTY := Picture([], [])

  /** One command. `Nested` is a buffer of its own, drawn into and then queued. */
  datatype Drawing =
    | StripOf(vs: seq<Vertex>, top: Topology)
    | ListOf(vs: seq<Vertex>, top: Topology)
    | Ellipse(centre: Vertex, rim: seq<Vertex>)
    | RoundedQuad(outline: seq<Vertex>)
    | Sphere(grid: seq<Vertex>, nx: nat, ny: nat)
    | Subpath(points: seq<Point>, corners: seq<Vertex>)
    | Nested(parts: seq<Drawing>, tf: Mat4, tint: Option<Vec4>)
    | MoveAll(tf: Mat4, tint: Option<Vec4>)
    | Wipe

  /** As many vertices as the emitter computes. */
  ghost predicate Proper(d: Drawing)
    decreases d
  {
    match d
    case RoundedQuad(outline) => |outline| == 64
    case Sphere(grid, nx, ny) => |grid| == RowStart(ny, nx)
    case Subpath(points, corners) => |corners| == |points|
    case Nested(parts, _, _) => forall i {:trigger parts[i]} :: 0 <= i < |parts| ==> Proper(parts[i])
    case _ => true
  }

  ghost predicate AllProper(ds: seq<Drawing>) {
    forall i {:trigger ds[i]} :: 0 <= i < |ds| ==> Proper(ds[i])
  }

  // ----- What one emitter adds -----

  /** Vertices and a pattern over them. */
  datatype Emission = Emission(vs: seq<Vertex>, pattern: seq<nat>, top: Topology)

  const NOTHING := Emission([], [], Triangle)

  ghost predicate Whole(e: Emission) {
    WellFormed(e.pattern, |e.vs|, e.top)
  }

  ghost function EmissionOf(d: Drawing): Emission
    requires Proper(d)
  {
    match d
    case StripOf(vs, top) => Emission(vs, Strip(if |vs| < Arity(top) then 0 else |vs| - (Arity(top) - 1), top), top)
    case ListOf(vs, top) => Emission(vs, Listed(|vs| / Arity(top) * Arity(top)), top)
    case Ellipse(centre, rim) => if |rim| <= 1 then NOTHING else Emission([centre] + rim, Fan(|rim| - 1), Triangle)
    case RoundedQuad(outline) => Emission(outline, Fan(62), Triangle)
    case Sphere(grid, nx, ny) => if nx <= 1 || ny <= 1 then NOTHING else Emission(grid, Grid(nx, ny - 1), Triangle)
    case Subpath(points, corners) =>
      if Triangulation(Outline(points)) == [] then NOTHING
      else Emission(corners[..|Outline(points)|], Triangulation(Outline(points)), Triangle)
    case _ => NOTHING
  }

  lemma {:induction false} EmissionIsWhole(d: Drawing)
    requires Proper(d)
    ensures Whole(EmissionOf(d))
  {
    match d {
      case ListOf(vs, top) => ListedIsWhole(|vs|, top);
      case Sphere(grid, nx, ny) =>
        if nx > 1 && ny > 1 {
          GridBounded(nx, ny - 1, |grid|);
        }
      case Subpath(points, corners) =>
        TriangulationIsWhole(Outline(points));
        TriplesAreWhole(Triangulation(Outline(points)), |Outline(points)|);
      case _ =>
    }
  }

  ghost function Shown(e: Emission): Picture
    requires Whole(e)
  {
    if e.top.Line? then Picture([], Resolved(e.vs, e.pattern)) else Picture(Resolved(e.vs, e.pattern), [])
  }

  // ----- What a drawing shows -----

  function Join(p: Picture, q: Picture): Picture {
    Picture(p.triangles + q.triangles, p.lines + q.lines)
  }

  function MovedPicture(tf: Mat4, tint: Option<Vec4>, p: Picture): Picture {
    Picture(MovedAll(tf, tint, p.triangles), MovedAll(tf, tint, p.lines))
  }

  /** One command on a picture: no index, no vertex base. */
  ghost function DrawOne(p: Picture, d: Drawing): Picture
    requires Proper(d)
    decreases d
  {
    match d
    case Nested(parts, tf, tint) => Join(p, MovedPicture(tf, tint, DrawTo(EMPTY, parts, |parts|)))
    case MoveAll(tf, tint) => MovedPicture(tf, tint, p)
    case Wipe => EMPTY
    case _ =>
      EmissionIsWhole(d);
      Join(p, Shown(EmissionOf(d)))
  }

  /** The first `i` commands. */
  ghost function DrawTo(p: Picture, ds: seq<Drawing>, i: nat): Picture
    requires i <= |ds| && AllProper(ds)
    decreases ds, i
  {
    if i == 0 then p else DrawOne(DrawTo(p, ds, i - 1), ds[i - 1])
  }

  ghost function Draw(p: Picture, ds: seq<Drawing>): Picture
    requires AllProper(ds)
  {
    DrawTo(p, ds, |ds|)
  }

  // ----- What a buffer shows -----

  ghost function PictureOf(b: CommandBuffer): Picture
    requires b.Valid()
    reads b
  {
    Picture(Resolved(b.vertices, b.triangles), Resolved(b.vertices, b.lines))
  }

  /** An emission appended to a buffer: each stream shows what it showed, then what the emission shows. */
  lemma {:induction false} StreamShows(vs0: seq<Vertex>, idx0: seq<nat>, vs: seq<Vertex>, idx: seq<nat>)
    requires forall k {:trigger idx0[k]} :: 0 <= k < |idx0| ==> idx0[k] < |vs0|
    requires forall k {:trigger idx[k]} :: 0 <= k < |idx| ==> idx[k] < |vs|
    ensures var all := idx0 + Rebased(idx, |vs0|);
            && (forall k {:trigger all[k]} :: 0 <= k < |all| ==> all[k] < |vs0 + vs|)
            && Resolved(vs0 + vs, all) == Resolved(vs0, idx0) + Resolved(vs, idx)
  {
    IdentityMoves(vs);
    IdentityMoves(Resolved(vs, idx));
    QueueShows(vs0, idx0, vs, idx, IDENTITY, None);
  }

  lemma {:induction false} SameStreamShows(vs0: seq<Vertex>, idx0: seq<nat>, vs: seq<Vertex>)
    requires forall k {:trigger idx0[k]} :: 0 <= k < |idx0| ==> idx0[k] < |vs0|
    ensures forall k {:trigger idx0[k]} :: 0 <= k < |idx0| ==> idx0[k] < |vs0 + vs|
    ensures Resolved(vs0 + vs, idx0) == Resolved(vs0, idx0)
  {
    assert forall k {:trigger idx0[k]} :: 0 <= k < |idx0| ==> (vs0 + vs)[idx0[k]] == vs0[idx0[k]];
  }

  lemma {:induction false} StreamMoves(vs: seq<Vertex>, idx: seq<nat>, tf: Mat4, tint: Option<Vec4>)
    requires forall k {:trigger idx[k]} :: 0 <= k < |idx| ==> idx[k] < |vs|
    ensures Resolved(MovedAll(tf, tint, vs), idx) == MovedAll(tf, tint, Resolved(vs, idx))
  {
  }

  /** A buffer that an emission was appended to. */
  lemma {:induction false} AppendedShows(b: CommandBuffer, vs: seq<Vertex>, tris: seq<nat>, lines: seq<nat>,
                                         e: Emission)
    requires WellFormed(tris, |vs|, Triangle) && WellFormed(lines, |vs|, Line) && Whole(e)
    requires b.Valid() && b.Appended(vs, tris, lines, e.vs, e.pattern, e.top)
    ensures PictureOf(b) == Join(Picture(Resolved(vs, tris), Resolved(vs, lines)), Shown(e))
  {
    if e.top.Line? {
      StreamShows(vs, lines, e.vs, e.pattern);
      SameStreamShows(vs, tris, e.vs);
      assert tris + [] == tris;
    } else {
      StreamShows(vs, tris, e.vs, e.pattern);
      SameStreamShows(vs, lines, e.vs);
      assert lines + [] == lines;
    }
  }

  // ----- Playing -----

  method Play(b: CommandBuffer, ds: seq<Drawing>)
    requires b.Valid() && AllProper(ds)
    modifies b
    ensures b.Valid() && PictureOf(b) == Draw(old(PictureOf(b)), ds)
    decreases ds, 1
  {
    var i := 0;
    while i < |ds|
      invariant 0 <= i <= |ds| && b.Valid() && PictureOf(b) == DrawTo(old(PictureOf(b)), ds, i)
    {
      PlayOne(b, ds[i]);
      i := i + 1;
    }
  }

  method PlayOne(b: CommandBuffer, d: Drawing)
    requires b.Valid() && Proper(d)
    modifies b
    ensures b.Valid() && PictureOf(b) == DrawOne(old(PictureOf(b)), d)
    decreases d
  {
    match d {
      case Nested(parts, tf, tint) =>
        var src := new CommandBuffer();
        Play(src, parts);
        QueueInto(b, src, tf, tint);
      case MoveAll(tf, tint) =>
        StreamMoves(b.vertices, b.triangles, tf, tint);
        StreamMoves(b.vertices, b.lines, tf, tint);
        b.TransformAll(tf, tint);
      case Wipe =>
        b.Clear();
      case _ =>
        Emit(b, d);
    }
  }

  method QueueInto(b: CommandBuffer, src: CommandBuffer, tf: Mat4, tint: Option<Vec4>)
    requires b != src && b.Valid() && src.Valid()
    modifies b
    ensures b.Valid() && PictureOf(b) == Join(old(PictureOf(b)), MovedPicture(tf, tint, PictureOf(src)))
  {
    QueueShows(b.vertices, b.triangles, src.vertices, src.triangles, tf, tint);
    QueueShows(b.vertices, b.lines, src.vertices, src.lines, tf, tint);
    b.Queue(src, tf, tint);
  }

  predicate Emits(d: Drawing) {
    !d.Nested? && !d.MoveAll? && !d.Wipe?
  }

  method Emit(b: CommandBuffer, d: Drawing)
    requires b.Valid() && Proper(d) && Emits(d)
    modifies b
    ensures b.Valid() && PictureOf(b) == DrawOne(old(PictureOf(b)), d)
  {
    ghost var vs, tris, lines := b.vertices, b.triangles, b.lines;
    EmissionIsWhole(d);
    EmitAppends(b, d);
    AppendedShows(b, vs, tris, lines, EmissionOf(d));
  }

  /** Every emitter appends its emission; an empty one leaves the buffer as it is. */
  method EmitAppends(b: CommandBuffer, d: Drawing)
    requires b.Valid() && Proper(d) && Emits(d)
    modifies b
    ensures b.Valid()
    ensures var e := EmissionOf(d);
            b.Appended(old(b.vertices), old(b.triangles), old(b.lines), e.vs, e.pattern, e.top)
  {
    if d.StripOf? {
      b.WriteStrip(d.vs, d.top);
    } else if d.ListOf? {
      b.WriteList(d.vs, d.top);
    } else {
      ShapeAppends(b, d);
    }
  }

  method ShapeAppends(b: CommandBuffer, d: Drawing)
    requires b.Valid() && Proper(d) && Emits(d) && !d.StripOf? && !d.ListOf?
    modifies b
    ensures b.Valid()
    ensures var e := EmissionOf(d);
            b.Appended(old(b.vertices), old(b.triangles), old(b.lines), e.vs, e.pattern, e.top)
  {
    NothingAppended(b);
    match d {
      case Ellipse(centre, rim) => b.FillEllipse(centre, rim);
      case RoundedQuad(outline) => b.FillQuadRounded(outline);
      case Sphere(grid, nx, ny) => b.FillSphere(grid, nx, ny);
      case Subpath(points, corners) => ghost var local, ring := b.FillSubpath(points, corners);
    }
  }

  lemma {:induction false} NothingAppended(b: CommandBuffer)
    ensures b.Appended(b.vertices, b.triangles, b.lines, [], [], Triangle)
  {
    assert b.vertices + [] == b.vertices && b.triangles + Rebased([], |b.vertices|) == b.triangles;
    assert b.lines + [] == b.lines;
  }

  // ----- Laws of drawings -----

  lemma {:induction false} JoinAssociates(p: Picture, q: Picture, r: Picture)
    ensures Join(Join(p, q), r) == Join(p, Join(q, r))
    ensures Join(EMPTY, p) == p == Join(p, EMPTY)
  {
    Assoc(p.triangles, q.triangles, r.triangles);
    Assoc(p.lines, q.lines, r.lines);
    assert [] + p.triangles == p.triangles == p.triangles + [] && [] + p.lines == p.lines == p.lines + [];
  }

  /** Without a whole-buffer operation, a drawing is added to what was there, whatever that was. */
  lemma {:induction false} DrawingIsAdded(p: Picture, ds: seq<Drawing>, i: nat)
    requires i <= |ds| && AllProper(ds)
    requires forall j {:trigger ds[j]} :: 0 <= j < |ds| ==> !ds[j].MoveAll? && !ds[j].Wipe?
    ensures DrawTo(p, ds, i) == Join(p, DrawTo(EMPTY, ds, i))
  {
    if i == 0 {
      JoinAssociates(p, EMPTY, EMPTY);
    } else {
      DrawingIsAdded(p, ds, i - 1);
      var was := DrawTo(EMPTY, ds, i - 1);
      var more := OneIsAdded(ds[i - 1], Join(p, was), was);
      JoinAssociates(p, was, more);
    }
  }

  lemma {:induction false} OneIsAdded(d: Drawing, p: Picture, q: Picture) returns (more: Picture)
    requires Proper(d) && !d.MoveAll? && !d.Wipe?
    ensures DrawOne(p, d) == Join(p, more) && DrawOne(q, d) == Join(q, more)
  {
    if d.Nested? {
      more := MovedPicture(d.tf, d.tint, Draw(EMPTY, d.parts));
    } else {
      EmissionIsWhole(d);
      more := Shown(EmissionOf(d));
    }
  }

  /** Moving everything that was drawn is drawing it into a buffer of its own and queueing that. */
  lemma {:induction false} MovingIsNesting(ds: seq<Drawing>, tf: Mat4, tint: Option<Vec4>)
    requires AllProper(ds)
    ensures DrawOne(Draw(EMPTY, ds), MoveAll(tf, tint)) == DrawOne(EMPTY, Nested(ds, tf, tint))
  {
    JoinAssociates(MovedPicture(tf, tint, Draw(EMPTY, ds)), EMPTY, EMPTY);
  }

  /** Untinted buffers nested through two matrices show what one shows through their product. */
  lemma {:induction false} NestingComposes(p: Picture, ds: seq<Drawing>, a: Mat4, b: Mat4)
    requires AllProper(ds) && (Affine(a) || Untranslating(b))
    ensures DrawOne(p, Nested([Nested(ds, a, None)], b, None)) == DrawOne(p, Nested(ds, Product(b, a), None))
  {
    var inner, all := [Nested(ds, a, None)], Draw(EMPTY, ds);
    JoinAssociates(MovedPicture(a, None, all), EMPTY, EMPTY);
    assert DrawTo(EMPTY, inner, 0) == EMPTY && inner[0] == Nested(ds, a, None);
    assert DrawTo(EMPTY, inner, 1) == DrawOne(EMPTY, inner[0]) == MovedPicture(a, None, all);
    MovedTwice(all.triangles, a, b);
    MovedTwice(all.lines, a, b);
  }
}
