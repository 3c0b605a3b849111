/**
  * Index patterns: strips, lists, fans and grids of vertices, counted from 0, and the loops that add
  * them onto freshly allocated index slots.
  */
module Patterns {
  import opened Pixels

  datatype Topology = Triangle | Line

  /** Indices per primitive. */
  function Arity(top: Topology): nat {
    if top.Line? then 2 else 3
  }

  /** Whole primitives over `n` vertices. */
  ghost predicate WellFormed(idx: seq<nat>, n: nat, top: Topology) {
    && |idx| % Arity(top) == 0
    && forall k {:trigger idx[k]} :: 0 <= k < |idx| ==> idx[k] < n
  }

  function Window(i: nat, top: Topology): (w: seq<nat>)
    ensures |w| == Arity(top)
  {
    if top.Line? then [i, i + 1] else [i, i + 1, i + 2]
  }

  /** The first `k` windows of a strip. */
  function Strip(k: nat, top: Topology): (idx: seq<nat>)
    ensures |idx| == k * Arity(top)
    ensures WellFormed(idx, k + Arity(top) - 1, top)
  {
    if k == 0 then [] else Strip(k - 1, top) + Window(k - 1, top)
  }

  function Listed(n: nat): (idx: seq<nat>)
    ensures |idx| == n && forall k {:trigger idx[k]} :: 0 <= k < n ==> idx[k] == k
  {
    seq(n, i => i)
  }

  /** `k` triangles around vertex 0. */
  function Fan(k: nat): (idx: seq<nat>)
    ensures |idx| == 3 * k
    ensures WellFormed(idx, k + 2, Triangle)
  {
    if k == 0 then [] else Fan(k - 1) + [0, k, k + 1]
  }

  /** The two triangles of the quad whose corner is at row start `a` (next row at `b`), column `x`. */
  function Quad(a: nat, b: nat, x: nat): seq<nat> {
    [x + a, x + b, (x + 1) + b, x + a, (x + 1) + a, (x + 1) + b]
  }

  function QuadRow(a: nat, b: nat, k: nat): (idx: seq<nat>)
    ensures |idx| == 6 * k
  {
    if k == 0 then [] else QuadRow(a, b, k - 1) + Quad(a, b, k - 1)
  }

  /** `rows` rows of quads over rows of `nx` vertices. */
  function Grid(nx: nat, rows: nat): (idx: seq<nat>)
    requires nx > 0
    ensures |idx| == RowStart(rows, 6 * (nx - 1))
  {
    if rows == 0 then []
    else Grid(nx, rows - 1) + QuadRow(RowStart(rows - 1, nx), RowStart(rows, nx), nx - 1)
  }

  lemma {:induction false} QuadRowBounded(a: nat, b: nat, k: nat, n: nat)
    requires a + k < n && b + k < n
    ensures WellFormed(QuadRow(a, b, k), n, Triangle)
  {
    if k > 0 {
      QuadRowBounded(a, b, k - 1, n);
    }
  }

  lemma {:induction false} GridBounded(nx: nat, rows: nat, n: nat)
    requires nx > 0 && RowStart(rows + 1, nx) <= n
    ensures WellFormed(Grid(nx, rows), n, Triangle)
  {
    if rows > 0 {
      GridBounded(nx, rows - 1, n);
      QuadRowBounded(RowStart(rows - 1, nx), RowStart(rows, nx), nx - 1, n);
    }
  }

  // ----- Adding a pattern onto slots -----

  /** Every slot increased by the pattern's entry. */
  function AddOnto(slots: seq<nat>, pattern: seq<nat>): (r: seq<nat>)
    requires |slots| == |pattern|
  {
    seq(|slots|, k requires 0 <= k < |slots| => slots[k] + pattern[k])
  }

  /** The slots of `done` are increased by its entries, the others are untouched. */
  ghost predicate Written(slots: seq<nat>, out: seq<nat>, done: seq<nat>) {
    && |out| == |slots| && |done| <= |slots|
    && (forall k {:trigger out[k]} :: 0 <= k < |done| ==> out[k] == slots[k] + done[k])
    && (forall k {:trigger out[k]} :: |done| <= k < |slots| ==> out[k] == slots[k])
  }

  /** `*dst++ += v`, several times over. */
  method Bump(ghost slots: seq<nat>, dst: seq<nat>, p: nat, vs: seq<nat>, ghost done: seq<nat>)
    returns (out: seq<nat>)
    requires Written(slots, dst, done) && p == |done| && p + |vs| <= |slots|
    ensures Written(slots, out, done + vs)
  {
    out := dst;
    var j := 0;
    while j < |vs|
      invariant 0 <= j <= |vs| && Written(slots, out, done + vs[..j])
    {
      out := out[p + j := out[p + j] + vs[j]];
      j := j + 1;
    }
    assert vs[..|vs|] == vs;
  }

  lemma {:induction false} WrittenAll(slots: seq<nat>, out: seq<nat>, pattern: seq<nat>)
    requires Written(slots, out, pattern) && |pattern| == |slots|
    ensures out == AddOnto(slots, pattern)
  {
  }

  lemma {:induction false} WindowFits(i: nat, k: nat, top: Topology)
    requires i < k
    ensures i * Arity(top) + Arity(top) <= k * Arity(top)
  {
  }

  method FillWindow(ghost slots: seq<nat>, dst: seq<nat>, p: nat, i: nat, windows: nat, top: Topology)
    returns (out: seq<nat>)
    requires i < windows && |slots| == windows * Arity(top)
    requires Written(slots, dst, Strip(i, top)) && p == |Strip(i, top)|
    ensures Written(slots, out, Strip(i + 1, top)) && |Strip(i + 1, top)| == p + Arity(top)
  {
    WindowFits(i, windows, top);
    out := Bump(slots, dst, p, Window(i, top), Strip(i, top));
  }

  /** `fill_indices_strip`: one window after the other. */
  method FillStrip(dst: seq<nat>, windows: nat, top: Topology) returns (out: seq<nat>)
    requires |dst| == windows * Arity(top)
    ensures out == AddOnto(dst, Strip(windows, top))
  {
    out := dst;
    var p := 0;
    var i := 0;
    while i < windows
      invariant 0 <= i <= windows && p == |Strip(i, top)|
      invariant Written(dst, out, Strip(i, top))
    {
      out := FillWindow(dst, out, p, i, windows, top);
      p := p + Arity(top);
      i := i + 1;
    }
    WrittenAll(dst, out, Strip(windows, top));
  }

  /** `fill_indices_list`. */
  method FillList(dst: seq<nat>) returns (out: seq<nat>)
    ensures out == AddOnto(dst, Listed(|dst|))
  {
    out := dst;
    var i := 0;
    while i < |dst|
      invariant 0 <= i <= |dst| && Written(dst, out, Listed(i))
    {
      out := out[i := out[i] + i];
      i := i + 1;
    }
  }

  /** The fan loop of `fill_ellipse` and of the rounded quad. */
  method FillFan(dst: seq<nat>, triangles: nat) returns (out: seq<nat>)
    requires |dst| == 3 * triangles
    ensures out == AddOnto(dst, Fan(triangles))
  {
    out := dst;
    var p := 0;
    var i := 1;
    while i <= triangles
      invariant 1 <= i <= triangles + 1 && p == 3 * (i - 1)
      invariant Written(dst, out, Fan(i - 1))
    {
      out := Bump(dst, out, p, [0, i, i + 1], Fan(i - 1));
      p := p + 3;
      i := i + 1;
    }
    WrittenAll(dst, out, Fan(triangles));
  }

  /** The two nested loops of `fill_sphere`, over `ny` rows of `nx` vertices. */
  method FillGrid(dst: seq<nat>, nx: nat, ny: nat) returns (out: seq<nat>)
    requires nx > 0 && ny > 0 && |dst| == |Grid(nx, ny - 1)|
    ensures out == AddOnto(dst, Grid(nx, ny - 1))
  {
    out := dst;
    var p := 0;
    var y := 0;
    while y + 1 != ny
      invariant 0 <= y < ny && p == |Grid(nx, y)|
      invariant Written(dst, out, Grid(nx, y))
      decreases ny - y
    {
      GridPrefix(nx, y + 1, ny - 1);
      out := FillQuadRow(dst, out, p, RowStart(y, nx), RowStart(y + 1, nx), nx, Grid(nx, y));
      p := p + 6 * (nx - 1);
      y := y + 1;
    }
    WrittenAll(dst, out, Grid(nx, ny - 1));
  }

  lemma {:induction false} QuadNext(done: seq<nat>, a: nat, b: nat, x: nat)
    ensures done + QuadRow(a, b, x) + Quad(a, b, x) == done + QuadRow(a, b, x + 1)
  {
  }

  method FillQuad(ghost slots: seq<nat>, dst: seq<nat>, p: nat, a: nat, b: nat, x: nat,
                  ghost done: seq<nat>) returns (out: seq<nat>)
    requires Written(slots, dst, done + QuadRow(a, b, x)) && p == |done| + 6 * x && p + 6 <= |slots|
    ensures Written(slots, out, done + QuadRow(a, b, x + 1))
  {
    out := Bump(slots, dst, p, Quad(a, b, x), done + QuadRow(a, b, x));
    QuadNext(done, a, b, x);
  }

  method FillQuadRow(ghost slots: seq<nat>, dst: seq<nat>, p: nat, a: nat, b: nat, nx: nat,
                     ghost done: seq<nat>) returns (out: seq<nat>)
    requires nx > 0 && Written(slots, dst, done) && p == |done| && p + 6 * (nx - 1) <= |slots|
    ensures Written(slots, out, done + QuadRow(a, b, nx - 1))
  {
    out := dst;
    var x := 0;
    assert done + QuadRow(a, b, 0) == done;
    while x + 1 != nx
      invariant 0 <= x < nx && Written(slots, out, done + QuadRow(a, b, x))
      decreases nx - x
    {
      out := FillQuad(slots, out, p + 6 * x, a, b, x, done);
      x := x + 1;
    }
  }

  lemma {:induction false} GridPrefix(nx: nat, y: nat, rows: nat)
    requires nx > 0 && 1 <= y <= rows
    ensures |Grid(nx, y - 1)| + 6 * (nx - 1) == |Grid(nx, y)| <= |Grid(nx, rows)|
    decreases rows
  {
    if y < rows {
      GridPrefix(nx, y, rows - 1);
    }
  }
}
