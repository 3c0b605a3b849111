/**
  * The content stream of a page: what is written for the buffer's triangles and lines, and an
  * interpreter for the few operators used, which reads the same shapes back.
  */
module PageContent {
  import opened Decimals
  import opened Vertices
  import opened Words

  /** What a page shows: no buffer, or a buffer's vertices and its two index streams. */
  datatype View = NoView | View(vertices: seq<Vertex>, triangles: seq<nat>, lines: seq<nat>)

  datatype Page = Page(width: nat, height: nat, view: View)

  datatype Fault = NoFault | BadTriangle | TexturedTriangle | BadLine | TexturedLine

  function FaultText(f: Fault, page: nat): string {
    match f
    case NoFault => ""
    case BadTriangle => "malformed primitive index: triangle on page " + Digits(page)
    case TexturedTriangle => "unsupported primitive: textured triangle on page " + Digits(page)
    case BadLine => "malformed primitive index: line on page " + Digits(page)
    case TexturedLine => "unsupported primitive: textured line on page " + Digits(page)
  }

  predicate Textured(v: Vertex) {
    v.uv.z != 0.0
  }

  /** Left-over indices do not make a primitive. */
  function Triangles(v: View): nat
    requires v.View?
  {
    |v.triangles| / 3
  }

  function Lines(v: View): nat
    requires v.View?
  {
    |v.lines| / 2
  }

  function TriangleFault(v: View, k: nat): Fault
    requires v.View? && k < Triangles(v)
  {
    var n, a, b, c := |v.vertices|, v.triangles[3 * k], v.triangles[3 * k + 1], v.triangles[3 * k + 2];
    if a >= n || b >= n || c >= n then BadTriangle
    else if Textured(v.vertices[a]) || Textured(v.vertices[b]) || Textured(v.vertices[c]) then TexturedTriangle
    else NoFault
  }

  function LineFault(v: View, k: nat): Fault
    requires v.View? && k < Lines(v)
  {
    var n, a, b := |v.vertices|, v.lines[2 * k], v.lines[2 * k + 1];
    if a >= n || b >= n then BadLine
    else if Textured(v.vertices[a]) || Textured(v.vertices[b]) then TexturedLine
    else NoFault
  }

  ghost predicate TrianglesFine(v: View, n: nat)
    requires v.View? && n <= Triangles(v)
  {
    forall k {:trigger TriangleFault(v, k)} :: 0 <= k < n ==> TriangleFault(v, k).NoFault?
  }

  ghost predicate LinesFine(v: View, n: nat)
    requires v.View? && n <= Lines(v)
  {
    forall k {:trigger LineFault(v, k)} :: 0 <= k < n ==> LineFault(v, k).NoFault?
  }

  ghost predicate Drawable(v: View) {
    v.View? ==> TrianglesFine(v, Triangles(v)) && LinesFine(v, Lines(v))
  }

  /** `f` is what the first primitive that cannot be drawn gives; triangles come before lines. */
  ghost predicate FirstFault(v: View, f: Fault)
    requires v.View?
  {
    || (exists k :: 0 <= k < Triangles(v) && TrianglesFine(v, k) && f == TriangleFault(v, k) && !f.NoFault?)
    || (TrianglesFine(v, Triangles(v))
        && exists k :: 0 <= k < Lines(v) && LinesFine(v, k) && f == LineFault(v, k) && !f.NoFault?)
  }

  // ----- What is written -----

  /** One colour when the corners agree in all four channels, else their mean, channel by channel. */
  function Fill(a: Color, b: Color, c: Color): Color {
    if a == b == c then a
    else Color((a.r + b.r + c.r) / 3, (a.g + b.g + c.g) / 3, (a.b + b.b + c.b) / 3, (a.a + b.a + c.a) / 3)
  }

  /** A word of the content stream. */
  datatype Token = Number(value: real) | Word(text: string)

  function Show(t: Token): string {
    if t.Number? then NumText(t.value) else t.text
  }

  function ShowLine(line: seq<Token>): (r: seq<string>)
    ensures |r| == |line| && forall i {:trigger r[i]} :: 0 <= i < |r| ==> r[i] == Show(line[i])
  {
    seq(|line|, i requires 0 <= i < |line| => Show(line[i]))
  }

  function ShowLines(lines: seq<seq<Token>>): (r: seq<seq<string>>)
    ensures |r| == |lines| && forall i {:trigger r[i]} :: 0 <= i < |r| ==> r[i] == ShowLine(lines[i])
  {
    seq(|lines|, i requires 0 <= i < |lines| => ShowLine(lines[i]))
  }

  ghost function Written(lines: seq<seq<Token>>): string {
    Text(ShowLines(lines))
  }

  datatype Spot = Spot(x: real, y: real)

  /** A filled polygon or a stroked path. */
  datatype Shape = Filled(color: seq<real>, corners: seq<Spot>) | Stroked(color: seq<real>, corners: seq<Spot>)

  function ColorLine(color: seq<real>, op: string): (r: seq<Token>)
    ensures |r| == |color| + 1 && r[|color|] == Word(op)
    ensures forall i {:trigger r[i]} :: 0 <= i < |color| ==> r[i] == Number(color[i])
  {
    seq(|color|, i requires 0 <= i < |color| => Number(color[i])) + [Word(op)]
  }

  function SpotLine(s: Spot, op: string): seq<Token> {
    [Number(s.x), Number(s.y), Word(op)]
  }

  function PathLines(corners: seq<Spot>, n: nat): (r: seq<seq<Token>>)
    requires n <= |corners|
  {
    if n == 0 then []
    else PathLines(corners, n - 1) + [SpotLine(corners[n - 1], if n == 1 then "m" else "l")]
  }

  /** A shape in operators: its colour, its path, and the painting. */
  function ShapeLines(s: Shape): seq<seq<Token>> {
    if s.Filled? then [ColorLine(s.color, "rg")] + PathLines(s.corners, |s.corners|) + [[Word("h")], [Word("f")]]
    else [ColorLine(s.color, "RG")] + PathLines(s.corners, |s.corners|) + [[Word("S")]]
  }

  ghost function AllLines(shapes: seq<Shape>): seq<seq<Token>> {
    if shapes == [] then [] else AllLines(shapes[..|shapes| - 1]) + ShapeLines(shapes[|shapes| - 1])
  }

  function Shade(c: Color): seq<real> {
    [c.r as real / 255.0, c.g as real / 255.0, c.b as real / 255.0]
  }

  /** `page_point`: pages have their origin at the bottom. */
  function PagePoint(v: Vertex, height: nat): Spot {
    Spot(v.pos.x, height as real - v.pos.y)
  }

  function TriangleShape(a: Vertex, b: Vertex, c: Vertex, height: nat): Shape {
    Filled(Shade(Fill(a.color, b.color, c.color)), [PagePoint(a, height), PagePoint(b, height), PagePoint(c, height)])
  }

  function LineShape(a: Vertex, b: Vertex, height: nat): Shape {
    Stroked(Shade(a.color), [PagePoint(a, height), PagePoint(b, height)])
  }

  /** The first `n` triangles of the buffer, as shapes on the page. */
  ghost function TriangleShapes(v: View, n: nat, height: nat): (shapes: seq<Shape>)
    requires v.View? && n <= Triangles(v) && TrianglesFine(v, n)
    ensures |shapes| == n
  {
    seq(n, k requires 0 <= k < n =>
      var _ := TriangleFault(v, k);
      TriangleShape(v.vertices[v.triangles[3 * k]], v.vertices[v.triangles[3 * k + 1]],
                    v.vertices[v.triangles[3 * k + 2]], height))
  }

  ghost function LineShapes(v: View, n: nat, height: nat): (shapes: seq<Shape>)
    requires v.View? && n <= Lines(v) && LinesFine(v, n)
    ensures |shapes| == n
  {
    seq(n, k requires 0 <= k < n =>
      var _ := LineFault(v, k);
      LineShape(v.vertices[v.lines[2 * k]], v.vertices[v.lines[2 * k + 1]], height))
  }

  const PRELUDE: seq<seq<Token>> := [[Word("q")], [Word("1"), Word("J")], [Word("1"), Word("j")]]
  const WIDTH: seq<seq<Token>> := [[Word("1"), Word("w")]]
  const POSTLUDE: seq<seq<Token>> := [[Word("Q")]]

  ghost function PageLines(page: Page): seq<seq<Token>>
    requires Drawable(page.view)
  {
    var v := page.view;
    if v.NoView? then PRELUDE + POSTLUDE
    else
      PRELUDE + AllLines(TriangleShapes(v, Triangles(v), page.height)) + WIDTH
      + AllLines(LineShapes(v, Lines(v), page.height)) + POSTLUDE
  }

  ghost function PageText(page: Page): string
    requires Drawable(page.view)
  {
    Written(PageLines(page))
  }

  // ----- Writing -----

  lemma {:induction false} WrittenJoin(a: seq<seq<Token>>, b: seq<seq<Token>>)
    ensures Written(a + b) == Written(a) + Written(b)
  {
    ShowLinesJoin(a, b);
    TextJoin(ShowLines(a), ShowLines(b));
  }

  lemma {:induction false} ShowLinesJoin(a: seq<seq<Token>>, b: seq<seq<Token>>)
    ensures ShowLines(a + b) == ShowLines(a) + ShowLines(b)
  {
  }

  lemma {:induction false} WrittenOne(line: seq<Token>)
    ensures Written([line]) == Sentence(ShowLine(line))
  {
    assert ShowLines([line]) == [ShowLine(line)];
    assert [ShowLine(line)][..0] == [];
    assert Text([]) == "";
  }

  lemma {:induction false} Sentence1(a: string)
    ensures Sentence([a]) == a + "\n"
  {
  }

  lemma {:induction false} Sentence2(a: string, b: string)
    ensures Sentence([a, b]) == a + " " + b + "\n"
  {
    assert [a, b][..1] == [a];
    assert Join([a], ' ') == a;
  }

  lemma {:induction false} Sentence3(a: string, b: string, c: string)
    ensures Sentence([a, b, c]) == a + " " + b + " " + c + "\n"
  {
    assert [a, b, c][..2] == [a, b] && [a, b][..1] == [a];
    assert Join([a, b], ' ') == a + " " + b;
  }

  lemma {:induction false} Sentence4(a: string, b: string, c: string, d: string)
    ensures Sentence([a, b, c, d]) == a + " " + b + " " + c + " " + d + "\n"
  {
    assert [a, b, c, d][..3] == [a, b, c];
    Sentence3(a, b, c);
    assert [a, b, c][..2] == [a, b] && [a, b][..1] == [a];
    assert Join([a, b], ' ') == a + " " + b;
    assert Join([a, b, c], ' ') == a + " " + b + " " + c;
  }

  lemma {:induction false} WrittenWord(w: string)
    ensures Written([[Word(w)]]) == w + "\n"
  {
    assert ShowLine([Word(w)]) == [w];
    WrittenOne([Word(w)]);
    Sentence1(w);
  }

  lemma {:induction false} Written2(a: string, b: string)
    ensures Written([[Word(a), Word(b)]]) == a + " " + b + "\n"
  {
    Sentence2(a, b);
    assert ShowLine([Word(a), Word(b)]) == [a, b];
    WrittenOne([Word(a), Word(b)]);
  }

  lemma {:induction false} ThreeWords(line: seq<Token>, x: string, y: string, op: string)
    requires ShowLine(line) == [x, y, op]
    ensures Written([line]) == x + " " + y + " " + op + "\n"
  {
    Sentence3(x, y, op);
    WrittenOne(line);
  }

  lemma {:induction false} FourWords(line: seq<Token>, x: string, y: string, z: string, op: string)
    requires ShowLine(line) == [x, y, z, op]
    ensures Written([line]) == x + " " + y + " " + z + " " + op + "\n"
  {
    Sentence4(x, y, z, op);
    WrittenOne(line);
  }

  lemma {:induction false} ShowThree(a: Token, b: Token, op: string)
    ensures ShowLine([a, b, Word(op)]) == [Show(a), Show(b), op]
  {
  }

  lemma {:induction false} Written3(a: Token, b: Token, op: string)
    ensures Written([[a, b, Word(op)]]) == Show(a) + " " + Show(b) + " " + op + "\n"
  {
    ShowThree(a, b, op);
    ThreeWords([a, b, Word(op)], Show(a), Show(b), op);
  }

  lemma {:induction false} ShowFour(a: Token, b: Token, c: Token, op: string)
    ensures ShowLine([a, b, c, Word(op)]) == [Show(a), Show(b), Show(c), op]
  {
  }

  lemma {:induction false} Written4(a: Token, b: Token, c: Token, op: string)
    ensures Written([[a, b, c, Word(op)]]) == Show(a) + " " + Show(b) + " " + Show(c) + " " + op + "\n"
  {
    ShowFour(a, b, c, op);
    FourWords([a, b, c, Word(op)], Show(a), Show(b), Show(c), op);
  }

  method EmitNum(v: real) returns (s: string)
    ensures s == Show(Number(v))
  {
    s := Num(v);
  }

  lemma {:induction false} ShadeLine(c: Color, op: string)
    ensures ColorLine(Shade(c), op)
         == [Number(c.r as real / 255.0), Number(c.g as real / 255.0), Number(c.b as real / 255.0), Word(op)]
  {
  }

  /** `emit_color`. */
  method EmitColor(c: Color, stroke: bool) returns (s: string)
    ensures s == Written([ColorLine(Shade(c), if stroke then "RG" else "rg")])
  {
    var r := EmitNum(c.r as real / 255.0);
    var g := EmitNum(c.g as real / 255.0);
    var b := EmitNum(c.b as real / 255.0);
    var op := if stroke then "RG" else "rg";
    s := r + " " + g + " " + b + " " + op + "\n";
    ShadeLine(c, op);
    Written4(Number(c.r as real / 255.0), Number(c.g as real / 255.0), Number(c.b as real / 255.0), op);
  }

  /** `emit_move_line`. */
  method EmitPoint(p: Spot, op: string) returns (s: string)
    ensures s == Written([SpotLine(p, op)])
  {
    var x := EmitNum(p.x);
    var y := EmitNum(p.y);
    s := x + " " + y + " " + op + "\n";
    Written3(Number(p.x), Number(p.y), op);
  }

  lemma {:induction false} PathOfThree(a: Spot, b: Spot, c: Spot)
    ensures PathLines([a, b, c], 3) == [SpotLine(a, "m"), SpotLine(b, "l"), SpotLine(c, "l")]
  {
    var corners := [a, b, c];
    assert PathLines(corners, 1) == [SpotLine(a, "m")];
    assert PathLines(corners, 2) == [SpotLine(a, "m"), SpotLine(b, "l")];
  }

  lemma {:induction false} WrittenClosed(l0: seq<Token>, l1: seq<Token>, l2: seq<Token>, l3: seq<Token>)
    ensures Written([l0] + [l1, l2, l3] + [[Word("h")], [Word("f")]])
         == Written([l0]) + Written([l1]) + Written([l2]) + Written([l3]) + "h\nf\n"
  {
    var h, f := [[Word("h")]], [[Word("f")]];
    WrittenFour(l0, l1, l2, l3);
    WrittenEnd(h, f);
    WrittenJoin([l0, l1, l2, l3], h + f);
    assert [l0] + [l1, l2, l3] + [[Word("h")], [Word("f")]] == [l0, l1, l2, l3] + (h + f);
  }

  lemma {:induction false} WrittenEnd(h: seq<seq<Token>>, f: seq<seq<Token>>)
    requires h == [[Word("h")]] && f == [[Word("f")]]
    ensures Written(h + f) == "h\nf\n"
  {
    WrittenWord("h");
    WrittenWord("f");
    WrittenJoin(h, f);
    assert "h\nf\n" == "h" + "\n" + ("f" + "\n");
  }

  lemma {:induction false} WrittenFilled(color: seq<real>, a: Spot, b: Spot, c: Spot)
    ensures Written(ShapeLines(Filled(color, [a, b, c])))
         == Written([ColorLine(color, "rg")]) + Written([SpotLine(a, "m")]) + Written([SpotLine(b, "l")])
            + Written([SpotLine(c, "l")]) + "h\nf\n"
  {
    PathOfThree(a, b, c);
    WrittenClosed(ColorLine(color, "rg"), SpotLine(a, "m"), SpotLine(b, "l"), SpotLine(c, "l"));
  }

  lemma {:induction false} PathOfTwo(a: Spot, b: Spot)
    ensures PathLines([a, b], 2) == [SpotLine(a, "m"), SpotLine(b, "l")]
  {
    assert PathLines([a, b], 1) == [SpotLine(a, "m")];
  }

  lemma {:induction false} WrittenOpen(l0: seq<Token>, l1: seq<Token>, l2: seq<Token>)
    ensures Written([l0] + [l1, l2] + [[Word("S")]]) == Written([l0]) + Written([l1]) + Written([l2]) + "S\n"
  {
    var s := [Word("S")];
    WrittenFour(l0, l1, l2, s);
    WrittenWord("S");
    assert [l0] + [l1, l2] + [s] == [l0, l1, l2, s];
  }

  lemma {:induction false} WrittenStroked(color: seq<real>, a: Spot, b: Spot)
    ensures Written(ShapeLines(Stroked(color, [a, b])))
         == Written([ColorLine(color, "RG")]) + Written([SpotLine(a, "m")]) + Written([SpotLine(b, "l")]) + "S\n"
  {
    PathOfTwo(a, b);
    WrittenOpen(ColorLine(color, "RG"), SpotLine(a, "m"), SpotLine(b, "l"));
  }

  lemma {:induction false} WrittenFour(a: seq<Token>, b: seq<Token>, c: seq<Token>, d: seq<Token>)
    ensures Written([a, b, c, d]) == Written([a]) + Written([b]) + Written([c]) + Written([d])
  {
    WrittenJoin([a], [b]);
    WrittenJoin([a] + [b], [c]);
    WrittenJoin([a] + [b] + [c], [d]);
    assert [a] + [b] + [c] + [d] == [a, b, c, d];
  }

  /** The loop body for one triangle that can be drawn. */
  method EmitTriangle(a: Vertex, b: Vertex, c: Vertex, height: nat) returns (s: string)
    ensures s == Written(ShapeLines(TriangleShape(a, b, c, height)))
  {
    var fill := Fill(a.color, b.color, c.color);
    s := EmitColor(fill, false);
    var p := EmitPoint(PagePoint(a, height), "m");
    s := s + p;
    p := EmitPoint(PagePoint(b, height), "l");
    s := s + p;
    p := EmitPoint(PagePoint(c, height), "l");
    s := s + p;
    s := s + "h\nf\n";
    WrittenFilled(Shade(fill), PagePoint(a, height), PagePoint(b, height), PagePoint(c, height));
  }

  /** The loop body for one line that can be drawn. */
  method EmitLine(a: Vertex, b: Vertex, height: nat) returns (s: string)
    ensures s == Written(ShapeLines(LineShape(a, b, height)))
  {
    s := EmitColor(a.color, true);
    var p := EmitPoint(PagePoint(a, height), "m");
    s := s + p;
    p := EmitPoint(PagePoint(b, height), "l");
    s := s + p;
    s := s + "S\n";
    WrittenStroked(Shade(a.color), PagePoint(a, height), PagePoint(b, height));
  }

  lemma {:induction false} OneMoreShape(prelude: string, shapes: seq<Shape>, s: Shape)
    ensures prelude + Written(AllLines(shapes + [s]))
         == prelude + Written(AllLines(shapes)) + Written(ShapeLines(s))
  {
    assert (shapes + [s])[..|shapes|] == shapes;
    WrittenMore(prelude, AllLines(shapes), ShapeLines(s));
  }

  lemma {:induction false} TriangleStops(v: View, k: nat)
    requires v.View? && k < Triangles(v) && TrianglesFine(v, k) && !TriangleFault(v, k).NoFault?
    ensures FirstFault(v, TriangleFault(v, k)) && !TrianglesFine(v, Triangles(v))
  {
  }

  lemma {:induction false} TriangleGoesOn(v: View, k: nat, height: nat)
    requires v.View? && k < Triangles(v) && TrianglesFine(v, k) && TriangleFault(v, k).NoFault?
    ensures TrianglesFine(v, k + 1)
    ensures TriangleShapes(v, k + 1, height)
      == TriangleShapes(v, k, height)
         + [TriangleShape(v.vertices[v.triangles[3 * k]], v.vertices[v.triangles[3 * k + 1]],
                          v.vertices[v.triangles[3 * k + 2]], height)]
  {
  }

  /** The body of that loop. */
  method EmitNextTriangle(v: View, k: nat, height: nat, ghost prelude: string, was: string)
    returns (fault: Fault, out: string)
    requires v.View? && k < Triangles(v) && TrianglesFine(v, k)
    requires was == prelude + Written(AllLines(TriangleShapes(v, k, height)))
    ensures fault.NoFault? ==>
      TrianglesFine(v, k + 1) && out == prelude + Written(AllLines(TriangleShapes(v, k + 1, height)))
    ensures !fault.NoFault? ==> FirstFault(v, fault) && !TrianglesFine(v, Triangles(v))
  {
    var ia, ib, ic := v.triangles[3 * k], v.triangles[3 * k + 1], v.triangles[3 * k + 2];
    if ia >= |v.vertices| || ib >= |v.vertices| || ic >= |v.vertices| {
      TriangleStops(v, k);
      return BadTriangle, "";
    }
    var a, b, c := v.vertices[ia], v.vertices[ib], v.vertices[ic];
    if Textured(a) || Textured(b) || Textured(c) {
      TriangleStops(v, k);
      return TexturedTriangle, "";
    }
    TriangleGoesOn(v, k, height);
    var s := EmitTriangle(a, b, c, height);
    OneMoreShape(prelude, TriangleShapes(v, k, height), TriangleShape(a, b, c, height));
    return NoFault, was + s;
  }

  /** The triangle loop: writes every triangle, or stops at the first that cannot be drawn. */
  method EmitTriangles(v: View, height: nat, prelude: string) returns (fault: Fault, out: string)
    requires v.View?
    ensures fault.NoFault? <==> TrianglesFine(v, Triangles(v))
    ensures fault.NoFault? ==> out == prelude + Written(AllLines(TriangleShapes(v, Triangles(v), height)))
    ensures !fault.NoFault? ==> FirstFault(v, fault)
  {
    out := prelude;
    var k := 0;
    WrittenNothing(prelude);
    while 3 * k + 2 < |v.triangles|
      invariant 0 <= k <= Triangles(v) && TrianglesFine(v, k)
      invariant out == prelude + Written(AllLines(TriangleShapes(v, k, height)))
    {
      fault, out := EmitNextTriangle(v, k, height, prelude, out);
      if !fault.NoFault? {
        return;
      }
      k := k + 1;
    }
    fault := NoFault;
  }

  lemma {:induction false} LineStops(v: View, k: nat)
    requires v.View? && TrianglesFine(v, Triangles(v)) && k < Lines(v) && LinesFine(v, k) && !LineFault(v, k).NoFault?
    ensures FirstFault(v, LineFault(v, k)) && !LinesFine(v, Lines(v))
  {
  }

  lemma {:induction false} LineGoesOn(v: View, k: nat, height: nat)
    requires v.View? && k < Lines(v) && LinesFine(v, k) && LineFault(v, k).NoFault?
    ensures LinesFine(v, k + 1)
    ensures LineShapes(v, k + 1, height)
      == LineShapes(v, k, height)
         + [LineShape(v.vertices[v.lines[2 * k]], v.vertices[v.lines[2 * k + 1]], height)]
  {
  }

  /** The line loop. */
  method EmitLines(v: View, height: nat, prelude: string) returns (fault: Fault, out: string)
    requires v.View? && TrianglesFine(v, Triangles(v))
    ensures fault.NoFault? <==> LinesFine(v, Lines(v))
    ensures fault.NoFault? ==> out == prelude + Written(AllLines(LineShapes(v, Lines(v), height)))
    ensures !fault.NoFault? ==> FirstFault(v, fault)
  {
    out := prelude;
    var k := 0;
    WrittenNothing(prelude);
    while 2 * k + 1 < |v.lines|
      invariant 0 <= k <= Lines(v) && LinesFine(v, k)
      invariant out == prelude + Written(AllLines(LineShapes(v, k, height)))
    {
      var ia, ib := v.lines[2 * k], v.lines[2 * k + 1];
      if ia >= |v.vertices| || ib >= |v.vertices| {
        LineStops(v, k);
        return BadLine, "";
      }
      var a, b := v.vertices[ia], v.vertices[ib];
      if Textured(a) || Textured(b) {
        LineStops(v, k);
        return TexturedLine, "";
      }
      LineGoesOn(v, k, height);
      var s := EmitLine(a, b, height);
      OneMoreShape(prelude, LineShapes(v, k, height), LineShape(a, b, height));
      out := out + s;
      k := k + 1;
    }
    fault := NoFault;
  }

  lemma {:induction false} WrittenNothing(prelude: string)
    ensures prelude == prelude + Written([])
  {
  }

  lemma {:induction false} WrittenMore(prelude: string, a: seq<seq<Token>>, b: seq<seq<Token>>)
    ensures prelude + Written(a + b) == prelude + Written(a) + Written(b)
  {
    WrittenJoin(a, b);
    assert prelude + (Written(a) + Written(b)) == prelude + Written(a) + Written(b);
  }

  lemma {:induction false} WrittenPrelude()
    ensures Written(PRELUDE) == "q\n" + "1 J\n1 j\n"
    ensures Written(WIDTH) == "1 w\n" && Written(POSTLUDE) == "Q\n"
  {
    WrittenWord("q");
    Written2("1", "J");
    Written2("1", "j");
    Written2("1", "w");
    WrittenWord("Q");
    WrittenJoin([[Word("1"), Word("J")]], [[Word("1"), Word("j")]]);
    WrittenJoin([[Word("q")]], [[Word("1"), Word("J")]] + [[Word("1"), Word("j")]]);
    assert PRELUDE == [[Word("q")]] + ([[Word("1"), Word("J")]] + [[Word("1"), Word("j")]]);
    assert "1 J\n1 j\n" == ("1" + " " + "J" + "\n") + ("1" + " " + "j" + "\n");
  }

  /** `content_for_page`. */
  method ContentForPage(page: Page) returns (fault: Fault, content: string)
    ensures fault.NoFault? <==> Drawable(page.view)
    ensures fault.NoFault? ==> content == PageText(page)
    ensures !fault.NoFault? ==> page.view.View? && FirstFault(page.view, fault)
  {
    WrittenPrelude();
    var out := "q\n" + "1 J\n1 j\n";
    var v := page.view;
    if v.NoView? {
      WrittenJoin(PRELUDE, POSTLUDE);
      return NoFault, out + "Q\n";
    }
    fault, out := EmitTriangles(v, page.height, out);
    if !fault.NoFault? {
      return fault, "";
    }
    ghost var ts := AllLines(TriangleShapes(v, Triangles(v), page.height));
    WrittenJoin(PRELUDE, ts);
    WrittenJoin(PRELUDE + ts, WIDTH);
    out := out + "1 w\n";
    fault, out := EmitLines(v, page.height, out);
    if !fault.NoFault? {
      return fault, "";
    }
    ghost var ls := AllLines(LineShapes(v, Lines(v), page.height));
    WrittenJoin(PRELUDE + ts + WIDTH, ls);
    WrittenJoin(PRELUDE + ts + WIDTH + ls, POSTLUDE);
    content := out + "Q\n";
  }
}
