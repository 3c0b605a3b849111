/**
  * Reading a content stream: the operators a page uses, and that reading what was written draws the
  * buffer's primitives, triangles first, with every number to three decimals.
  */
module PageShapes {
  import opened Sequences
  import opened Decimals
  import opened Words
  import opened PageContent

  /** The graphics state: two colours, the path so far, and what was painted. */
  datatype Pen = Pen(fill: seq<real>, stroke: seq<real>, path: seq<Spot>, shapes: seq<Shape>)

  const FRESH := Pen([0.0, 0.0, 0.0], [0.0, 0.0, 0.0], [], [])

  /** One line of words: operands, then the operator. */
  function Do(p: Pen, words: seq<string>): Pen {
    if |words| == 4 then
      var color := [ReadDecimal(words[0]), ReadDecimal(words[1]), ReadDecimal(words[2])];
      if words[3] == "rg" then p.(fill := color)
      else if words[3] == "RG" then p.(stroke := color)
      else p
    else if |words| == 3 then
      var spot := Spot(ReadDecimal(words[0]), ReadDecimal(words[1]));
      if words[2] == "m" then p.(path := [spot])
      else if words[2] == "l" then p.(path := p.path + [spot])
      else p
    else if words == ["f"] then p.(shapes := p.shapes + [Filled(p.fill, p.path)], path := [])
    else if words == ["S"] then p.(shapes := p.shapes + [Stroked(p.stroke, p.path)], path := [])
    else p
  }

  ghost function DoAll(p: Pen, lines: seq<seq<string>>): Pen {
    if lines == [] then p else Do(DoAll(p, lines[..|lines| - 1]), lines[|lines| - 1])
  }

  /** What a content stream paints, in order. */
  ghost function Painted(content: string): seq<Shape> {
    DoAll(FRESH, Parse(content)).shapes
  }

  // ----- What a page should paint -----

  function RoundedAll(xs: seq<real>): (r: seq<real>)
    ensures |r| == |xs| && forall i {:trigger r[i]} :: 0 <= i < |r| ==> r[i] == Rounded(xs[i])
  {
    seq(|xs|, i requires 0 <= i < |xs| => Rounded(xs[i]))
  }

  function RoundedSpot(s: Spot): Spot {
    Spot(Rounded(s.x), Rounded(s.y))
  }

  function RoundedPath(path: seq<Spot>): (r: seq<Spot>)
    ensures |r| == |path| && forall i {:trigger r[i]} :: 0 <= i < |r| ==> r[i] == RoundedSpot(path[i])
  {
    seq(|path|, i requires 0 <= i < |path| => RoundedSpot(path[i]))
  }

  /** A shape with every number to three decimals. */
  function RoundedShape(s: Shape): Shape {
    if s.Filled? then Filled(RoundedAll(s.color), RoundedPath(s.corners))
    else Stroked(RoundedAll(s.color), RoundedPath(s.corners))
  }

  function RoundedShapes(shapes: seq<Shape>): (r: seq<Shape>)
    ensures |r| == |shapes| && forall i {:trigger r[i]} :: 0 <= i < |r| ==> r[i] == RoundedShape(shapes[i])
  {
    seq(|shapes|, i requires 0 <= i < |shapes| => RoundedShape(shapes[i]))
  }

  ghost predicate Colored(shapes: seq<Shape>) {
    forall i {:trigger shapes[i]} :: 0 <= i < |shapes| ==> |shapes[i].color| == 3
  }

  lemma {:induction false} ShapesColored(v: View, height: nat)
    requires v.View? && Drawable(v)
    ensures Colored(TriangleShapes(v, Triangles(v), height)) && Colored(LineShapes(v, Lines(v), height))
  {
    forall k | 0 <= k < Triangles(v)
      ensures |TriangleShapes(v, Triangles(v), height)[k].color| == 3
    {
      assert TriangleFault(v, k).NoFault?;
    }
    forall k | 0 <= k < Lines(v)
      ensures |LineShapes(v, Lines(v), height)[k].color| == 3
    {
      assert LineFault(v, k).NoFault?;
    }
  }

  /** The buffer's triangles in order, then its lines in order. */
  ghost function Shapes(page: Page): seq<Shape>
    requires Drawable(page.view)
  {
    var v := page.view;
    if v.NoView? then []
    else TriangleShapes(v, Triangles(v), page.height) + LineShapes(v, Lines(v), page.height)
  }

  // ----- Words that can be told apart -----

  ghost predicate Tidy(lines: seq<seq<Token>>) {
    forall i {:trigger lines[i]} :: 0 <= i < |lines| ==> lines[i] != [] && TidyLine(lines[i])
  }

  ghost predicate TidyLine(line: seq<Token>) {
    forall j {:trigger line[j]} :: 0 <= j < |line| ==> TidyToken(line[j])
  }

  predicate TidyToken(t: Token) {
    t.Word? ==> ' ' !in t.text && '\n' !in t.text
  }

  lemma {:induction false} TidyShows(t: Token)
    requires TidyToken(t)
    ensures ' ' !in Show(t) && '\n' !in Show(t)
  {
    if t.Number? {
      NumIsWord(t.value, ' ');
      NumIsWord(t.value, '\n');
    }
  }

  lemma {:induction false} TidyIsClean(lines: seq<seq<Token>>)
    requires Tidy(lines)
    ensures Clean(ShowLines(lines))
  {
    forall i | 0 <= i < |lines|
      ensures ShowLine(lines[i]) != [] && CleanWords(ShowLine(lines[i]))
    {
      forall j | 0 <= j < |lines[i]|
        ensures ' ' !in ShowLine(lines[i])[j] && '\n' !in ShowLine(lines[i])[j]
      {
        TidyShows(lines[i][j]);
      }
    }
  }

  lemma {:induction false} TidyTogether(a: seq<seq<Token>>, b: seq<seq<Token>>)
    requires Tidy(a) && Tidy(b)
    ensures Tidy(a + b)
  {
  }

  lemma {:induction false} PathTidy(corners: seq<Spot>, n: nat)
    requires n <= |corners|
    ensures Tidy(PathLines(corners, n))
  {
    if n > 0 {
      PathTidy(corners, n - 1);
      TidyTogether(PathLines(corners, n - 1), [SpotLine(corners[n - 1], if n == 1 then "m" else "l")]);
    }
  }

  lemma {:induction false} ShapeTidy(s: Shape)
    requires Tidy(PathLines(s.corners, |s.corners|))
    ensures Tidy(ShapeLines(s))
  {
    var color := ColorLine(s.color, if s.Filled? then "rg" else "RG");
    assert TidyLine(color);
    TidyTogether([color], PathLines(s.corners, |s.corners|));
  }

  lemma {:induction false} ShapesTidy(shapes: seq<Shape>)
    ensures Tidy(AllLines(shapes))
    decreases |shapes|
  {
    if shapes != [] {
      var s := shapes[|shapes| - 1];
      ShapesTidy(shapes[..|shapes| - 1]);
      PathTidy(s.corners, |s.corners|);
      ShapeTidy(s);
      TidyTogether(AllLines(shapes[..|shapes| - 1]), ShapeLines(s));
    }
  }

  // ----- Reading lines -----

  lemma {:induction false} DoMore(p: Pen, lines: seq<seq<string>>, words: seq<string>)
    ensures DoAll(p, lines + [words]) == Do(DoAll(p, lines), words)
  {
    assert (lines + [words])[..|lines|] == lines;
  }

  lemma {:induction false} DoInTurn(p: Pen, a: seq<seq<string>>, b: seq<seq<string>>)
    ensures DoAll(p, a + b) == DoAll(DoAll(p, a), b)
    decreases |b|
  {
    if b == [] {
      assert a + b == a;
    } else {
      var c, words := b[..|b| - 1], b[|b| - 1];
      DoInTurn(p, a, c);
      DoMore(p, a + c, words);
      assert a + c + [words] == a + b;
    }
  }

  lemma {:induction false} DoJoin(p: Pen, a: seq<seq<Token>>, b: seq<seq<Token>>)
    ensures DoAll(p, ShowLines(a + b)) == DoAll(DoAll(p, ShowLines(a)), ShowLines(b))
  {
    assert ShowLines(a + b) == ShowLines(a) + ShowLines(b);
    DoInTurn(p, ShowLines(a), ShowLines(b));
  }

  lemma {:induction false} DoOne(p: Pen, line: seq<Token>)
    ensures DoAll(p, ShowLines([line])) == Do(p, ShowLine(line))
  {
    assert ShowLines([line]) == [] + [ShowLine(line)];
    DoMore(p, [], ShowLine(line));
  }

  lemma {:induction false} NumberReads(line: seq<Token>, i: nat)
    requires i < |line| && line[i].Number?
    ensures ReadDecimal(ShowLine(line)[i]) == Rounded(line[i].value)
  {
    NumReads(line[i].value);
  }

  lemma {:induction false} ColorReads(color: seq<real>, op: string, i: nat)
    requires |color| == 3 && i < 3
    ensures ReadDecimal(ShowLine(ColorLine(color, op))[i]) == RoundedAll(color)[i]
  {
    NumberReads(ColorLine(color, op), i);
  }

  lemma {:induction false} DoThenOne(p: Pen, lines: seq<seq<Token>>, line: seq<Token>)
    ensures DoAll(p, ShowLines(lines + [line])) == Do(DoAll(p, ShowLines(lines)), ShowLine(line))
  {
    DoJoin(p, lines, [line]);
    DoOne(DoAll(p, ShowLines(lines)), line);
  }

  lemma {:induction false} DoFourWords(p: Pen, words: seq<string>, color: seq<real>)
    requires |words| == 4 && |color| == 3
    requires forall i {:trigger words[i]} :: 0 <= i < 3 ==> ReadDecimal(words[i]) == color[i]
    ensures words[3] == "rg" ==> Do(p, words) == p.(fill := color)
    ensures words[3] == "RG" ==> Do(p, words) == p.(stroke := color)
  {
    assert color == [color[0], color[1], color[2]];
    assert color == [ReadDecimal(words[0]), ReadDecimal(words[1]), ReadDecimal(words[2])];
  }

  lemma {:induction false} DoColor(p: Pen, color: seq<real>, op: string)
    requires |color| == 3
    ensures op == "rg" ==> Do(p, ShowLine(ColorLine(color, op))) == p.(fill := RoundedAll(color))
    ensures op == "RG" ==> Do(p, ShowLine(ColorLine(color, op))) == p.(stroke := RoundedAll(color))
  {
    var words := ShowLine(ColorLine(color, op));
    forall i | 0 <= i < 3
      ensures ReadDecimal(words[i]) == RoundedAll(color)[i]
    {
      ColorReads(color, op, i);
    }
    assert words[3] == op;
    DoFourWords(p, words, RoundedAll(color));
  }

  lemma {:induction false} DoThreeWords(p: Pen, words: seq<string>, s: Spot)
    requires |words| == 3 && ReadDecimal(words[0]) == s.x && ReadDecimal(words[1]) == s.y
    ensures words[2] == "m" ==> Do(p, words) == p.(path := [s])
    ensures words[2] == "l" ==> Do(p, words) == p.(path := p.path + [s])
  {
  }

  lemma {:induction false} DoSpot(p: Pen, s: Spot, op: string)
    ensures op == "m" ==> Do(p, ShowLine(SpotLine(s, op))) == p.(path := [RoundedSpot(s)])
    ensures op == "l" ==> Do(p, ShowLine(SpotLine(s, op))) == p.(path := p.path + [RoundedSpot(s)])
  {
    var words := ShowLine(SpotLine(s, op));
    NumberReads(SpotLine(s, op), 0);
    NumberReads(SpotLine(s, op), 1);
    assert words[2] == op;
    DoThreeWords(p, words, RoundedSpot(s));
  }

  lemma {:induction false} DoPaint(p: Pen)
    ensures Do(p, ShowLine([Word("h")])) == p
    ensures Do(p, ShowLine([Word("f")])) == p.(shapes := p.shapes + [Filled(p.fill, p.path)], path := [])
    ensures Do(p, ShowLine([Word("S")])) == p.(shapes := p.shapes + [Stroked(p.stroke, p.path)], path := [])
  {
    assert ShowLine([Word("h")]) == ["h"] && ShowLine([Word("f")]) == ["f"] && ShowLine([Word("S")]) == ["S"];
  }

  lemma {:induction false} RoundedOneMore(corners: seq<Spot>, n: nat)
    requires n < |corners|
    ensures RoundedPath(corners[..n + 1]) == RoundedPath(corners[..n]) + [RoundedSpot(corners[n])]
  {
  }

  lemma {:induction false} DoNextSpot(p: Pen, corners: seq<Spot>, n: nat)
    requires n < |corners| && p.path == RoundedPath(corners[..n])
    ensures Do(p, ShowLine(SpotLine(corners[n], if n == 0 then "m" else "l")))
         == p.(path := RoundedPath(corners[..n + 1]))
  {
    RoundedOneMore(corners, n);
    if n == 0 {
      DoSpot(p, corners[n], "m");
      assert [] + [RoundedSpot(corners[n])] == [RoundedSpot(corners[n])];
    } else {
      DoSpot(p, corners[n], "l");
    }
  }

  lemma {:induction false} DoPath(p: Pen, corners: seq<Spot>, n: nat)
    requires n <= |corners| && p.path == []
    ensures DoAll(p, ShowLines(PathLines(corners, n))) == p.(path := RoundedPath(corners[..n]))
  {
    if n > 0 {
      var line := SpotLine(corners[n - 1], if n == 1 then "m" else "l");
      var q := p.(path := RoundedPath(corners[..n - 1]));
      DoPath(p, corners, n - 1);
      DoNextSpot(q, corners, n - 1);
      DoThenOne(p, PathLines(corners, n - 1), line);
    } else {
      assert ShowLines([]) == [];
    }
  }

  /** Up to the painting: the colour is set and the path is there. */
  lemma {:induction false} DoOutline(p: Pen, s: Shape, op: string)
    requires |s.color| == 3 && p.path == [] && op == if s.Filled? then "rg" else "RG"
    ensures DoAll(p, ShowLines([ColorLine(s.color, op)] + PathLines(s.corners, |s.corners|)))
         == Do(p, ShowLine(ColorLine(s.color, op))).(path := RoundedPath(s.corners))
  {
    var color := ColorLine(s.color, op);
    DoOne(p, color);
    DoColor(p, s.color, op);
    DoJoin(p, [color], PathLines(s.corners, |s.corners|));
    DoPath(Do(p, ShowLine(color)), s.corners, |s.corners|);
    assert s.corners[..|s.corners|] == s.corners;
  }

  lemma {:induction false} DoFill(p: Pen)
    ensures DoAll(p, ShowLines([[Word("h")], [Word("f")]]))
         == p.(shapes := p.shapes + [Filled(p.fill, p.path)], path := [])
  {
    DoPaint(p);
    DoOne(p, [Word("h")]);
    DoThenOne(p, [[Word("h")]], [Word("f")]);
    assert [[Word("h")]] + [[Word("f")]] == [[Word("h")], [Word("f")]];
  }

  lemma {:induction false} DoStroke(p: Pen)
    ensures DoAll(p, ShowLines([[Word("S")]]))
         == p.(shapes := p.shapes + [Stroked(p.stroke, p.path)], path := [])
  {
    DoPaint(p);
    DoOne(p, [Word("S")]);
  }

  lemma {:induction false} DoFilled(p: Pen, s: Shape)
    requires s.Filled? && |s.color| == 3 && p.path == []
    ensures var q := DoAll(p, ShowLines(ShapeLines(s)));
            q.shapes == p.shapes + [RoundedShape(s)] && q.path == []
  {
    DoOutline(p, s, "rg");
    DoColor(p, s.color, "rg");
    DoJoin(p, [ColorLine(s.color, "rg")] + PathLines(s.corners, |s.corners|), [[Word("h")], [Word("f")]]);
    DoFill(p.(fill := RoundedAll(s.color), path := RoundedPath(s.corners)));
  }

  lemma {:induction false} DoStroked(p: Pen, s: Shape)
    requires s.Stroked? && |s.color| == 3 && p.path == []
    ensures var q := DoAll(p, ShowLines(ShapeLines(s)));
            q.shapes == p.shapes + [RoundedShape(s)] && q.path == []
  {
    DoOutline(p, s, "RG");
    DoColor(p, s.color, "RG");
    DoJoin(p, [ColorLine(s.color, "RG")] + PathLines(s.corners, |s.corners|), [[Word("S")]]);
    DoStroke(p.(stroke := RoundedAll(s.color), path := RoundedPath(s.corners)));
  }

  lemma {:induction false} DoShape(p: Pen, s: Shape)
    requires |s.color| == 3 && p.path == []
    ensures var q := DoAll(p, ShowLines(ShapeLines(s)));
            q.shapes == p.shapes + [RoundedShape(s)] && q.path == []
  {
    if s.Filled? {
      DoFilled(p, s);
    } else {
      DoStroked(p, s);
    }
  }

  lemma {:induction false} DoNextShape(p: Pen, shapes: seq<Shape>, s: Shape, painted: seq<Shape>)
    requires |s.color| == 3
    requires var q := DoAll(p, ShowLines(AllLines(shapes))); q.shapes == painted && q.path == []
    ensures var q := DoAll(p, ShowLines(AllLines(shapes) + ShapeLines(s)));
            q.shapes == painted + [RoundedShape(s)] && q.path == []
  {
    DoJoin(p, AllLines(shapes), ShapeLines(s));
    DoShape(DoAll(p, ShowLines(AllLines(shapes))), s);
  }

  lemma {:induction false} DoShapes(p: Pen, shapes: seq<Shape>)
    requires Colored(shapes) && p.path == []
    ensures var q := DoAll(p, ShowLines(AllLines(shapes)));
            q.shapes == p.shapes + RoundedShapes(shapes) && q.path == []
    decreases |shapes|
  {
    if shapes != [] {
      var init, s := shapes[..|shapes| - 1], shapes[|shapes| - 1];
      DoShapes(p, init);
      DoNextShape(p, init, s, p.shapes + RoundedShapes(init));
      RoundedLast(shapes);
      Assoc(p.shapes, RoundedShapes(init), [RoundedShape(s)]);
    } else {
      assert ShowLines([]) == [];
    }
  }

  lemma {:induction false} RoundedLast(shapes: seq<Shape>)
    requires shapes != []
    ensures RoundedShapes(shapes)
         == RoundedShapes(shapes[..|shapes| - 1]) + [RoundedShape(shapes[|shapes| - 1])]
  {
  }

  lemma {:induction false} RoundedJoin(a: seq<Shape>, b: seq<Shape>)
    ensures RoundedShapes(a + b) == RoundedShapes(a) + RoundedShapes(b)
  {
  }

  /** The lines that set up a page and finish it paint nothing. */
  lemma {:induction false} DoFrame(p: Pen)
    ensures DoAll(p, ShowLines(PRELUDE)) == p && DoAll(p, ShowLines(WIDTH)) == p
    ensures DoAll(p, ShowLines(POSTLUDE)) == p
  {
    var q, j1, j2, w, e := [Word("q")], [Word("1"), Word("J")], [Word("1"), Word("j")],
                        [Word("1"), Word("w")], [Word("Q")];
    DoOne(p, q);
    DoOne(p, j1);
    DoOne(p, j2);
    DoOne(p, w);
    DoOne(p, e);
    DoJoin(p, [q], [j1]);
    DoJoin(p, [q] + [j1], [j2]);
    assert PRELUDE == [q] + [j1] + [j2];
    assert ShowLine(q) == ["q"] && ShowLine(e) == ["Q"];
  }

  lemma {:induction false} DoBlank(p: Pen)
    ensures Do(p, [""]) == p
  {
  }

  lemma {:induction false} ReadsLines(lines: seq<seq<Token>>)
    requires Tidy(lines)
    ensures Painted(Written(lines)) == DoAll(FRESH, ShowLines(lines)).shapes
  {
    TidyIsClean(lines);
    ParseText(ShowLines(lines));
    DoMore(FRESH, ShowLines(lines), [""]);
    DoBlank(DoAll(FRESH, ShowLines(lines)));
  }

  lemma {:induction false} FiveTidy(a: seq<seq<Token>>, b: seq<seq<Token>>, c: seq<seq<Token>>,
                                    d: seq<seq<Token>>, e: seq<seq<Token>>)
    requires Tidy(a) && Tidy(b) && Tidy(c) && Tidy(d) && Tidy(e)
    ensures Tidy(a + b + c + d + e)
  {
    TidyTogether(a, b);
    TidyTogether(a + b, c);
    TidyTogether(a + b + c, d);
    TidyTogether(a + b + c + d, e);
  }

  /** Two stretches of lines between three that leave the graphics state alone. */
  lemma {:induction false} DoFive(p: Pen, a: seq<seq<Token>>, b: seq<seq<Token>>, c: seq<seq<Token>>,
                                  d: seq<seq<Token>>, e: seq<seq<Token>>, q: Pen, r: Pen)
    requires Inert(a) && Inert(c) && Inert(e)
    requires DoAll(p, ShowLines(b)) == q && DoAll(q, ShowLines(d)) == r
    ensures DoAll(p, ShowLines(a + b + c + d + e)) == r
  {
    DoJoin(p, a, b);
    DoJoin(p, a + b, c);
    assert DoAll(q, ShowLines(c)) == q;
    DoJoin(p, a + b + c, d);
    DoJoin(p, a + b + c + d, e);
    assert DoAll(r, ShowLines(e)) == r;
  }

  /** Lines that paint nothing and leave the graphics state alone. */
  ghost predicate Inert(lines: seq<seq<Token>>) {
    Tidy(lines) && forall p {:trigger DoAll(p, ShowLines(lines))} :: DoAll(p, ShowLines(lines)) == p
  }

  lemma {:induction false} DoTwice(p: Pen, first: seq<Shape>, second: seq<Shape>) returns (q: Pen, r: Pen)
    requires Colored(first) && Colored(second) && p.path == []
    ensures DoAll(p, ShowLines(AllLines(first))) == q && DoAll(q, ShowLines(AllLines(second))) == r
    ensures r.shapes == p.shapes + RoundedShapes(first + second)
  {
    q := DoAll(p, ShowLines(AllLines(first)));
    DoShapes(p, first);
    r := DoAll(q, ShowLines(AllLines(second)));
    DoShapes(q, second);
    RoundedJoin(first, second);
    Assoc(p.shapes, RoundedShapes(first), RoundedShapes(second));
  }

  /** The lines of a page with a buffer, over any shapes. */
  lemma {:induction false} DoPage(pre: seq<seq<Token>>, first: seq<Shape>, mid: seq<seq<Token>>,
                                  second: seq<Shape>, post: seq<seq<Token>>)
    requires Colored(first) && Colored(second) && Inert(pre) && Inert(mid) && Inert(post)
    ensures var lines := pre + AllLines(first) + mid + AllLines(second) + post;
            && Tidy(lines)
            && DoAll(FRESH, ShowLines(lines)).shapes == RoundedShapes(first + second)
  {
    ShapesTidy(first);
    ShapesTidy(second);
    FiveTidy(pre, AllLines(first), mid, AllLines(second), post);
    var q, r := DoTwice(FRESH, first, second);
    DoFive(FRESH, pre, AllLines(first), mid, AllLines(second), post, q, r);
  }

  lemma {:induction false} FrameInert()
    ensures Inert(PRELUDE) && Inert(WIDTH) && Inert(POSTLUDE)
  {
    forall p
      ensures DoAll(p, ShowLines(PRELUDE)) == p && DoAll(p, ShowLines(WIDTH)) == p
      ensures DoAll(p, ShowLines(POSTLUDE)) == p
    {
      DoFrame(p);
    }
  }

  /**
    * Reading a page's content stream paints exactly the page's triangles and then its lines, every
    * number to three decimals.
    */
  lemma {:induction false} PaintsThePage(page: Page)
    requires Drawable(page.view)
    ensures Painted(PageText(page)) == RoundedShapes(Shapes(page))
  {
    var v := page.view;
    FrameInert();
    if v.NoView? {
      TidyTogether(PRELUDE, POSTLUDE);
      DoJoin(FRESH, PRELUDE, POSTLUDE);
    } else {
      ShapesColored(v, page.height);
      DoPage(PRELUDE, TriangleShapes(v, Triangles(v), page.height), WIDTH,
             LineShapes(v, Lines(v), page.height), POSTLUDE);
    }
    ReadsLines(PageLines(page));
  }
}
