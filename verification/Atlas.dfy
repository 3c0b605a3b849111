/**
  * The glyph atlas: a shelf packer over one growing page. Every region it hands out stays inside the
  * page, apart from all others, and keeps the bytes packed there.
  */
module Atlas {
  import opened Options
  import opened Bytes
  import opened Pixels

  datatype Format = Grayscale | Bgra

  /** How many bytes `n` neighbouring pixels take: `n` times the bytes per pixel. */
  function Cols(f: Format, n: nat): nat {
    match f
    case Grayscale => n
    case Bgra => 4 * n
  }

  /** A region in use and the bytes it must show, row by row. */
  datatype Placed = Placed(x: nat, y: nat, w: nat, h: nat, bytes: Bytes)

  datatype Region = Region(ok: bool, x: nat, y: nat)

  function Max(a: nat, b: nat): nat {
    if a < b then b else a
  }

  function BytesPerPixel(f: Format): nat {
    if f.Grayscale? then 1 else 4
  }

  /** The size of a page or a bitmap, as the code computes it. */
  function ByteCount(f: Format, w: nat, h: nat): nat {
    w * h * BytesPerPixel(f)
  }

  lemma {:induction false} RowsFillPage(f: Format, w: nat, h: nat)
    ensures RowStart(h, Cols(f, w)) == ByteCount(f, w, h)
  {
    RowStartIsProduct(h, Cols(f, w));
    assert Cols(f, w) == w * BytesPerPixel(f);
    Reordered(h, w, BytesPerPixel(f));
  }

  lemma {:induction false} Reordered(x: nat, y: nat, z: nat)
    ensures x * (y * z) == y * x * z
  {
  }

  function Zeros(n: nat): (z: Bytes)
    ensures |z| == n && forall i :: 0 <= i < n ==> z[i] == 0
  {
    seq(n, _ => 0)
  }

  // ----- Geometry -----

  predicate InBounds(p: Placed, pad: nat, width: nat, height: nat) {
    && pad <= p.x && p.x + p.w + pad <= width
    && pad <= p.y && p.y + p.h + pad <= height
  }

  /** At least `pad` pixels lie between the two in some direction. */
  predicate Apart(p: Placed, q: Placed, pad: nat) {
    || p.x + p.w + pad <= q.x || q.x + q.w + pad <= p.x
    || p.y + p.h + pad <= q.y || q.y + q.h + pad <= p.y
  }

  ghost predicate AllInBounds(ps: seq<Placed>, pad: nat, width: nat, height: nat) {
    forall i {:trigger ps[i]} :: 0 <= i < |ps| ==> InBounds(ps[i], pad, width, height)
  }

  ghost predicate AllApart(ps: seq<Placed>, pad: nat) {
    forall i, j {:trigger ps[i], ps[j]} :: 0 <= i < j < |ps| ==> Apart(ps[i], ps[j], pad)
  }

  /** In the current shelf, left of the cursor; or above the shelf. */
  predicate BehindCursor(p: Placed, pad: nat, cx: nat, cy: nat, rowH: nat) {
    || (p.y == cy && p.x + p.w + pad <= cx && p.h <= rowH)
    || p.y + p.h + pad <= cy
  }

  ghost predicate AllBehind(ps: seq<Placed>, pad: nat, cx: nat, cy: nat, rowH: nat) {
    forall i {:trigger ps[i]} :: 0 <= i < |ps| ==> BehindCursor(ps[i], pad, cx, cy, rowH)
  }

  // ----- Contents -----

  /** The page shows the region's bytes at the region's place. */
  ghost predicate Shows(px: Bytes, stride: nat, f: Format, p: Placed) {
    && |p.bytes| == RowStart(p.h, Cols(f, p.w))
    && forall r, c {:trigger At(px, stride, r, c)} ::
         p.y <= r < p.y + p.h && Cols(f, p.x) <= c < Cols(f, p.x) + Cols(f, p.w) ==>
           At(px, stride, r, c) == At(p.bytes, Cols(f, p.w), r - p.y, c - Cols(f, p.x))
  }

  ghost predicate AllShown(px: Bytes, stride: nat, f: Format, ps: seq<Placed>) {
    forall i {:trigger ps[i]} :: 0 <= i < |ps| ==> Shows(px, stride, f, ps[i])
  }

  /** Nothing has been drawn right of the cursor in the shelf, nor below the shelf. */
  ghost predicate BlankAhead(px: Bytes, stride: nat, height: nat, f: Format,
                             cx: nat, cy: nat, rowH: nat)
  {
    forall r, c {:trigger At(px, stride, r, c)} ::
      cy <= r < height && 0 <= c < stride && (r < cy + rowH ==> Cols(f, cx) <= c) ==>
        At(px, stride, r, c) == 0
  }

  // ----- Growth -----

  lemma {:induction false} ColsMonotone(f: Format, x: nat, w: nat, width: nat)
    requires x + w <= width
    ensures Cols(f, x) + Cols(f, w) == Cols(f, x + w) <= Cols(f, width)
  {
  }

  /** A larger zero page with the old rows copied into its corner shows what the old page showed. */
  lemma {:induction false} GrownShows(
    zeros: Bytes, px: Bytes, grown: Bytes, f: Format, width: nat, height: nat, newW: nat, newH: nat,
    pad: nat, p: Placed)
    requires width <= newW && height <= newH && InBounds(p, pad, width, height)
    requires Blitted(zeros, grown, Cols(f, newW), newH, 0, 0, Cols(f, width), height, px)
    requires Shows(px, Cols(f, width), f, p)
    ensures Shows(grown, Cols(f, newW), f, p)
  {
    ColsMonotone(f, p.x, p.w, width);
    ColsMonotone(f, 0, width, newW);
    forall r, c | p.y <= r < p.y + p.h && Cols(f, p.x) <= c < Cols(f, p.x) + Cols(f, p.w)
      ensures At(grown, Cols(f, newW), r, c)
           == At(p.bytes, Cols(f, p.w), r - p.y, c - Cols(f, p.x))
    {
      assert At(grown, Cols(f, newW), r, c) == At(px, Cols(f, width), r, c);
    }
  }

  lemma {:induction false} GrownKeeps(
    zeros: Bytes, px: Bytes, grown: Bytes, f: Format, width: nat, height: nat, newW: nat, newH: nat,
    pad: nat, ps: seq<Placed>, cx: nat, cy: nat, rowH: nat)
    requires width <= newW && height <= newH && AllInBounds(ps, pad, width, height)
    requires forall i :: 0 <= i < |zeros| ==> zeros[i] == 0
    requires Blitted(zeros, grown, Cols(f, newW), newH, 0, 0, Cols(f, width), height, px)
    requires AllShown(px, Cols(f, width), f, ps)
    requires BlankAhead(px, Cols(f, width), height, f, cx, cy, rowH)
    ensures AllInBounds(ps, pad, newW, newH) && AllShown(grown, Cols(f, newW), f, ps)
    ensures BlankAhead(grown, Cols(f, newW), newH, f, cx, cy, rowH)
  {
    forall i | 0 <= i < |ps|
      ensures InBounds(ps[i], pad, newW, newH) && Shows(grown, Cols(f, newW), f, ps[i])
    {
      GrownShows(zeros, px, grown, f, width, height, newW, newH, pad, ps[i]);
    }
    forall r, c | cy <= r < newH && 0 <= c < Cols(f, newW) && (r < cy + rowH ==> Cols(f, cx) <= c)
      ensures At(grown, Cols(f, newW), r, c) == 0
    {
      if r < height && c < Cols(f, width) {
        assert At(px, Cols(f, width), r, c) == 0;
      }
    }
  }

  // ----- Room -----

  /** `size` doubled until it suffices or reaches `m`. */
  function DoubleUntil(size: nat, least: nat, m: nat): (r: nat)
    requires size > 0
    ensures r >= size && (r >= least || r >= m)
    ensures r == size <==> size >= least || size >= m
    decreases m - size
  {
    if size < least && size < m then DoubleUntil(2 * size, least, m) else size
  }

  /** `m` is reached from `w` by doubling. */
  ghost predicate DoublesTo(w: nat, m: nat)
    decreases m - w
  {
    w == m || (0 < w < m && DoublesTo(2 * w, m))
  }

  lemma {:induction false} DoublingStays(size: nat, least: nat, m: nat)
    requires size > 0 && DoublesTo(size, m)
    ensures DoublesTo(DoubleUntil(size, least, m), m) && DoubleUntil(size, least, m) <= m
    decreases m - size
  {
    if size < m {
      DoublingStays(2 * size, least, m);
    }
  }

  /** What a request depends on: the page's size, its cursor, and the height of the current shelf. */
  datatype Page = Page(width: nat, height: nat, x: nat, y: nat, rowH: nat)

  predicate TooSmall(p: Page, pad: nat, w: nat, h: nat) {
    w + pad * 2 > p.width || h + pad * 2 > p.height
  }

  /** The width the page will have: a page that is too small for the glyph is enlarged first. */
  function FinalWidth(p: Page, pad: nat, m: nat, w: nat, h: nat): nat {
    if TooSmall(p, pad, w, h) then DoubleUntil(Max(p.width, 1), Max(p.width * 2, w + pad * 2), m)
    else p.width
  }

  function FirstHeight(p: Page, pad: nat, m: nat, w: nat, h: nat): nat {
    if TooSmall(p, pad, w, h) then DoubleUntil(Max(p.height, 1), Max(p.height * 2, h + pad * 2), m)
    else p.height
  }

  /** The glyph does not fit the rest of the current shelf. */
  predicate Wraps(p: Page, pad: nat, m: nat, w: nat, h: nat) {
    p.x + w + pad > FinalWidth(p, pad, m, w, h)
  }

  function PlaceX(p: Page, pad: nat, m: nat, w: nat, h: nat): nat {
    if Wraps(p, pad, m, w, h) then pad else p.x
  }

  function PlaceY(p: Page, pad: nat, m: nat, w: nat, h: nat): nat {
    if Wraps(p, pad, m, w, h) then p.y + (p.rowH + pad) else p.y
  }

  /** Growing within `m` makes the page large enough for the glyph, and high enough for its shelf. */
  predicate HasRoom(p: Page, pad: nat, m: nat, w: nat, h: nat) {
    var width, height := FinalWidth(p, pad, m, w, h), FirstHeight(p, pad, m, w, h);
    var need := PlaceY(p, pad, m, w, h) + h + pad;
    var last := DoubleUntil(Max(height, 1), need, m);
    && w + pad * 2 <= width && h + pad * 2 <= height
    && (TooSmall(p, pad, w, h) ==> width <= m && height <= m)
    && need <= last && (last == height || (last <= m && width <= m))
  }

  /** The page after a request that was met: large enough, and the cursor past the glyph on its shelf. */
  function After(p: Page, pad: nat, m: nat, w: nat, h: nat): Page {
    var y := PlaceY(p, pad, m, w, h);
    Page(FinalWidth(p, pad, m, w, h), DoubleUntil(Max(FirstHeight(p, pad, m, w, h), 1), y + h + pad, m),
         PlaceX(p, pad, m, w, h) + (w + pad), y, Max(if Wraps(p, pad, m, w, h) then 0 else p.rowH, h))
  }

  /** How a request turns out, and the page then. */
  datatype Turnout = Refused | Met(x: nat, y: nat, after: Page)

  function TurnoutOf(p: Page, pad: nat, m: nat, w: nat, h: nat): Turnout {
    if HasRoom(p, pad, m, w, h) then
      Met(PlaceX(p, pad, m, w, h), PlaceY(p, pad, m, w, h), After(p, pad, m, w, h))
    else Refused
  }

  /** The page after a growth, seen by the request that asked for it. */
  function Enlarged(p: Page, pad: nat, m: nat, w: nat, h: nat): Page {
    p.(width := FinalWidth(p, pad, m, w, h), height := FirstHeight(p, pad, m, w, h))
  }

  /** A page too small for the glyph that cannot be enlarged. */
  lemma {:induction false} StuckPage(p: Page, pad: nat, m: nat, w: nat, h: nat)
    requires TooSmall(p, pad, w, h)
    requires Enlarged(p, pad, m, w, h) == p || Enlarged(p, pad, m, w, h).width > m
             || Enlarged(p, pad, m, w, h).height > m
    ensures !HasRoom(p, pad, m, w, h)
  {
  }

  /** A page that is still too small after it was enlarged has reached the maximum. */
  lemma {:induction false} StillTooSmall(p: Page, pad: nat, m: nat, w: nat, h: nat)
    requires TooSmall(p, pad, w, h) && TooSmall(Enlarged(p, pad, m, w, h), pad, w, h)
    requires Enlarged(p, pad, m, w, h).width <= m && Enlarged(p, pad, m, w, h).height <= m
    ensures !HasRoom(p, pad, m, w, h) && !HasRoom(Enlarged(p, pad, m, w, h), pad, m, w, h)
  {
    var q := Enlarged(p, pad, m, w, h);
    if w + pad * 2 > q.width {
      assert q.width == m && FinalWidth(q, pad, m, w, h) == m;
    } else {
      assert q.height == m && FirstHeight(q, pad, m, w, h) == m;
    }
  }

  lemma {:induction false} LargeEnough(p: Page, pad: nat, m: nat, w: nat, h: nat)
    requires TooSmall(p, pad, w, h) && !TooSmall(Enlarged(p, pad, m, w, h), pad, w, h)
    requires Enlarged(p, pad, m, w, h).width <= m && Enlarged(p, pad, m, w, h).height <= m
    ensures TurnoutOf(Enlarged(p, pad, m, w, h), pad, m, w, h) == TurnoutOf(p, pad, m, w, h)
  {
  }

  /** The growth that a page too small for the glyph asks for decides nothing but refusal. */
  lemma {:induction false} TurnoutAfterGrowth(p: Page, pad: nat, m: nat, w: nat, h: nat)
    requires TooSmall(p, pad, w, h)
    ensures var q := Enlarged(p, pad, m, w, h);
            if q == p || q.width > m || q.height > m then TurnoutOf(p, pad, m, w, h) == Refused
            else TurnoutOf(q, pad, m, w, h) == TurnoutOf(p, pad, m, w, h)
  {
    var q := Enlarged(p, pad, m, w, h);
    if q == p || q.width > m || q.height > m {
      StuckPage(p, pad, m, w, h);
    } else if TooSmall(q, pad, w, h) {
      StillTooSmall(p, pad, m, w, h);
    } else {
      LargeEnough(p, pad, m, w, h);
    }
  }

  lemma {:induction false} TurnoutHere(p: Page, pad: nat, m: nat, w: nat, h: nat)
    requires w > 0 && h > 0 && !TooSmall(p, pad, w, h) && !Wraps(p, pad, m, w, h)
    requires p.y + h + pad <= p.height
    ensures TurnoutOf(p, pad, m, w, h) == Met(p.x, p.y, p.(x := p.x + (w + pad), rowH := Max(p.rowH, h)))
  {
  }

  /** A shelf that is too low for the glyph is given up for the next one. */
  function NextShelf(p: Page, pad: nat): Page {
    p.(x := pad, y := p.y + (p.rowH + pad), rowH := 0)
  }

  lemma {:induction false} TurnoutAfterWrap(p: Page, pad: nat, m: nat, w: nat, h: nat)
    requires w > 0 && h > 0 && !TooSmall(p, pad, w, h) && Wraps(p, pad, m, w, h)
    ensures var q := NextShelf(p, pad);
            && !TooSmall(q, pad, w, h) && !Wraps(q, pad, m, w, h)
            && TurnoutOf(q, pad, m, w, h) == TurnoutOf(p, pad, m, w, h)
  {
  }

  /** A page whose shelf lies too low is made higher, while it may be; the width must be within bounds. */
  lemma {:induction false} TurnoutAfterHeight(p: Page, pad: nat, m: nat, w: nat, h: nat)
    requires w > 0 && h > 0 && !TooSmall(p, pad, w, h) && !Wraps(p, pad, m, w, h)
    requires p.y + h + pad > p.height
    ensures var q := p.(height := 2 * p.height);
            if p.height >= m || q.height > m || p.width > m then TurnoutOf(p, pad, m, w, h) == Refused
            else
              && !TooSmall(q, pad, w, h) && !Wraps(q, pad, m, w, h)
              && TurnoutOf(q, pad, m, w, h) == TurnoutOf(p, pad, m, w, h)
  {
  }

  /** The largest size that doubling reaches within the maximum. */
  function Reach(size: nat, m: nat): (r: nat)
    requires size > 0
    ensures size <= r && 2 * r > m && (r <= m || r == size)
    decreases m - size
  {
    if 2 * size <= m then Reach(2 * size, m) else size
  }

  /** Doubling once more oversteps the maximum, or it is overstepped already. */
  predicate Stuck(size: nat, m: nat) {
    size != m && 2 * size > m
  }

  /** Along one axis, doubling within the maximum suffices exactly up to the reach. */
  lemma {:induction false} AxisReach(size: nat, least: nat, m: nat)
    requires 0 < size <= m
    ensures var r := DoubleUntil(size, least, m);
            && (least <= r <= m <==> least <= Reach(size, m))
            && (r <= m ==> Reach(r, m) == Reach(size, m))
    decreases m - size
  {
    if size < least && size < m && 2 * size <= m {
      AxisReach(2 * size, least, m);
    }
  }

  /** The first growth doubles both sizes at least once, if they are not at the maximum. */
  lemma {:induction false} FirstAxis(size: nat, need: nat, m: nat)
    requires need > 0
    ensures var r := DoubleUntil(Max(size, 1), Max(size * 2, need), m);
            && (need <= r <= m <==> need <= Reach(Max(size, 1), m) && !Stuck(Max(size, 1), m))
            && (r <= m ==> Reach(r, m) == Reach(Max(size, 1), m))
  {
    if Max(size, 1) <= m {
      AxisReach(Max(size, 1), Max(size * 2, need), m);
    }
  }

  /** The growth a request asks for oversteps the maximum, whatever the page could still become. */
  predicate Blocked(p: Page, pad: nat, m: nat, w: nat, h: nat) {
    || (TooSmall(p, pad, w, h) && (Stuck(Max(p.width, 1), m) || Stuck(Max(p.height, 1), m)))
    || (p.width > m && p.height < PlaceY(p, pad, m, w, h) + h + pad)
  }

  /** Glyph and shelf fit the largest page that doubling reaches, and the growth is not blocked. */
  predicate WithinReach(p: Page, pad: nat, m: nat, w: nat, h: nat) {
    var width, height := Reach(Max(p.width, 1), m), Reach(Max(p.height, 1), m);
    && w + pad * 2 <= width && h + pad * 2 <= height && PlaceY(p, pad, m, w, h) + h + pad <= height
    && !Blocked(p, pad, m, w, h)
  }

  lemma {:induction false} BothAxes(needW: nat, needH: nat, need: nat, width: nat, height: nat, last: nat,
                                    W: nat, H: nat, m: nat, stuckW: bool, stuckH: bool)
    requires needW <= width <= m <==> needW <= W && !stuckW
    requires needH <= height <= m <==> needH <= H && !stuckH
    requires height <= last && (height <= m ==> (need <= last <= m <==> need <= H))
    ensures needW <= width <= m && needH <= height <= m && need <= last && (last == height || last <= m)
       <==> needW <= W && needH <= H && need <= H && !stuckW && !stuckH
  {
  }

  /** Room on a page too small for the glyph, by the sizes it grows to. */
  lemma {:induction false} RoomBySizes(p: Page, pad: nat, m: nat, w: nat, h: nat)
    requires TooSmall(p, pad, w, h)
    ensures var width, height := FinalWidth(p, pad, m, w, h), FirstHeight(p, pad, m, w, h);
            var last := DoubleUntil(Max(height, 1), PlaceY(p, pad, m, w, h) + h + pad, m);
            (HasRoom(p, pad, m, w, h)
        <==> && w + pad * 2 <= width <= m && h + pad * 2 <= height <= m
             && PlaceY(p, pad, m, w, h) + h + pad <= last && (last == height || last <= m))
  {
  }

  lemma {:induction false} BlockedIfSmall(p: Page, pad: nat, m: nat, w: nat, h: nat)
    requires TooSmall(p, pad, w, h)
    ensures Blocked(p, pad, m, w, h) <==> Stuck(Max(p.width, 1), m) || Stuck(Max(p.height, 1), m)
  {
  }

  /** The height after the last growth: enough exactly up to the reach of the page's own height. */
  lemma {:induction false} LastAxis(size: nat, first: nat, need: nat, m: nat)
    requires size > 0 && first > 0 && (first <= m ==> Reach(first, m) == Reach(size, m))
    ensures var last := DoubleUntil(Max(first, 1), need, m);
            first <= last && (first <= m ==> (need <= last <= m <==> need <= Reach(size, m)))
  {
    if first <= m {
      AxisReach(first, need, m);
    }
  }

  /** The sizes grown to, for a first need along both axes and a last need of height. */
  lemma {:induction false} SizesSuffice(w0: nat, h0: nat, needW: nat, needH: nat, need: nat, m: nat)
    requires needW > 0 && needH > 0
    ensures var width, height := DoubleUntil(Max(w0, 1), Max(w0 * 2, needW), m),
                                 DoubleUntil(Max(h0, 1), Max(h0 * 2, needH), m);
            var last := DoubleUntil(Max(height, 1), need, m);
            (needW <= width <= m && needH <= height <= m && need <= last && (last == height || last <= m)
        <==> && needW <= Reach(Max(w0, 1), m) && needH <= Reach(Max(h0, 1), m) && need <= Reach(Max(h0, 1), m)
             && !Stuck(Max(w0, 1), m) && !Stuck(Max(h0, 1), m))
  {
    var width := DoubleUntil(Max(w0, 1), Max(w0 * 2, needW), m);
    var height := DoubleUntil(Max(h0, 1), Max(h0 * 2, needH), m);
    FirstAxis(w0, needW, m);
    FirstAxis(h0, needH, m);
    LastAxis(Max(h0, 1), height, need, m);
    BothAxes(needW, needH, need, width, height, DoubleUntil(Max(height, 1), need, m),
             Reach(Max(w0, 1), m), Reach(Max(h0, 1), m), m, Stuck(Max(w0, 1), m), Stuck(Max(h0, 1), m));
  }

  lemma {:induction false} RoomIfSmall(p: Page, pad: nat, m: nat, w: nat, h: nat)
    requires w > 0 && h > 0 && TooSmall(p, pad, w, h)
    ensures HasRoom(p, pad, m, w, h) <==> WithinReach(p, pad, m, w, h)
  {
    var need := PlaceY(p, pad, m, w, h) + h + pad;
    RoomBySizes(p, pad, m, w, h);
    BlockedIfSmall(p, pad, m, w, h);
    SizesSuffice(p.width, p.height, w + pad * 2, h + pad * 2, need, m);
  }

  lemma {:induction false} RoomIfLarge(p: Page, pad: nat, m: nat, w: nat, h: nat)
    requires w > 0 && h > 0 && !TooSmall(p, pad, w, h)
    ensures HasRoom(p, pad, m, w, h) <==> WithinReach(p, pad, m, w, h)
  {
    if p.height <= m {
      AxisReach(p.height, PlaceY(p, pad, m, w, h) + h + pad, m);
    }
  }

  /**
    * For any sizes: a request is met if and only if the glyph and its shelf fit the largest page that
    * doubling reaches, and the growth it asks for does not overstep the maximum.
    */
  lemma {:induction false} RoomIff(p: Page, pad: nat, m: nat, w: nat, h: nat)
    requires w > 0 && h > 0
    ensures HasRoom(p, pad, m, w, h) <==> WithinReach(p, pad, m, w, h)
  {
    if TooSmall(p, pad, w, h) {
      RoomIfSmall(p, pad, m, w, h);
    } else {
      RoomIfLarge(p, pad, m, w, h);
    }
  }

  lemma {:induction false} ReachWhenDoubling(size: nat, m: nat)
    requires size > 0 && DoublesTo(size, m)
    ensures Reach(size, m) == m && size <= m && !Stuck(size, m)
    decreases m - size
  {
    if size < m {
      ReachWhenDoubling(2 * size, m);
    }
  }

  /** When doubling the size reaches the maximum exactly, the maximum alone decides. */
  lemma {:induction false} RoomWhenDoubling(p: Page, pad: nat, m: nat, w: nat, h: nat)
    requires w > 0 && h > 0 && p.width > 0 && p.height > 0
    requires DoublesTo(p.width, m) && DoublesTo(p.height, m)
    ensures HasRoom(p, pad, m, w, h)
       <==> w + pad * 2 <= m && h + pad * 2 <= m && PlaceY(p, pad, m, w, h) + h + pad <= m
  {
    ReachWhenDoubling(p.width, m);
    ReachWhenDoubling(p.height, m);
    RoomIff(p, pad, m, w, h);
  }

  /** The page at the largest size that doubling reaches, with the same cursor. */
  function Largest(p: Page, m: nat): Page {
    p.(width := Reach(Max(p.width, 1), m), height := Reach(Max(p.height, 1), m))
  }

  /** The largest page has room when the glyph fits it and, on this shelf or the next, its height. */
  lemma {:induction false} LargestHasRoom(p: Page, pad: nat, m: nat, w: nat, h: nat)
    requires w > 0 && h > 0
    ensures var q := Largest(p, m);
            (HasRoom(q, pad, m, w, h)
        <==> w + pad * 2 <= q.width && h + pad * 2 <= q.height
             && (if p.x + w + pad > q.width then p.y + (p.rowH + pad) else p.y) + h + pad <= q.height)
  {
    RoomIff(Largest(p, m), pad, m, w, h);
  }

  /**
    * Exactly when a refusal means what is documented, that the largest page had no room either. It does
    * not if that page has room and yet the growth asked for oversteps the maximum, or the glyph leaves a
    * shelf that only the largest width would have held it on, for one that lies too low.
    */
  lemma {:induction false} RefusalIsFinalIff(p: Page, pad: nat, m: nat, w: nat, h: nat)
    requires w > 0 && h > 0
    ensures var q := Largest(p, m);
            ((!HasRoom(p, pad, m, w, h) ==> !HasRoom(q, pad, m, w, h))
        <==> !(&& w + pad * 2 <= q.width && h + pad * 2 <= q.height
               && (if p.x + w + pad > q.width then p.y + (p.rowH + pad) else p.y) + h + pad <= q.height
               && (Blocked(p, pad, m, w, h) || PlaceY(p, pad, m, w, h) + h + pad > q.height)))
  {
    RoomIff(p, pad, m, w, h);
    LargestHasRoom(p, pad, m, w, h);
  }

  /** Padding 1, maximum 8, an initial page of 4: the third glyph of 2 by 2 is refused. */
  lemma {:induction false} ThirdRefused()
    ensures TurnoutOf(Page(4, 4, 1, 1, 0), 1, 8, 2, 2) == Met(1, 1, Page(4, 4, 4, 1, 2))
    ensures TurnoutOf(Page(4, 4, 4, 1, 2), 1, 8, 2, 2) == Met(1, 4, Page(4, 8, 4, 4, 2))
    ensures TurnoutOf(Page(4, 8, 4, 4, 2), 1, 8, 2, 2) == Refused
    ensures TurnoutOf(Page(8, 8, 4, 4, 2), 1, 8, 2, 2) == Met(4, 4, Page(8, 8, 7, 4, 2))
  {
    assert DoubleUntil(4, 4, 8) == 4 && DoubleUntil(4, 7, 8) == 8;
    assert DoubleUntil(8, 10, 8) == 8 && DoubleUntil(8, 7, 8) == 8;
  }

  /**
    * A refusal while the width could still grow: of three glyphs packed into a new atlas, the last is
    * refused on a page of half the largest width; on `page` at that width it would have been met.
    */
  method RefusedThoughWidthCouldGrow() returns (atlas: Atlas, r: Region, ghost page: Page)
    ensures fresh(atlas) && atlas.Valid() && |atlas.placed| == 2
    ensures !r.ok && page.width == 4 && atlas.maxSize == 8
    ensures !HasRoom(page, atlas.padding, 8, 2, 2) && HasRoom(page.(width := 8), atlas.padding, 8, 2, 2)
  {
    ThirdRefused();
    atlas := new Atlas(Grayscale, 1, 4, 8);
    r := atlas.Pack(2, 2, None);
    r := atlas.Pack(2, 2, None);
    page := atlas.ThisPage();
    r := atlas.Pack(2, 2, None);
  }

  class Atlas {
    const format: Format
    const padding: nat
    const maxSize: nat
    const initialSize: nat
    var width: nat
    var height: nat
    var cursorX: nat
    var cursorY: nat
    var rowH: nat
    var generation: nat
    var layoutGeneration: nat
    var pixels: Bytes
    /** Everything packed or reserved since the page was last emptied. */
    ghost var placed: seq<Placed>

    function Stride(): nat
      reads this
    {
      Cols(format, width)
    }

    /** The cursor after the clamping that `reserve` begins with. */
    function CursorX(): nat
      reads this
    {
      Max(cursorX, padding)
    }

    function CursorY(): nat
      reads this
    {
      Max(cursorY, padding)
    }

    ghost predicate Valid()
      reads this
    {
      && |pixels| == RowStart(height, Stride())
      && AllInBounds(placed, padding, width, height)
      && AllApart(placed, padding)
      && AllBehind(placed, padding, CursorX(), CursorY(), rowH)
      && AllShown(pixels, Stride(), format, placed)
      && BlankAhead(pixels, Stride(), height, format, CursorX(), CursorY(), rowH)
    }

    /**
      * How the page may have changed since a past state: it never shrank; equal layout generations
      * mean equal size, so old places still hold; equal generations mean equal pixels; and sizes that
      * double to the maximum still do.
      */
    ghost predicate Since(width0: nat, height0: nat, gen0: nat, layout0: nat, pixels0: Bytes)
      reads this
    {
      && width0 <= width && height0 <= height
      && gen0 <= generation && layout0 <= layoutGeneration
      && (layoutGeneration == layout0 ==> width == width0 && height == height0)
      && (generation == gen0 ==> pixels == pixels0)
      && (DoublesTo(width0, maxSize) && DoublesTo(height0, maxSize) ==> Doubling())
    }

    ghost predicate Doubling()
      reads this
    {
      DoublesTo(width, maxSize) && DoublesTo(height, maxSize)
    }

    constructor (format: Format, padding: nat, initialSize: nat, maxSize: nat)
      ensures Valid() && placed == []
      ensures this.format == format && this.padding == padding && this.maxSize == maxSize
      ensures this.initialSize == initialSize == width == height
      ensures cursorX == cursorY == 1 && rowH == 0 && generation == layoutGeneration == 1
      ensures |pixels| == ByteCount(format, width, height)
    {
      RowsFillPage(format, initialSize, initialSize);
      this.format, this.padding, this.maxSize, this.initialSize :=
        format, padding, maxSize, initialSize;
      width, height, cursorX, cursorY, rowH := initialSize, initialSize, 1, 1, 0;
      generation, layoutGeneration := 1, 1;
      pixels := Zeros(RowStart(initialSize, Cols(format, initialSize)));
      placed := [];
    }

    method ResetEmpty()
      modifies this
      ensures Valid() && placed == []
      ensures width == height == Max(initialSize, 1)
      ensures cursorX == cursorY == padding && rowH == 0
      ensures |pixels| == ByteCount(format, width, height)
      ensures generation == old(generation) && layoutGeneration == old(layoutGeneration)
    {
      width := Max(initialSize, 1);
      height := Max(initialSize, 1);
      cursorX, cursorY, rowH := padding, padding, 0;
      pixels := Zeros(RowStart(height, Stride()));
      placed := [];
      RowsFillPage(format, width, height);
    }

    method Clear()
      modifies this
      ensures Valid() && placed == [] && width == height == Max(initialSize, 1)
      ensures generation == old(generation) + 1 && layoutGeneration == old(layoutGeneration) + 1
    {
      ResetEmpty();
      generation := generation + 1;
      layoutGeneration := layoutGeneration + 1;
    }

    /** One axis of `grow_`: doubled until it suffices or reaches the maximum. */
    method Doubled(size: nat, least: nat) returns (r: nat)
      requires size > 0
      ensures r == DoubleUntil(size, least, maxSize)
    {
      r := size;
      while r < least && r < maxSize
        invariant r > 0 && DoubleUntil(r, least, maxSize) == DoubleUntil(size, least, maxSize)
        decreases maxSize - r
      {
        r := r * 2;
      }
    }

    /** The sizes `grow_` aims at. */
    function GrownWidth(minW: nat): nat
      reads this
    {
      DoubleUntil(Max(width, 1), minW, maxSize)
    }

    function GrownHeight(minH: nat): nat
      reads this
    {
      DoubleUntil(Max(height, 1), minH, maxSize)
    }

    /** Enlarges the page and re-blits it; refuses, changing nothing, when it cannot. */
    method Grow(minW: nat, minH: nat) returns (ok: bool)
      requires Valid()
      modifies `width, `height, `pixels, `generation, `layoutGeneration
      ensures Valid()
      ensures ok <==>
        && (old(GrownWidth(minW)) != old(width) || old(GrownHeight(minH)) != old(height))
        && old(GrownWidth(minW)) <= maxSize && old(GrownHeight(minH)) <= maxSize
      ensures ok ==> width == old(GrownWidth(minW)) && height == old(GrownHeight(minH))
      ensures ok ==> old(width) + old(height) < width + height
      ensures ok ==> |pixels| == ByteCount(format, width, height)
      ensures ok ==> generation > old(generation) && layoutGeneration > old(layoutGeneration)
      ensures !ok ==> width == old(width) && height == old(height) && pixels == old(pixels)
      ensures !ok ==> generation == old(generation) && layoutGeneration == old(layoutGeneration)
      ensures Since(old(width), old(height), old(generation), old(layoutGeneration), old(pixels))
    {
      var newW := Doubled(Max(width, 1), minW);
      var newH := Doubled(Max(height, 1), minH);
      if newW == width && newH == height {
        return false;
      }
      if newW > maxSize || newH > maxSize {
        return false;
      }
      SizesDouble(width, height, minW, minH);
      Reblit(newW, newH);
      RowsFillPage(format, width, height);
      ok := true;
    }

    lemma {:induction false} SizesDouble(w: nat, h: nat, minW: nat, minH: nat)
      ensures DoublesTo(w, maxSize) && DoublesTo(h, maxSize) && w > 0 && h > 0 ==>
        && DoublesTo(DoubleUntil(Max(w, 1), minW, maxSize), maxSize)
        && DoublesTo(DoubleUntil(Max(h, 1), minH, maxSize), maxSize)
    {
      if DoublesTo(w, maxSize) && DoublesTo(h, maxSize) && w > 0 && h > 0 {
        DoublingStays(w, minW, maxSize);
        DoublingStays(h, minH, maxSize);
      }
    }

    /** Copies the page's rows into the corner of a larger blank page, a new generation of it. */
    method Reblit(newW: nat, newH: nat)
      requires Valid() && width <= newW && height <= newH
      modifies `width, `height, `pixels, `generation, `layoutGeneration
      ensures Valid() && width == newW && height == newH
      ensures generation == old(generation) + 1 && layoutGeneration == old(layoutGeneration) + 1
    {
      var zeros := Zeros(RowStart(newH, Cols(format, newW)));
      ColsMonotone(format, 0, width, newW);
      var grown := Blit(zeros, Cols(format, newW), newH, 0, 0, Stride(), height, pixels);
      GrownKeeps(zeros, pixels, grown, format, width, height, newW, newH, padding, placed,
                 CursorX(), CursorY(), rowH);
      width, height, pixels := newW, newH, grown;
      generation := generation + 1;
      layoutGeneration := layoutGeneration + 1;
    }

    function ThisPage(): Page
      reads this
    {
      Page(width, height, CursorX(), CursorY(), rowH)
    }

    /** A request for `w` by `h` pixels can be met. */
    predicate Fits(w: nat, h: nat)
      reads this
    {
      HasRoom(ThisPage(), padding, maxSize, w, h)
    }

    /** How it turns out: refused, or where it is met and what the page then is. */
    function Outcome(w: nat, h: nat): (t: Turnout)
      reads this
      ensures t.Met? <==> Fits(w, h)
    {
      TurnoutOf(ThisPage(), padding, maxSize, w, h)
    }

    /**
      * Claims the next free place for `w` by `h` pixels, wrapping and growing as needed. A refused
      * request moves no region and loses no pixel, but it may have left the current shelf for the next.
      */
    method Reserve(w: nat, h: nat) returns (r: Region)
      requires Valid()
      modifies this
      ensures Valid()
      ensures w == 0 || h == 0 ==> r == Region(true, 0, 0) && unchanged(this)
      ensures w > 0 && h > 0 ==> (r.ok <==> old(Fits(w, h)))
      ensures w > 0 && h > 0 && r.ok ==> Met(r.x, r.y, ThisPage()) == old(Outcome(w, h))
      ensures w > 0 && h > 0 && r.ok ==>
        placed == old(placed) + [Placed(r.x, r.y, w, h, Zeros(RowStart(h, Cols(format, w))))]
      ensures !r.ok ==> placed == old(placed) && !Fits(w, h)
      ensures Since(old(width), old(height), old(generation), old(layoutGeneration), old(pixels))
    {
      if w == 0 || h == 0 {
        return Region(true, 0, 0);
      }
      cursorX, cursorY := Max(cursorX, padding), Max(cursorY, padding);
      while true
        invariant Valid() && cursorX >= padding && cursorY >= padding && placed == old(placed)
        invariant Outcome(w, h) == old(Outcome(w, h))
        invariant Since(old(width), old(height), old(generation), old(layoutGeneration), old(pixels))
        decreases 2 * maxSize - width - height
      {
        var retry;
        retry, r := Attempt(w, h);
        if !retry {
          return;
        }
      }
    }

    /** One round of `reserve`'s loop: grow and try again, wrap and place, or refuse. */
    method Attempt(w: nat, h: nat) returns (retry: bool, r: Region)
      requires Valid() && cursorX >= padding && cursorY >= padding && w > 0 && h > 0
      modifies this
      ensures Valid() && cursorX >= padding && cursorY >= padding
      ensures retry ==> placed == old(placed) && width <= maxSize && height <= maxSize
      ensures retry ==> old(width) + old(height) < width + height
      ensures retry ==> Outcome(w, h) == old(Outcome(w, h))
      ensures !retry ==> old(Outcome(w, h)) == if r.ok then Met(r.x, r.y, ThisPage()) else Refused
      ensures !retry && !r.ok ==> placed == old(placed) && Outcome(w, h) == Refused
      ensures !retry && r.ok ==>
        placed == old(placed) + [Placed(r.x, r.y, w, h, Zeros(RowStart(h, Cols(format, w))))]
      ensures Since(old(width), old(height), old(generation), old(layoutGeneration), old(pixels))
    {
      retry, r := false, Region(false, 0, 0);
      var needW, needH := w + padding * 2, h + padding * 2;
      if needW > width || needH > height {
        retry := Enlarge(w, h);
        return;
      }
      retry, r := Shelve(w, h);
    }

    /** The rest of a round, once the page is large enough for the glyph. */
    method Shelve(w: nat, h: nat) returns (retry: bool, r: Region)
      requires Valid() && cursorX >= padding && cursorY >= padding && w > 0 && h > 0
      requires !TooSmall(ThisPage(), padding, w, h)
      modifies this
      ensures Valid() && cursorX >= padding && cursorY >= padding
      ensures retry ==> width <= maxSize && height <= maxSize
      ensures retry ==> old(width) + old(height) < width + height
      ensures retry ==> Outcome(w, h) == old(Outcome(w, h))
      ensures !retry ==> old(Outcome(w, h)) == if r.ok then Met(r.x, r.y, ThisPage()) else Refused
      ensures !retry && !r.ok ==> Outcome(w, h) == Refused
      ensures placed == old(placed) + if retry || !r.ok then []
        else [Placed(r.x, r.y, w, h, Zeros(RowStart(h, Cols(format, w))))]
      ensures Since(old(width), old(height), old(generation), old(layoutGeneration), old(pixels))
    {
      if cursorX + w + padding > width {
        WrapFor(w, h);
      }
      retry, r := OnShelf(w, h);
    }

    /** The end of a round: the shelf takes the glyph, unless it lies too low. */
    method OnShelf(w: nat, h: nat) returns (retry: bool, r: Region)
      requires Valid() && cursorX >= padding && cursorY >= padding && w > 0 && h > 0
      requires !TooSmall(ThisPage(), padding, w, h) && !Wraps(ThisPage(), padding, maxSize, w, h)
      modifies this
      ensures Valid() && cursorX >= padding && cursorY >= padding
      ensures retry ==> width <= maxSize && height <= maxSize
      ensures retry ==> old(width) + old(height) < width + height
      ensures retry ==> Outcome(w, h) == old(Outcome(w, h))
      ensures !retry ==> old(Outcome(w, h)) == if r.ok then Met(r.x, r.y, ThisPage()) else Refused
      ensures !retry && !r.ok ==> Outcome(w, h) == Refused
      ensures placed == old(placed) + if retry || !r.ok then []
        else [Placed(r.x, r.y, w, h, Zeros(RowStart(h, Cols(format, w))))]
      ensures Since(old(width), old(height), old(generation), old(layoutGeneration), old(pixels))
    {
      retry, r := false, Region(false, 0, 0);
      if cursorY + h + padding > height {
        retry := Heighten(w, h);
        return;
      }
      TurnoutHere(ThisPage(), padding, maxSize, w, h);
      r := Place(w, h);
    }

    /** The wrap of a round, which changes neither whether nor where the request is met. */
    method WrapFor(w: nat, h: nat)
      requires Valid() && cursorX >= padding && cursorY >= padding && w > 0 && h > 0
      requires !TooSmall(ThisPage(), padding, w, h) && Wraps(ThisPage(), padding, maxSize, w, h)
      modifies `cursorX, `cursorY, `rowH
      ensures Valid() && cursorX >= padding && cursorY >= padding
      ensures !TooSmall(ThisPage(), padding, w, h) && !Wraps(ThisPage(), padding, maxSize, w, h)
      ensures Outcome(w, h) == old(Outcome(w, h))
    {
      TurnoutAfterWrap(ThisPage(), padding, maxSize, w, h);
      ghost var page := NextShelf(ThisPage(), padding);
      Wrap();
      assert ThisPage() == page;
    }

    /** The first growth of a round: the page is too small for the glyph. */
    method Enlarge(w: nat, h: nat) returns (retry: bool)
      requires Valid() && w > 0 && h > 0 && TooSmall(ThisPage(), padding, w, h)
      modifies `width, `height, `pixels, `generation, `layoutGeneration
      ensures Valid()
      ensures retry ==> width <= maxSize && height <= maxSize
      ensures retry ==> old(width) + old(height) < width + height
      ensures Outcome(w, h) == old(Outcome(w, h)) && (!retry ==> Outcome(w, h) == Refused)
      ensures Since(old(width), old(height), old(generation), old(layoutGeneration), old(pixels))
    {
      ghost var page, larger := ThisPage(), Enlarged(ThisPage(), padding, maxSize, w, h);
      TurnoutAfterGrowth(page, padding, maxSize, w, h);
      retry := Grow(Max(width * 2, w + padding * 2), Max(height * 2, h + padding * 2));
      assert ThisPage() == if retry then larger else page;
    }

    /** The second growth of a round: the shelf lies too low. */
    method Heighten(w: nat, h: nat) returns (retry: bool)
      requires Valid() && w > 0 && h > 0 && cursorX >= padding && cursorY >= padding
      requires !TooSmall(ThisPage(), padding, w, h) && !Wraps(ThisPage(), padding, maxSize, w, h)
      requires cursorY + h + padding > height
      modifies `width, `height, `pixels, `generation, `layoutGeneration
      ensures Valid()
      ensures retry ==> width <= maxSize && height <= maxSize
      ensures retry ==> old(width) + old(height) < width + height
      ensures Outcome(w, h) == old(Outcome(w, h)) && (!retry ==> Outcome(w, h) == Refused)
      ensures Since(old(width), old(height), old(generation), old(layoutGeneration), old(pixels))
    {
      ghost var page := ThisPage();
      TurnoutAfterHeight(page, padding, maxSize, w, h);
      retry := Grow(width, height * 2);
      if retry {
        assert ThisPage() == page.(height := 2 * page.height);
      }
    }

    /** Starts a new shelf below the current one. */
    method Wrap()
      requires Valid() && cursorX >= padding && cursorY >= padding
      modifies `cursorX, `cursorY, `rowH
      ensures Valid() && cursorX == padding && cursorY == old(cursorY + rowH) + padding && rowH == 0
    {
      WrapKeeps(pixels, Stride(), height, format, placed, padding, cursorX, cursorY, rowH);
      cursorX, cursorY, rowH := padding, cursorY + (rowH + padding), 0;
    }

    /** Takes the place at the cursor, where it is known to fit. */
    method Place(w: nat, h: nat) returns (r: Region)
      requires Valid() && cursorX >= padding && cursorY >= padding
      requires cursorX + w + padding <= width && cursorY + h + padding <= height
      modifies `cursorX, `rowH, `placed
      ensures Valid() && r == Region(true, old(cursorX), cursorY)
      ensures cursorX == old(cursorX) + w + padding && rowH == Max(old(rowH), h)
      ensures placed == old(placed) + [Placed(r.x, r.y, w, h, Zeros(RowStart(h, Cols(format, w))))]
    {
      ghost var p := Placed(cursorX, cursorY, w, h, Zeros(RowStart(h, Cols(format, w))));
      PlaceKeeps(pixels, width, height, format, placed, padding, cursorX, cursorY, rowH, p);
      r := Region(true, cursorX, cursorY);
      cursorX := cursorX + (w + padding);
      rowH := Max(rowH, h);
      placed := placed + [p];
    }

    /** Writes `src` over a rectangle of the page. */
    method CopyInto(x: nat, y: nat, w: nat, h: nat, src: Bytes)
      requires |pixels| == RowStart(height, Stride()) && x + w <= width && y + h <= height
      requires |src| == RowStart(h, Cols(format, w))
      modifies `pixels, `generation
      ensures Blitted(old(pixels), pixels, Stride(), height, Cols(format, x), y, Cols(format, w), h, src)
      ensures generation == old(generation) + 1
    {
      ColsMonotone(format, x, w, width);
      pixels := Blit(pixels, Stride(), height, Cols(format, x), y, Cols(format, w), h, src);
      generation := generation + 1;
    }

    /**
      * Packs a bitmap (or only reserves its place, without one). On success the page shows the bitmap
      * at the returned place, and still shows everything packed before.
      */
    method Pack(w: nat, h: nat, bytes: Option<Bytes>) returns (r: Region)
      requires Valid()
      requires bytes.Some? ==> |bytes.value| == RowStart(h, Cols(format, w))
      modifies this
      ensures Valid()
      ensures w == 0 || h == 0 ==> r == Region(true, 0, 0) && unchanged(this)
      ensures w > 0 && h > 0 ==> (r.ok <==> old(Fits(w, h)))
      ensures w > 0 && h > 0 && r.ok ==> Met(r.x, r.y, ThisPage()) == old(Outcome(w, h))
      ensures w > 0 && h > 0 && r.ok ==>
        placed == old(placed) + [Placed(r.x, r.y, w, h,
          if bytes.Some? then bytes.value else Zeros(RowStart(h, Cols(format, w))))]
      ensures !r.ok ==> placed == old(placed) && !Fits(w, h)
      ensures Since(old(width), old(height), old(generation), old(layoutGeneration), old(pixels))
    {
      r := Reserve(w, h);
      if !r.ok || w == 0 || h == 0 || bytes == None {
        return;
      }
      LastDropped(old(placed), Placed(r.x, r.y, w, h, Zeros(RowStart(h, Cols(format, w)))));
      FillLast(r.x, r.y, w, h, bytes.value);
    }

    static lemma {:induction false} LastDropped(ps: seq<Placed>, p: Placed)
      ensures (ps + [p])[..|ps|] == ps && (ps + [p])[|ps|] == p
    {
    }

    /** The copy of `pack`, onto the place reserved last. */
    method FillLast(x: nat, y: nat, w: nat, h: nat, src: Bytes)
      requires Valid() && placed != []
      requires var p := placed[|placed| - 1]; p.x == x && p.y == y && p.w == w && p.h == h
      requires |src| == RowStart(h, Cols(format, w))
      modifies `pixels, `generation, `placed
      ensures Valid() && generation == old(generation) + 1
      ensures placed == old(placed[..|placed| - 1]) + [Placed(x, y, w, h, src)]
    {
      ghost var was := pixels;
      assert InBounds(placed[|placed| - 1], padding, width, height);
      CopyInto(x, y, w, h, src);
      CopyKeeps(was, pixels, width, height, format, placed, padding, CursorX(), CursorY(), rowH, src);
      placed := placed[..|placed| - 1] + [Placed(x, y, w, h, src)];
    }

    /** The first `n` live items are where the page and their glyphs say. */
    ghost predicate Rebuilt(live: seq<Item>, n: nat)
      requires n <= |live|
      reads this, GlyphsOf(live)
    {
      Valid() && Repacked(live, n, placed) && Told(live, n, placed, Positions(live))
    }

    /** Why a rebuild stops at an item: no glyph, or a bitmap of the wrong size, or no room for it. */
    ghost predicate Stops(item: Item)
      reads this
    {
      || item.glyph == null
      || (!Empty(item) && |item.pixels| != RowStart(item.height, Cols(format, item.width)))
      || (!Empty(item) && !Fits(item.width, item.height))
    }

    /**
      * Empties the page and repacks the live bitmaps in order, telling each glyph its new place. When
      * it succeeds, the non-empty items are exactly what the page then shows; when it does not, that
      * holds of the items before the one it stopped at.
      */
    method RebuildFromLive(live: seq<Item>) returns (ok: bool, ghost done: nat)
      modifies this, GlyphsOf(live)
      ensures done <= |live| && Rebuilt(live, done)
      ensures ok ==> done == |live|
      ensures !ok ==> done < |live| && Stops(live[done])
    {
      ResetEmpty();
      generation := generation + 1;
      layoutGeneration := layoutGeneration + 1;
      ok, done := RepackAll(live);
    }

    method RepackAll(live: seq<Item>) returns (ok: bool, ghost done: nat)
      requires Valid() && placed == []
      modifies this, GlyphsOf(live)
      ensures done <= |live| && Rebuilt(live, done)
      ensures ok ==> done == |live|
      ensures !ok ==> done < |live| && Stops(live[done])
    {
      ok, done := true, 0;
      var k := 0;
      while k < |live|
        invariant 0 <= k == done <= |live| && Rebuilt(live, k)
      {
        ok := RepackNext(live, k);
        if !ok {
          return;
        }
        k := k + 1;
        done := k;
      }
    }

    /** The loop body: item `k` takes its place, and its glyph learns it. */
    method RepackNext(live: seq<Item>, k: nat) returns (ok: bool)
      requires k < |live| && Rebuilt(live, k)
      modifies this, GlyphsOf(live)
      ensures Rebuilt(live, if ok then k + 1 else k)
      ensures !ok ==> Stops(live[k])
    {
      ghost var before, at := placed, Positions(live);
      ok := RepackOne(live[k]);
      if ok {
        RepackStep(live, k, before, placed);
        ToldStep(live, k, before, placed, at, Positions(live));
      } else {
        assert Positions(live) == at;
      }
    }

    /** One item of the rebuild: refused, put at the origin when empty, or packed. */
    method RepackOne(item: Item) returns (ok: bool)
      requires Valid()
      modifies this, item.glyph
      ensures Valid()
      ensures ok ==> item.glyph != null && TookPlace(item, old(placed), placed)
      ensures ok ==> (item.glyph.atlasX, item.glyph.atlasY) == PlaceOf(item, placed)
      ensures !ok ==> placed == old(placed) && Stops(item)
      ensures !ok && item.glyph != null ==> unchanged(item.glyph)
    {
      if item.glyph == null {
        return false;
      }
      if item.width == 0 || item.height == 0 {
        item.glyph.atlasX := 0;
        item.glyph.atlasY := 0;
        return true;
      }
      if |item.pixels| != RowStart(item.height, Cols(format, item.width)) {
        return false;
      }
      var r := Pack(item.width, item.height, Some(item.pixels));
      if !r.ok {
        return false;
      }
      item.glyph.atlasX := r.x;
      item.glyph.atlasY := r.y;
      return true;
    }
  }

  // ----- Repacking -----

  class Glyph {
    var atlasX: nat
    var atlasY: nat
  }

  datatype Item = Item(glyph: Glyph?, pixels: Bytes, width: nat, height: nat)

  predicate Empty(item: Item) {
    item.width == 0 || item.height == 0
  }

  function GlyphsOf(live: seq<Item>): set<Glyph> {
    set i | 0 <= i < |live| && live[i].glyph != null :: live[i].glyph
  }

  /** How many of the first `i` items take a place: the index of item `i` among the placed. */
  function Slot(live: seq<Item>, i: nat): nat
    requires i <= |live|
  {
    if i == 0 then 0 else Slot(live, i - 1) + if Empty(live[i - 1]) then 0 else 1
  }

  /** The item was appended with its size and bytes; an empty item takes no place. */
  ghost predicate TookPlace(item: Item, before: seq<Placed>, after: seq<Placed>) {
    if Empty(item) then after == before
    else
      && |after| == |before| + 1 && after[..|before|] == before
      && var p := after[|before|];
         p.w == item.width && p.h == item.height && p.bytes == item.pixels
  }

  /** Where an item just packed lies; an empty one at the origin. */
  ghost function PlaceOf(item: Item, ps: seq<Placed>): (nat, nat)
    requires !Empty(item) ==> ps != []
  {
    if Empty(item) then (0, 0) else (ps[|ps| - 1].x, ps[|ps| - 1].y)
  }

  /** Item `i` has its glyph and, unless it is empty, took its place. */
  ghost predicate RepackedAt(live: seq<Item>, i: nat, ps: seq<Placed>)
    requires i < |live|
  {
    && live[i].glyph != null
    && (!Empty(live[i]) ==>
          && Slot(live, i) < |ps|
          && var p := ps[Slot(live, i)];
             p.w == live[i].width && p.h == live[i].height && p.bytes == live[i].pixels)
  }

  /** The first `n` items have glyphs, and the non-empty ones took their places in order. */
  ghost predicate Repacked(live: seq<Item>, n: nat, ps: seq<Placed>)
    requires n <= |live|
  {
    && |ps| == Slot(live, n)
    && forall i {:trigger RepackedAt(live, i, ps)} :: 0 <= i < n ==> RepackedAt(live, i, ps)
  }

  /** No later item among the first `n` tells the same glyph another place. */
  ghost predicate LastOfGlyph(live: seq<Item>, i: nat, n: nat)
    requires i < |live| && n <= |live|
  {
    forall j {:trigger live[j]} :: i < j < n ==> live[j].glyph != live[i].glyph
  }

  /** What the glyphs say about their places. */
  ghost function Positions(live: seq<Item>): map<Glyph, (nat, nat)>
    reads GlyphsOf(live)
  {
    map g | g in GlyphsOf(live) :: (g.atlasX, g.atlasY)
  }

  /** Each glyph knows the place of the last item that named it. */
  ghost predicate Told(live: seq<Item>, n: nat, ps: seq<Placed>, at: map<Glyph, (nat, nat)>)
    requires n <= |live|
  {
    forall i {:trigger LastOfGlyph(live, i, n)} :: 0 <= i < n && LastOfGlyph(live, i, n) ==>
      && live[i].glyph != null && live[i].glyph in at
      && at[live[i].glyph] == SlotPlace(live, i, ps)
  }

  ghost function SlotPlace(live: seq<Item>, i: nat, ps: seq<Placed>): (nat, nat)
    requires i < |live|
  {
    if Empty(live[i]) || Slot(live, i) >= |ps| then (0, 0)
    else (ps[Slot(live, i)].x, ps[Slot(live, i)].y)
  }

  lemma {:induction false} SlotsIncrease(live: seq<Item>, i: nat, j: nat)
    requires i < j <= |live| && !Empty(live[i])
    ensures Slot(live, i) < Slot(live, j)
    decreases j
  {
    if i + 1 < j {
      SlotsIncrease(live, i, j - 1);
    }
  }

  lemma {:induction false} ToldStep(live: seq<Item>, k: nat, before: seq<Placed>, after: seq<Placed>,
                                    at: map<Glyph, (nat, nat)>, at': map<Glyph, (nat, nat)>)
    requires k < |live| && live[k].glyph != null && live[k].glyph in at'
    requires Repacked(live, k, before) && TookPlace(live[k], before, after)
    requires Told(live, k, before, at)
    requires at'[live[k].glyph] == PlaceOf(live[k], after)
    requires forall g {:trigger at[g]} :: g in at && g != live[k].glyph ==> g in at' && at'[g] == at[g]
    ensures Told(live, k + 1, after, at')
  {
    forall i | 0 <= i < k + 1 && LastOfGlyph(live, i, k + 1)
      ensures live[i].glyph != null && live[i].glyph in at'
      ensures at'[live[i].glyph] == SlotPlace(live, i, after)
    {
      if i < k {
        assert LastOfGlyph(live, i, k) && live[k].glyph != live[i].glyph;
        assert at[live[i].glyph] == SlotPlace(live, i, before);
        if !Empty(live[i]) {
          SlotsIncrease(live, i, k);
          EarlierPlace(live[k], before, after, Slot(live, i));
        }
      }
    }
  }

  lemma {:induction false} EarlierPlace(item: Item, before: seq<Placed>, after: seq<Placed>, i: nat)
    requires TookPlace(item, before, after) && i < |before|
    ensures i < |after| && after[i] == before[i]
  {
    assert !Empty(item) ==> after[..|before|][i] == before[i];
  }

  lemma {:induction false} RepackedStays(live: seq<Item>, k: nat, i: nat, before: seq<Placed>, after: seq<Placed>)
    requires i < k < |live| && RepackedAt(live, i, before)
    requires |before| == Slot(live, k) && TookPlace(live[k], before, after)
    ensures RepackedAt(live, i, after)
  {
    if !Empty(live[i]) {
      SlotsIncrease(live, i, k);
      EarlierPlace(live[k], before, after, Slot(live, i));
    }
  }

  lemma {:induction false} RepackStep(live: seq<Item>, k: nat, before: seq<Placed>, after: seq<Placed>)
    requires k < |live| && live[k].glyph != null
    requires Repacked(live, k, before) && TookPlace(live[k], before, after)
    ensures Repacked(live, k + 1, after)
  {
    forall i | 0 <= i < k + 1
      ensures RepackedAt(live, i, after)
    {
      if i < k {
        RepackedStays(live, k, i, before, after);
      }
    }
  }

  // ----- What the cursor's moves keep -----

  lemma {:induction false} WrapKeeps(px: Bytes, stride: nat, height: nat, f: Format, ps: seq<Placed>,
                                     pad: nat, cx: nat, cy: nat, rowH: nat)
    requires AllBehind(ps, pad, cx, cy, rowH)
    requires BlankAhead(px, stride, height, f, cx, cy, rowH)
    ensures AllBehind(ps, pad, pad, cy + (rowH + pad), 0)
    ensures BlankAhead(px, stride, height, f, pad, cy + (rowH + pad), 0)
  {
  }

  lemma {:induction false} PlaceKeeps(px: Bytes, width: nat, height: nat, f: Format, ps: seq<Placed>,
                                      pad: nat, cx: nat, cy: nat, rowH: nat, p: Placed)
    requires p.x == cx && p.y == cy && p.bytes == Zeros(RowStart(p.h, Cols(f, p.w)))
    requires InBounds(p, pad, width, height)
    requires AllInBounds(ps, pad, width, height) && AllApart(ps, pad)
    requires AllBehind(ps, pad, cx, cy, rowH) && AllShown(px, Cols(f, width), f, ps)
    requires BlankAhead(px, Cols(f, width), height, f, cx, cy, rowH)
    ensures var qs, cx', rowH' := ps + [p], cx + (p.w + pad), Max(rowH, p.h);
            && AllInBounds(qs, pad, width, height) && AllApart(qs, pad)
            && AllBehind(qs, pad, cx', cy, rowH') && AllShown(px, Cols(f, width), f, qs)
            && BlankAhead(px, Cols(f, width), height, f, cx', cy, rowH')
  {
    var qs, n := ps + [p], |ps|;
    assert forall i {:trigger qs[i]} :: 0 <= i < n ==> qs[i] == ps[i];
    assert qs[n] == p;
    ColsMonotone(f, p.x, p.w, width);
    ColsMonotone(f, cx, p.w + pad, cx + (p.w + pad));
    forall i | 0 <= i < n
      ensures Apart(ps[i], p, pad) && BehindCursor(ps[i], pad, cx + (p.w + pad), cy, Max(rowH, p.h))
    {
      assert BehindCursor(ps[i], pad, cx, cy, rowH);
    }
    BlankShows(px, width, height, f, pad, cx, cy, rowH, p);
  }

  /** Ahead of the cursor the page shows zeros. */
  lemma {:induction false} BlankShows(px: Bytes, width: nat, height: nat, f: Format, pad: nat,
                                      cx: nat, cy: nat, rowH: nat, p: Placed)
    requires p.x == cx && p.y == cy && p.bytes == Zeros(RowStart(p.h, Cols(f, p.w)))
    requires InBounds(p, pad, width, height) && BlankAhead(px, Cols(f, width), height, f, cx, cy, rowH)
    ensures Shows(px, Cols(f, width), f, p)
  {
    ColsMonotone(f, p.x, p.w, width);
    forall r, c | p.y <= r < p.y + p.h && Cols(f, p.x) <= c < Cols(f, p.x) + Cols(f, p.w)
      ensures At(px, Cols(f, width), r, c) == At(p.bytes, Cols(f, p.w), r - p.y, c - Cols(f, p.x))
    {
      assert At(px, Cols(f, width), r, c) == 0;
    }
  }

  /** Writing over the last region disturbs no other region and nothing ahead of the cursor. */
  lemma {:induction false} CopyKeeps(px: Bytes, out: Bytes, width: nat, height: nat, f: Format,
                                     ps: seq<Placed>, pad: nat, cx: nat, cy: nat, rowH: nat, src: Bytes)
    requires ps != [] && AllInBounds(ps, pad, width, height) && AllApart(ps, pad)
    requires AllBehind(ps, pad, cx, cy, rowH) && AllShown(px, Cols(f, width), f, ps)
    requires BlankAhead(px, Cols(f, width), height, f, cx, cy, rowH)
    requires var p := ps[|ps| - 1];
             && |src| == RowStart(p.h, Cols(f, p.w))
             && Blitted(px, out, Cols(f, width), height, Cols(f, p.x), p.y, Cols(f, p.w), p.h, src)
    ensures var n := |ps| - 1;
            var qs := ps[..n] + [ps[n].(bytes := src)];
            && AllInBounds(qs, pad, width, height) && AllApart(qs, pad)
            && AllBehind(qs, pad, cx, cy, rowH) && AllShown(out, Cols(f, width), f, qs)
            && BlankAhead(out, Cols(f, width), height, f, cx, cy, rowH)
  {
    var n := |ps| - 1;
    var p := ps[n];
    var qs := ps[..n] + [p.(bytes := src)];
    forall i | 0 <= i < n
      ensures Shows(out, Cols(f, width), f, ps[i])
    {
      ApartStays(px, out, width, height, f, pad, ps[i], p, src);
    }
    CopyShows(px, out, width, height, f, pad, p, src);
    CopyBehind(px, out, width, height, f, pad, p, src, cx, cy, rowH);
    forall i | 0 <= i < |qs|
      ensures InBounds(qs[i], pad, width, height) && BehindCursor(qs[i], pad, cx, cy, rowH)
      ensures Shows(out, Cols(f, width), f, qs[i])
    {
      assert InBounds(ps[i], pad, width, height) && BehindCursor(ps[i], pad, cx, cy, rowH);
    }
    forall i, j | 0 <= i < j < |qs|
      ensures Apart(qs[i], qs[j], pad)
    {
      assert Apart(ps[i], ps[j], pad);
    }
  }

  lemma {:induction false} ApartStays(px: Bytes, out: Bytes, width: nat, height: nat, f: Format,
                                      pad: nat, q: Placed, p: Placed, src: Bytes)
    requires InBounds(q, pad, width, height) && InBounds(p, pad, width, height) && Apart(q, p, pad)
    requires Shows(px, Cols(f, width), f, q)
    requires Blitted(px, out, Cols(f, width), height, Cols(f, p.x), p.y, Cols(f, p.w), p.h, src)
    ensures Shows(out, Cols(f, width), f, q)
  {
    ColsMonotone(f, q.x, q.w, width);
    ColsMonotone(f, p.x, p.w, width);
    forall r, c | q.y <= r < q.y + q.h && Cols(f, q.x) <= c < Cols(f, q.x) + Cols(f, q.w)
      ensures At(out, Cols(f, width), r, c) == At(q.bytes, Cols(f, q.w), r - q.y, c - Cols(f, q.x))
    {
      assert At(out, Cols(f, width), r, c) == At(px, Cols(f, width), r, c);
    }
  }

  lemma {:induction false} CopyShows(px: Bytes, out: Bytes, width: nat, height: nat, f: Format,
                                     pad: nat, p: Placed, src: Bytes)
    requires InBounds(p, pad, width, height) && |src| == RowStart(p.h, Cols(f, p.w))
    requires Blitted(px, out, Cols(f, width), height, Cols(f, p.x), p.y, Cols(f, p.w), p.h, src)
    ensures Shows(out, Cols(f, width), f, p.(bytes := src))
  {
    ColsMonotone(f, p.x, p.w, width);
  }

  lemma {:induction false} CopyBehind(px: Bytes, out: Bytes, width: nat, height: nat, f: Format,
                                      pad: nat, p: Placed, src: Bytes, cx: nat, cy: nat, rowH: nat)
    requires InBounds(p, pad, width, height) && BehindCursor(p, pad, cx, cy, rowH)
    requires BlankAhead(px, Cols(f, width), height, f, cx, cy, rowH)
    requires Blitted(px, out, Cols(f, width), height, Cols(f, p.x), p.y, Cols(f, p.w), p.h, src)
    ensures BlankAhead(out, Cols(f, width), height, f, cx, cy, rowH)
  {
    forall r, c | cy <= r < height && 0 <= c < Cols(f, width) && (r < cy + rowH ==> Cols(f, cx) <= c)
      ensures At(out, Cols(f, width), r, c) == 0
    {
      assert At(px, Cols(f, width), r, c) == 0;
    }
  }
}
