/**
  * The dash walker over exact reals. Walking is a run through the dash pattern, entry after entry, in
  * steps that never get stuck on a corner; the proofs compare it with the ideal pattern laid along the
  * path.
  */
module Dashes {
  import opened Numbers

  const TOL: real := 0.0001

  datatype Cap = Butt | Round | Square

  /** A piece of one segment, in the walker's `entry`-th pattern entry; even entries are drawn. */
  datatype Step = Step(from: real, to: real, entry: nat)

  datatype Dash = Dash(segment: nat, from: real, to: real, startCap: Cap, endCap: Cap)

  datatype Stroke = Nothing | Solid | Dashed(dashes: seq<Dash>)

  /** How many entries were finished, and what is left of the current one. */
  datatype Phase = Phase(k: nat, remaining: real)

  /** The walker's variables. */
  datatype Cursor = Cursor(index: nat, draw: bool, remaining: real)

  predicate Usable(pattern: seq<real>) {
    |pattern| > 0 && forall i {:trigger pattern[i]} :: 0 <= i < |pattern| ==> pattern[i] > TOL
  }

  /** Counting to `k` around a ring of `n`: the remainder of `k`, one step at a time. */
  function Around(k: nat, n: nat): (i: nat)
    requires n > 0
    ensures i < n
  {
    if k == 0 then 0
    else
      var i := Around(k - 1, n);
      if i + 1 == n then 0 else i + 1
  }

  /** The pattern repeats. */
  function Entry(pattern: seq<real>, k: nat): real
    requires |pattern| > 0
  {
    pattern[Around(k, |pattern|)]
  }

  ghost predicate Within(pattern: seq<real>, p: Phase)
    requires |pattern| > 0
  {
    TOL < p.remaining <= Entry(pattern, p.k)
  }

  ghost predicate Stands(pattern: seq<real>, c: Cursor, p: Phase)
    requires |pattern| > 0
  {
    && c.index == Around(p.k, |pattern|) && c.draw == (p.k % 2 == 0) && c.remaining == p.remaining
    && Within(pattern, p)
  }

  function Origin(pattern: seq<real>): Phase
    requires |pattern| > 0
  {
    Phase(0, pattern[0])
  }

  /** Using up `step` of the current entry; a rest within the tolerance is given up. */
  function Advance(pattern: seq<real>, p: Phase, step: real): Phase
    requires |pattern| > 0
  {
    if p.remaining - step <= TOL then Phase(p.k + 1, Entry(pattern, p.k + 1))
    else Phase(p.k, p.remaining - step)
  }

  ghost function Run(pattern: seq<real>, p: Phase, steps: seq<Step>): Phase
    requires |pattern| > 0
  {
    if steps == [] then p
    else
      var last := steps[|steps| - 1];
      Advance(pattern, Run(pattern, p, steps[..|steps| - 1]), last.to - last.from)
  }

  /** Every step is longer than the tolerance, lies in the current entry and does not overrun it. */
  ghost predicate Follows(pattern: seq<real>, p: Phase, steps: seq<Step>)
    requires |pattern| > 0
  {
    steps == []
    || var last, at := steps[|steps| - 1], Run(pattern, p, steps[..|steps| - 1]);
       && Follows(pattern, p, steps[..|steps| - 1])
       && last.entry == at.k && TOL < last.to - last.from <= at.remaining
  }

  ghost function Walked(steps: seq<Step>): real {
    if steps == [] then 0.0
    else Walked(steps[..|steps| - 1]) + (steps[|steps| - 1].to - steps[|steps| - 1].from)
  }

  lemma {:induction false} OneMore(pattern: seq<real>, p: Phase, steps: seq<Step>, s: Step)
    requires |pattern| > 0
    ensures Run(pattern, p, steps + [s]) == Advance(pattern, Run(pattern, p, steps), s.to - s.from)
    ensures Follows(pattern, p, steps + [s]) <==>
            && Follows(pattern, p, steps) && s.entry == Run(pattern, p, steps).k
            && TOL < s.to - s.from <= Run(pattern, p, steps).remaining
    ensures Walked(steps + [s]) == Walked(steps) + (s.to - s.from)
  {
    assert (steps + [s])[..|steps|] == steps;
  }

  /** Two runs, one after the other, are one run. */
  lemma {:induction false} Joined(pattern: seq<real>, p: Phase, a: seq<Step>, b: seq<Step>)
    requires |pattern| > 0
    ensures Run(pattern, p, a + b) == Run(pattern, Run(pattern, p, a), b)
    ensures Follows(pattern, p, a) && Follows(pattern, Run(pattern, p, a), b)
       <==> Follows(pattern, p, a + b)
    ensures Walked(a + b) == Walked(a) + Walked(b)
    decreases |b|
  {
    if b == [] {
      assert a + b == a;
    } else {
      var s := b[|b| - 1];
      Joined(pattern, p, a, b[..|b| - 1]);
      OneMore(pattern, p, a + b[..|b| - 1], s);
      assert a + b == a + b[..|b| - 1] + [s];
    }
  }

  // ----- Covering a segment -----

  ghost function EndBefore(steps: seq<Step>, j: nat): real
    requires j <= |steps|
  {
    if j == 0 then 0.0 else steps[j - 1].to
  }

  /** The steps follow each other without gap or overlap, from 0 to `end`. */
  ghost predicate Consecutive(steps: seq<Step>, end: real) {
    && (forall j {:trigger steps[j]} :: 0 <= j < |steps| ==>
          steps[j].from == EndBefore(steps, j) && steps[j].to - steps[j].from > TOL)
    && EndBefore(steps, |steps|) == end
  }

  /** A segment is walked up to a rest within the tolerance; one within the tolerance is skipped. */
  ghost predicate Covers(steps: seq<Step>, len: real) {
    if len <= TOL then steps == []
    else
      && steps != []
      && len - TOL <= steps[|steps| - 1].to <= len
      && Consecutive(steps, steps[|steps| - 1].to)
      && forall j {:trigger steps[j]} :: 0 <= j < |steps| - 1 ==> steps[j].to < len - TOL
  }

  lemma {:induction false} ConsecutiveInit(steps: seq<Step>, end: real)
    requires steps != [] && Consecutive(steps, end)
    ensures Consecutive(steps[..|steps| - 1], steps[|steps| - 1].from) && steps[|steps| - 1].to == end
  {
    var init := steps[..|steps| - 1];
    forall j | 0 <= j < |init|
      ensures init[j].from == EndBefore(init, j) && init[j].to - init[j].from > TOL
    {
      assert init[j] == steps[j] && EndBefore(init, j) == EndBefore(steps, j);
    }
    assert EndBefore(init, |init|) == EndBefore(steps, |steps| - 1);
  }

  lemma {:induction false} ConsecutiveSum(steps: seq<Step>, end: real)
    requires Consecutive(steps, end)
    ensures Walked(steps) == end
    decreases |steps|
  {
    if steps != [] {
      ConsecutiveInit(steps, end);
      ConsecutiveSum(steps[..|steps| - 1], steps[|steps| - 1].from);
    }
  }

  lemma {:induction false} InOrder(steps: seq<Step>, end: real, i: nat, j: nat)
    requires Consecutive(steps, end) && i < j < |steps|
    ensures steps[i].to <= steps[j].from
    decreases j
  {
    assert steps[j].from == steps[j - 1].to;
    if i < j - 1 {
      InOrder(steps, end, i, j - 1);
      assert steps[j - 1].to - steps[j - 1].from > TOL;
    }
  }

  /** On each segment the steps are disjoint, in order, inside it, and miss at most the tolerance. */
  lemma {:induction false} SegmentCovered(steps: seq<Step>, len: real)
    requires Covers(steps, len) && len >= 0.0
    ensures len - TOL <= Walked(steps) <= len
    ensures forall j {:trigger steps[j]} :: 0 <= j < |steps| ==> 0.0 <= steps[j].from < steps[j].to <= len
    ensures forall i, j {:trigger steps[i], steps[j]} :: 0 <= i < j < |steps| ==> steps[i].to <= steps[j].from
  {
    if len > TOL {
      var n, end := |steps|, steps[|steps| - 1].to;
      ConsecutiveSum(steps, end);
      forall i, j | 0 <= i < j < n
        ensures steps[i].to <= steps[j].from
      {
        InOrder(steps, end, i, j);
      }
      forall j | 0 <= j < n
        ensures 0.0 <= steps[j].from < steps[j].to <= len
      {
        assert steps[0].from == EndBefore(steps, 0) && steps[j].to - steps[j].from > TOL;
        assert steps[n - 1].to - steps[n - 1].from > TOL && steps[0].to - steps[0].from > TOL;
        if 0 < j {
          assert steps[0].to <= steps[j].from;
        }
        if j < n - 1 {
          assert steps[j].to <= steps[n - 1].from;
        }
      }
    }
  }

  // ----- What is drawn -----

  /**
    * The dash of a step. Where it starts or ends at a corner it is cut off flat: only the two ends of
    * an open path keep the line's cap there.
    */
  function DashOf(s: Step, i: nat, segments: nat, len: real, closed: bool, cap: Cap): Dash {
    Dash(i, s.from, s.to,
         if s.from == 0.0 && (closed || i != 0) then Butt else cap,
         if s.to >= len - TOL && (closed || i + 1 != segments) then Butt else cap)
  }

  ghost function Drawn(steps: seq<Step>, i: nat, segments: nat, len: real, closed: bool, cap: Cap): seq<Dash> {
    if steps == [] then []
    else
      var last := steps[|steps| - 1];
      Drawn(steps[..|steps| - 1], i, segments, len, closed, cap)
      + if last.entry % 2 == 0 then [DashOf(last, i, segments, len, closed, cap)] else []
  }

  lemma {:induction false} DrawOne(steps: seq<Step>, s: Step, i: nat, segments: nat, len: real, closed: bool, cap: Cap)
    ensures Drawn(steps + [s], i, segments, len, closed, cap)
         == Drawn(steps, i, segments, len, closed, cap)
            + if s.entry % 2 == 0 then [DashOf(s, i, segments, len, closed, cap)] else []
  {
    assert (steps + [s])[..|steps|] == steps;
  }

  ghost function Flat(segs: seq<seq<Step>>): seq<Step> {
    if segs == [] then [] else Flat(segs[..|segs| - 1]) + segs[|segs| - 1]
  }

  /** The dashes of the first segments of a path with `segments` of them. */
  ghost function DrawnAll(segs: seq<seq<Step>>, segments: nat, lens: seq<real>, closed: bool, cap: Cap): seq<Dash>
    requires |segs| <= |lens|
  {
    if segs == [] then []
    else
      var i := |segs| - 1;
      DrawnAll(segs[..i], segments, lens, closed, cap) + Drawn(segs[i], i, segments, lens[i], closed, cap)
  }

  // ----- The pattern -----

  function Kept(dashPattern: seq<real>): (r: seq<real>)
    ensures forall i {:trigger r[i]} :: 0 <= i < |r| ==> r[i] > TOL && r[i] in dashPattern
    ensures (forall i {:trigger dashPattern[i]} :: 0 <= i < |dashPattern| ==> dashPattern[i] > TOL)
        ==> r == dashPattern
  {
    if dashPattern == [] then []
    else
      var n := |dashPattern| - 1;
      Kept(dashPattern[..n]) + if dashPattern[n] > TOL then [dashPattern[n]] else []
  }

  /** `normalize_dash_pattern`. */
  method NormalizePattern(dashPattern: seq<real>) returns (out: seq<real>)
    ensures out == Kept(dashPattern)
  {
    out := [];
    var i := 0;
    while i < |dashPattern|
      invariant 0 <= i <= |dashPattern| && out == Kept(dashPattern[..i])
    {
      assert dashPattern[..i + 1][..i] == dashPattern[..i];
      if dashPattern[i] > TOL {
        out := out + [dashPattern[i]];
      }
      i := i + 1;
    }
    assert dashPattern[..i] == dashPattern;
  }

  /** What the first `k` entries of the repeated pattern add up to. */
  ghost function Prefix(pattern: seq<real>, k: nat): real
    requires |pattern| > 0
  {
    if k == 0 then 0.0 else Prefix(pattern, k - 1) + Entry(pattern, k - 1)
  }

  lemma {:induction false} AroundOnce(k: nat, n: nat)
    requires k < n
    ensures Around(k, n) == k
  {
    if k > 0 {
      AroundOnce(k - 1, n);
    }
  }

  method PatternTotal(pattern: seq<real>) returns (total: real)
    requires Usable(pattern)
    ensures total == Prefix(pattern, |pattern|) && total > TOL
  {
    total := 0.0;
    var i := 0;
    while i < |pattern|
      invariant 0 <= i <= |pattern| && total == Prefix(pattern, i)
      invariant total >= 0.0 && (i > 0 ==> total > TOL)
    {
      AroundOnce(i, |pattern|);
      assert pattern[i] > TOL;
      total := total + pattern[i];
      i := i + 1;
    }
  }

  /** Truncation towards zero. */
  function Trunc(x: real): int {
    if x >= 0.0 then x.Floor else -((-x).Floor)
  }

  /** The C library's `fmod`. */
  function Fmod(x: real, m: real): real
    requires m > 0.0
  {
    x - Trunc(x / m) as real * m
  }

  /** The offset within one period of the pattern. */
  function PeriodOffset(x: real, m: real): real
    requires m > 0.0
  {
    var r := Fmod(x, m);
    if r < 0.0 then r + m else r
  }

  lemma {:induction false} FractionOf(d: real, m: real)
    requires m > 0.0 && 0.0 <= d < 1.0
    ensures 0.0 <= d * m < m
  {
    assert (1.0 - d) * m > 0.0;
    assert (1.0 - d) * m == m - d * m;
  }

  lemma {:induction false} RestAbove(x: real, q: real, t: real, m: real)
    requires m > 0.0 && x == q * m && t <= q < t + 1.0
    ensures 0.0 <= x - t * m < m
  {
    var d := q - t;
    assert x - t * m == d * m;
    FractionOf(d, m);
  }

  lemma {:induction false} RestBelow(x: real, q: real, t: real, m: real)
    requires m > 0.0 && x == q * m && t - 1.0 < q <= t
    ensures -m < x - t * m <= 0.0
  {
    var d := t - q;
    assert t * m - x == d * m;
    FractionOf(d, m);
  }

  /** The truncated remainder is less than a period either way. */
  lemma {:induction false} FmodBounded(x: real, m: real)
    requires m > 0.0
    ensures if x / m >= 0.0 then 0.0 <= Fmod(x, m) < m else -m < Fmod(x, m) <= 0.0
  {
    var q := x / m;
    var t := Trunc(q) as real;
    if q >= 0.0 {
      RestAbove(x, q, t, m);
    } else {
      RestBelow(x, q, t, m);
    }
  }

  /** The truncated remainder, once fixed up, is the remainder: in one period, whole periods away. */
  lemma {:induction false} PeriodOffsetIsRemainder(x: real, m: real) returns (periods: int)
    requires m > 0.0
    ensures 0.0 <= PeriodOffset(x, m) < m
    ensures x == PeriodOffset(x, m) + periods as real * m
  {
    FmodBounded(x, m);
    OneLess(Trunc(x / m), m);
    periods := Trunc(x / m) - if Fmod(x, m) < 0.0 then 1 else 0;
  }

  lemma {:induction false} OneLess(t: int, m: real)
    ensures (t - 1) as real * m == t as real * m - m
  {
  }

  // ----- The loops -----

  /** The bookkeeping both loops end with, after a step `s` of the run `steps`. */
  method Use(pattern: seq<real>, c: Cursor, step: real, ghost p: Phase, ghost steps: seq<Step>, ghost s: Step)
    returns (d: Cursor)
    requires Usable(pattern) && Follows(pattern, p, steps) && Stands(pattern, c, Run(pattern, p, steps))
    requires TOL < step <= c.remaining && s.to - s.from == step && s.entry == Run(pattern, p, steps).k
    ensures Follows(pattern, p, steps + [s]) && Stands(pattern, d, Run(pattern, p, steps + [s]))
    ensures Walked(steps + [s]) == Walked(steps) + step
  {
    OneMore(pattern, p, steps, s);
    d := c.(remaining := c.remaining - step);
    if d.remaining <= TOL {
      var index := (c.index + 1) % |pattern|;
      d := Cursor(index, !c.draw, pattern[index]);
    }
    UsedStands(pattern, c, Run(pattern, p, steps), step, d);
  }

  /** The cursor after a step stands where the run does. */
  lemma {:induction false} UsedStands(pattern: seq<real>, c: Cursor, q: Phase, step: real, d: Cursor)
    requires Usable(pattern) && Stands(pattern, c, q) && TOL < step <= c.remaining
    requires var i := (c.index + 1) % |pattern|;
             d == if c.remaining - step <= TOL then Cursor(i, !c.draw, pattern[i])
                  else c.(remaining := c.remaining - step)
    ensures Stands(pattern, d, Advance(pattern, q, step))
  {
    NextIndex(c.index, |pattern|);
  }

  function Min(x: real, y: real): real {
    if y < x then y else x
  }

  /** The steps that an offset takes before the path begins. */
  ghost predicate Skips(pattern: seq<real>, offset: real, skipped: seq<Step>)
    requires |pattern| > 0
  {
    && Follows(pattern, Origin(pattern), skipped)
    && offset - TOL <= Walked(skipped) <= offset
  }

  /** The offset loop. */
  method SkipOffset(pattern: seq<real>, offset: real) returns (c: Cursor, ghost skipped: seq<Step>)
    requires Usable(pattern) && offset >= 0.0
    ensures Skips(pattern, offset, skipped)
    ensures Stands(pattern, c, Run(pattern, Origin(pattern), skipped))
  {
    skipped := [];
    c := Cursor(0, true, pattern[0]);
    var left := offset;
    while left > TOL
      invariant left >= 0.0 && Walked(skipped) == offset - left
      invariant Follows(pattern, Origin(pattern), skipped)
      invariant Stands(pattern, c, Run(pattern, Origin(pattern), skipped))
      decreases left * 10000.0
    {
      var step := Min(c.remaining, left);
      ghost var s := Step(offset - left, offset - left + step, Run(pattern, Origin(pattern), skipped).k);
      c := Use(pattern, c, step, Origin(pattern), skipped, s);
      skipped := skipped + [s];
      left := left - step;
    }
  }

  /** Inside the loop over one segment. */
  ghost predicate Partway(steps: seq<Step>, consumed: real, len: real) {
    && 0.0 <= consumed <= len && Consecutive(steps, consumed)
    && if consumed >= len - TOL then Covers(steps, len)
       else forall j {:trigger steps[j]} :: 0 <= j < |steps| ==> steps[j].to < len - TOL
  }

  lemma {:induction false} PartwayMore(steps: seq<Step>, consumed: real, len: real, s: Step)
    requires Partway(steps, consumed, len) && consumed < len - TOL
    requires s.from == consumed && s.to <= len && s.to - s.from > TOL
    ensures Partway(steps + [s], s.to, len)
  {
    ConsecutiveMore(steps, consumed, s);
    forall j | 0 <= j < |steps|
      ensures (steps + [s])[j].to < len - TOL
    {
      assert (steps + [s])[j] == steps[j];
    }
  }

  /** The call that strokes one dash, with the caps it is given. */
  method StrokeDash(ghost steps: seq<Step>, consumed: real, next: real, ghost entry: nat, i: nat,
                    segments: nat, len: real, closed: bool, cap: Cap) returns (dash: Dash)
    requires Consecutive(steps, consumed)
    ensures dash == DashOf(Step(consumed, next, entry), i, segments, len, closed, cap)
  {
    var startCap, endCap := cap, cap;
    if consumed <= TOL && (closed || i != 0) {
      startCap := Butt;
    }
    if next >= len - TOL && (closed || i + 1 != segments) {
      endCap := Butt;
    }
    FirstStartsAtZero(steps, consumed);
    dash := Dash(i, consumed, next, startCap, endCap);
  }

  /** The loop over one segment; `i` is its number. */
  method WalkSegment(pattern: seq<real>, i: nat, segments: nat, len: real, closed: bool, cap: Cap,
                     c0: Cursor, ghost p: Phase)
    returns (dashes: seq<Dash>, c: Cursor, ghost steps: seq<Step>)
    requires Usable(pattern) && Stands(pattern, c0, p)
    ensures Covers(steps, len) && Follows(pattern, p, steps)
    ensures Stands(pattern, c, Run(pattern, p, steps))
    ensures dashes == Drawn(steps, i, segments, len, closed, cap)
  {
    dashes, c, steps := [], c0, [];
    if len <= TOL {
      return;
    }
    var consumed := 0.0;
    while consumed < len - TOL
      invariant Partway(steps, consumed, len)
      invariant Follows(pattern, p, steps) && Stands(pattern, c, Run(pattern, p, steps))
      invariant dashes == Drawn(steps, i, segments, len, closed, cap)
      decreases (len - consumed) * 10000.0
    {
      var step := Min(c.remaining, len - consumed);
      var next := consumed + step;
      ghost var s := Step(consumed, next, Run(pattern, p, steps).k);
      if c.draw && step > TOL {
        var dash := StrokeDash(steps, consumed, next, s.entry, i, segments, len, closed, cap);
        dashes := dashes + [dash];
      }
      DrawOne(steps, s, i, segments, len, closed, cap);
      PartwayMore(steps, consumed, len, s);
      c := Use(pattern, c, step, p, steps, s);
      steps := steps + [s];
      consumed := next;
    }
  }

  lemma {:induction false} FirstStartsAtZero(steps: seq<Step>, end: real)
    requires Consecutive(steps, end)
    ensures end <= TOL <==> end == 0.0
    ensures end >= 0.0
    decreases |steps|
  {
    if steps != [] {
      assert steps[|steps| - 1].to - steps[|steps| - 1].from > TOL;
      if |steps| > 1 {
        InOrder(steps, end, 0, |steps| - 1);
        assert steps[0].to - steps[0].from > TOL;
      }
    }
  }

  lemma {:induction false} ConsecutiveMore(steps: seq<Step>, end: real, s: Step)
    requires Consecutive(steps, end) && s.from == end && s.to - s.from > TOL
    ensures Consecutive(steps + [s], s.to)
  {
    var all := steps + [s];
    forall j | 0 <= j < |all|
      ensures all[j].from == EndBefore(all, j) && all[j].to - all[j].from > TOL
    {
      if j < |steps| {
        assert all[j] == steps[j] && EndBefore(all, j) == EndBefore(steps, j);
      } else {
        assert EndBefore(all, j) == EndBefore(steps, j);
      }
    }
  }

  /**
    * `emit_dashed_subpath`: `points` corners, `lens` the segment lengths. The ghost results are the
    * steps that the offset took and the steps on each segment.
    */
  method EmitDashed(points: nat, closed: bool, lens: seq<real>, cap: Cap, dashPattern: seq<real>,
                    dashOffset: real)
    returns (out: Stroke, ghost skipped: seq<Step>, ghost segs: seq<seq<Step>>)
    requires points >= 2 ==> |lens| == if closed then points else points - 1
    ensures out.Nothing? <==> points < 2
    ensures out.Solid? <==> points >= 2 && Kept(dashPattern) == []
    ensures out.Dashed? ==>
      var pattern := Kept(dashPattern);
      && Prefix(pattern, |pattern|) > 0.0
      && Skips(pattern, PeriodOffset(dashOffset, Prefix(pattern, |pattern|)), skipped)
      && |segs| == |lens| && PathWalked(pattern, skipped, segs, lens)
      && out.dashes == DrawnAll(segs, |lens|, lens, closed, cap)
  {
    skipped, segs := [], [];
    if points < 2 {
      return Nothing, skipped, segs;
    }
    var pattern := NormalizePattern(dashPattern);
    if pattern == [] {
      return Solid, skipped, segs;
    }
    var total := PatternTotal(pattern);
    if total <= TOL {
      return Solid, skipped, segs;
    }
    var offset := Fmod(dashOffset, total);
    if offset < 0.0 {
      offset := offset + total;
    }
    ghost var _ := PeriodOffsetIsRemainder(dashOffset, total);
    var c;
    c, skipped := SkipOffset(pattern, offset);
    var dashes: seq<Dash>;
    dashes, segs := WalkPath(pattern, closed, lens, cap, c, skipped);
    out := Dashed(dashes);
  }

  /** The first segments are covered, by one run that also follows the skipped steps. */
  ghost predicate PathWalked(pattern: seq<real>, skipped: seq<Step>, segs: seq<seq<Step>>, lens: seq<real>)
    requires |pattern| > 0
  {
    && |segs| <= |lens|
    && (forall i {:trigger segs[i]} :: 0 <= i < |segs| ==> Covers(segs[i], lens[i]))
    && Follows(pattern, Origin(pattern), skipped + Flat(segs))
  }

  lemma {:induction false} PathMore(pattern: seq<real>, skipped: seq<Step>, segs: seq<seq<Step>>,
                                    lens: seq<real>, steps: seq<Step>)
    requires |pattern| > 0 && PathWalked(pattern, skipped, segs, lens) && |segs| < |lens|
    requires Covers(steps, lens[|segs|])
    requires Follows(pattern, Run(pattern, Origin(pattern), skipped + Flat(segs)), steps)
    ensures PathWalked(pattern, skipped, segs + [steps], lens)
    ensures Run(pattern, Origin(pattern), skipped + Flat(segs + [steps]))
         == Run(pattern, Run(pattern, Origin(pattern), skipped + Flat(segs)), steps)
  {
    Joined(pattern, Origin(pattern), skipped + Flat(segs), steps);
    FlatMore(skipped, segs, steps);
  }

  lemma {:induction false} DrawMore(segs: seq<seq<Step>>, segments: nat, lens: seq<real>, closed: bool, cap: Cap,
                                    steps: seq<Step>)
    requires |segs| < |lens|
    ensures DrawnAll(segs + [steps], segments, lens, closed, cap)
         == DrawnAll(segs, segments, lens, closed, cap)
            + Drawn(steps, |segs|, segments, lens[|segs|], closed, cap)
  {
    assert (segs + [steps])[..|segs|] == segs;
  }

  /** The loop over the segments. */
  method WalkPath(pattern: seq<real>, closed: bool, lens: seq<real>, cap: Cap, c0: Cursor,
                  ghost skipped: seq<Step>)
    returns (dashes: seq<Dash>, ghost segs: seq<seq<Step>>)
    requires Usable(pattern) && Follows(pattern, Origin(pattern), skipped)
    requires Stands(pattern, c0, Run(pattern, Origin(pattern), skipped))
    ensures |segs| == |lens| && PathWalked(pattern, skipped, segs, lens)
    ensures dashes == DrawnAll(segs, |lens|, lens, closed, cap)
  {
    dashes, segs := [], [];
    var c := c0;
    var i := 0;
    assert skipped + Flat(segs) == skipped;
    while i < |lens|
      invariant 0 <= i <= |lens| && |segs| == i && PathWalked(pattern, skipped, segs, lens)
      invariant Stands(pattern, c, Run(pattern, Origin(pattern), skipped + Flat(segs)))
      invariant dashes == DrawnAll(segs, |lens|, lens, closed, cap)
    {
      var more;
      ghost var steps;
      more, c, steps := WalkSegment(pattern, i, |lens|, lens[i], closed, cap, c,
                                    Run(pattern, Origin(pattern), skipped + Flat(segs)));
      PathMore(pattern, skipped, segs, lens, steps);
      DrawMore(segs, |lens|, lens, closed, cap, steps);
      dashes := dashes + more;
      segs := segs + [steps];
      i := i + 1;
    }
  }

  lemma {:induction false} FlatMore(skipped: seq<Step>, segs: seq<seq<Step>>, steps: seq<Step>)
    ensures skipped + Flat(segs + [steps]) == skipped + Flat(segs) + steps
  {
    assert (segs + [steps])[..|segs|] == segs;
  }

  // ----- Against the ideal pattern -----

  /** Where a phase stands in the ideal, endlessly repeated pattern. */
  ghost function Position(pattern: seq<real>, p: Phase): real
    requires |pattern| > 0
  {
    Prefix(pattern, p.k) + Entry(pattern, p.k) - p.remaining
  }

  /** A run never falls behind the ideal pattern, and gains at most the tolerance with every entry. */
  lemma {:induction false} DriftBounded(pattern: seq<real>, p: Phase, steps: seq<Step>)
    requires Usable(pattern) && Within(pattern, p) && Follows(pattern, p, steps)
    ensures var q := Run(pattern, p, steps);
            && Within(pattern, q) && q.k >= p.k
            && Walked(steps) <= Position(pattern, q) - Position(pattern, p)
                             <= Walked(steps) + (q.k - p.k) as real * TOL
    decreases |steps|
  {
    if steps != [] {
      var init := steps[..|steps| - 1];
      DriftBounded(pattern, p, init);
      var at := Run(pattern, p, init);
      var q := Run(pattern, p, steps);
      assert pattern[Around(q.k, |pattern|)] > TOL;
      if q.k == at.k + 1 {
        assert Prefix(pattern, q.k) == Prefix(pattern, at.k) + Entry(pattern, at.k);
        assert (q.k - p.k) as real == (at.k - p.k) as real + 1.0;
      }
    }
  }

  /**
    * Every step lies in its own entry of the ideal pattern, up to the gain: so nothing is drawn in a
    * gap beyond `entry` tolerances, and nothing is left out of a dash.
    */
  lemma {:induction false} StepsFitPattern(pattern: seq<real>, steps: seq<Step>, j: nat)
    requires Usable(pattern) && Follows(pattern, Origin(pattern), steps) && j < |steps|
    ensures var k := steps[j].entry;
            && Prefix(pattern, k) - k as real * TOL <= Walked(steps[..j])
            && Walked(steps[..j]) < Walked(steps[..j + 1]) <= Prefix(pattern, k + 1)
    decreases |steps|
  {
    var init := steps[..|steps| - 1];
    if j < |steps| - 1 {
      StepsFitPattern(pattern, init, j);
      assert init[..j] == steps[..j] && init[..j + 1] == steps[..j + 1];
    } else {
      assert steps[..j] == init && steps[..j + 1] == steps;
      DriftBounded(pattern, Origin(pattern), init);
    }
  }

  ghost function RunLength(steps: seq<Step>, e: nat): real {
    if steps == [] then 0.0
    else
      var last := steps[|steps| - 1];
      RunLength(steps[..|steps| - 1], e) + if last.entry == e then last.to - last.from else 0.0
  }

  /** What was left of entry `e` when a run from `p` got there. */
  ghost function Available(pattern: seq<real>, p: Phase, e: nat): real
    requires |pattern| > 0
  {
    if e == p.k then p.remaining else Entry(pattern, e)
  }

  /**
    * No dash or gap, even around corners, is longer than its entry; a finished one is shorter by at
    * most the tolerance, and the current one is exactly what has been used of its entry.
    */
  lemma {:induction false} RunsFitEntries(pattern: seq<real>, p: Phase, steps: seq<Step>, e: nat)
    requires Usable(pattern) && Within(pattern, p) && Follows(pattern, p, steps)
    ensures var q, len := Run(pattern, p, steps), RunLength(steps, e);
            && q.k >= p.k && len <= Entry(pattern, e)
            && (e < p.k || e > q.k ==> len == 0.0)
            && (p.k <= e < q.k ==> Available(pattern, p, e) - TOL <= len <= Available(pattern, p, e))
            && (e == q.k ==> len == Available(pattern, p, e) - q.remaining)
    decreases |steps|
  {
    DriftBounded(pattern, p, steps);
    assert pattern[Around(e, |pattern|)] > TOL;
    if steps != [] {
      var init := steps[..|steps| - 1];
      RunsFitEntries(pattern, p, init, e);
      DriftBounded(pattern, p, init);
    }
  }

  /** The last drawn step of a segment ends at its corner and no other does; likewise the first. */
  lemma {:induction false} CornersOnlyAtEnds(steps: seq<Step>, len: real, j: nat)
    requires Covers(steps, len) && j < |steps|
    ensures steps[j].from == 0.0 <==> j == 0
    ensures steps[j].to >= len - TOL <==> j == |steps| - 1
  {
    if j > 0 {
      InOrder(steps, steps[|steps| - 1].to, 0, j);
      assert steps[0].to - steps[0].from > TOL;
    }
    assert steps[0].from == EndBefore(steps, 0);
  }
}
