/** What a literal search must report, and why that determines the report completely. */
module Search {
  import opened Units

  datatype Match = Match(start: nat, end: nat)

  predicate SameUnit(a: Unit, b: Unit, foldCase: bool) {
    if foldCase then FoldAscii(a) == FoldAscii(b) else a == b
  }

  ghost predicate OccursAt(t: Text, needle: Text, p: nat, foldCase: bool) {
    && p + |needle| <= |t|
    && forall k {:trigger needle[k]} :: 0 <= k < |needle| ==> SameUnit(t[p + k], needle[k], foldCase)
  }

  /** The offsets at which the needle occurs, overlapping or not. */
  ghost function Occurrences(t: Text, needle: Text, foldCase: bool): set<nat> {
    set p: nat | p <= |t| && OccursAt(t, needle, p, foldCase)
  }

  ghost predicate Covered(out: seq<Match>, p: nat) {
    exists k :: 0 <= k < |out| && out[k].start <= p < out[k].end
  }

  /** Ascending disjoint occurrences from `from` on. */
  ghost predicate Reported(occ: set<nat>, n: nat, from: nat, out: seq<Match>) {
    && (forall k {:trigger out[k]} :: 0 <= k < |out| ==>
          from <= out[k].start && out[k].end == out[k].start + n && out[k].start in occ)
    && (forall j, k {:trigger out[j], out[k]} :: 0 <= j < k < |out| ==> out[j].end <= out[k].start)
  }

  ghost predicate EndsBy(out: seq<Match>, p: nat) {
    forall k {:trigger out[k]} :: 0 <= k < |out| ==> out[k].end <= p
  }

  /** Every occurrence before `to` overlaps or is a reported match. */
  ghost predicate CoveredTo(occ: set<nat>, from: nat, to: nat, out: seq<Match>) {
    forall p: nat {:trigger Covered(out, p)} :: from <= p < to && p in occ ==> Covered(out, p)
  }

  /** The report is full: only the limit keeps an uncovered occurrence out, and then it is later. */
  ghost predicate Full(occ: set<nat>, from: nat, limit: nat, out: seq<Match>) {
    && |out| <= limit
    && forall p: nat {:trigger Covered(out, p)} ::
         from <= p && p in occ ==> Covered(out, p) || (|out| == limit && EndsBy(out, p))
  }

  ghost predicate Greedy(occ: set<nat>, n: nat, from: nat, limit: nat, out: seq<Match>) {
    Reported(occ, n, from, out) && Full(occ, from, limit, out)
  }

  /** If two reports agree on their first `k` matches and `a` has one more, `b` has one no later. */
  lemma {:induction false} NextNoLater(occ: set<nat>, n: nat, from: nat, limit: nat,
                                       a: seq<Match>, b: seq<Match>, k: nat)
    requires n > 0
    requires Greedy(occ, n, from, limit, a)
    requires Greedy(occ, n, from, limit, b)
    requires k < |a| && k <= |b|
    requires forall j {:trigger b[j]} :: 0 <= j < k ==> a[j] == b[j]
    ensures k < |b| && b[k].start <= a[k].start
  {
    var p := a[k].start;
    if Covered(b, p) {
      var j :| 0 <= j < |b| && b[j].start <= p < b[j].end;
      if j > k {
        assert b[k].end <= b[j].start;
      }
    } else if k < |b| {
      assert b[k].end <= p;
    }
  }

  lemma {:induction false} SamePrefix(occ: set<nat>, n: nat, from: nat, limit: nat,
                                      a: seq<Match>, b: seq<Match>, k: nat)
    requires n > 0 && k <= |a|
    requires Greedy(occ, n, from, limit, a)
    requires Greedy(occ, n, from, limit, b)
    ensures k <= |b|
    ensures forall j {:trigger b[j]} :: 0 <= j < k ==> a[j] == b[j]
  {
    if k > 0 {
      SamePrefix(occ, n, from, limit, a, b, k - 1);
      NextNoLater(occ, n, from, limit, a, b, k - 1);
      NextNoLater(occ, n, from, limit, b, a, k - 1);
    }
  }

  /** There is only one greedy report: leftmost, non-overlapping, cut at the limit. */
  lemma {:induction false} GreedyIsUnique(occ: set<nat>, n: nat, from: nat, limit: nat,
                                          a: seq<Match>, b: seq<Match>)
    requires n > 0
    requires Greedy(occ, n, from, limit, a)
    requires Greedy(occ, n, from, limit, b)
    ensures a == b
  {
    SamePrefix(occ, n, from, limit, a, b, |a|);
    SamePrefix(occ, n, from, limit, b, a, |b|);
  }

  /** Does `needle` occur at `i` of the materialised slice? */
  method MatchesAt(hay: Text, needle: Text, i: nat, foldCase: bool) returns (matched: bool)
    requires i + |needle| <= |hay|
    ensures matched <==> OccursAt(hay, needle, i, foldCase)
  {
    var k := 0;
    while k < |needle|
      invariant 0 <= k <= |needle|
      invariant forall j {:trigger needle[j]} :: 0 <= j < k ==>
        SameUnit(hay[i + j], needle[j], foldCase)
    {
      if !SameUnit(hay[i + k], needle[k], foldCase) {
        return false;
      }
      k := k + 1;
    }
    return true;
  }

  /** The scan of `search_literal` over `hay`, the tail of the document `t` from `from` on. */
  method Scan(hay: Text, needle: Text, from: nat, limit: nat, foldCase: bool, ghost t: Text)
    returns (out: seq<Match>)
    requires needle != [] && from <= |t| && hay == t[from..]
    ensures Greedy(Occurrences(t, needle, foldCase), |needle|, from, limit, out)
  {
    ghost var occ := Occurrences(t, needle, foldCase);
    out := [];
    var i := 0;
    while i + |needle| <= |hay| && |out| < limit
      invariant 0 <= i && |out| <= limit && ScannedTo(occ, |needle|, from, from + i, out)
      decreases |hay| - i
    {
      out, i := ScanStep(hay, needle, from, i, foldCase, t, out);
    }
    assert forall p {:trigger p in occ} :: p in occ ==> p + |needle| <= |t|;
    ScanIsFull(occ, from, limit, from + i, out);
  }

  /** The matches before `to` are reported. */
  ghost predicate ScannedTo(occ: set<nat>, n: nat, from: nat, to: nat, out: seq<Match>) {
    Reported(occ, n, from, out) && EndsBy(out, to) && CoveredTo(occ, from, to, out)
  }

  /** The body of the scan: past a match, or one unit on. */
  method ScanStep(hay: Text, needle: Text, from: nat, i: nat, foldCase: bool, ghost t: Text, was: seq<Match>)
    returns (out: seq<Match>, next: nat)
    requires needle != [] && from <= |t| && hay == t[from..] && i + |needle| <= |hay|
    requires ScannedTo(Occurrences(t, needle, foldCase), |needle|, from, from + i, was)
    ensures next > i && |out| <= |was| + 1
    ensures ScannedTo(Occurrences(t, needle, foldCase), |needle|, from, from + next, out)
  {
    ghost var occ := Occurrences(t, needle, foldCase);
    var matched := MatchesAt(hay, needle, i, foldCase);
    OccursShifted(t, needle, from, i, foldCase);
    if matched {
      ReportOne(occ, |needle|, from, from + i, was);
      return was + [Match(from + i, from + i + |needle|)], i + |needle|;
    }
    StepOver(occ, from, from + i, was);
    return was, i + 1;
  }

  lemma {:induction false} StepOver(occ: set<nat>, from: nat, at: nat, out: seq<Match>)
    requires at !in occ && EndsBy(out, at)
    requires CoveredTo(occ, from, at, out)
    ensures CoveredTo(occ, from, at + 1, out) && EndsBy(out, at + 1)
  {
  }

  lemma {:induction false} ScanIsFull(occ: set<nat>, from: nat, limit: nat, to: nat,
                                      out: seq<Match>)
    requires CoveredTo(occ, from, to, out) && EndsBy(out, to)
    requires |out| == limit || (|out| < limit && forall p :: p in occ ==> p < to)
    ensures Full(occ, from, limit, out)
  {
    forall p: nat | from <= p && p in occ
      ensures Covered(out, p) || (|out| == limit && EndsBy(out, p))
    {
    }
  }

  lemma {:induction false} ReportOne(occ: set<nat>, n: nat, from: nat, at: nat, out: seq<Match>)
    requires n > 0 && from <= at && at in occ
    requires Reported(occ, n, from, out) && EndsBy(out, at)
    requires CoveredTo(occ, from, at, out)
    ensures var end := at + n;
            var more := out + [Match(at, end)];
            && Reported(occ, n, from, more) && EndsBy(more, end)
            && CoveredTo(occ, from, end, more)
  {
    var end := at + n;
    var more := out + [Match(at, end)];
    assert forall k {:trigger more[k]} :: 0 <= k < |out| ==> more[k] == out[k];
    assert more[|out|] == Match(at, end);
    CoverOne(occ, n, from, at, out, more);
  }

  lemma {:induction false} CoverOne(occ: set<nat>, n: nat, from: nat, at: nat,
                                    out: seq<Match>, more: seq<Match>)
    requires |more| == |out| + 1 && more[|out|] == Match(at, at + n)
    requires forall k {:trigger more[k]} :: 0 <= k < |out| ==> more[k] == out[k]
    requires CoveredTo(occ, from, at, out)
    ensures CoveredTo(occ, from, at + n, more)
  {
    forall p: nat | from <= p < at + n && p in occ
      ensures Covered(more, p)
    {
      if p < at {
        assert Covered(out, p);
        var k :| 0 <= k < |out| && out[k].start <= p < out[k].end;
        assert more[k] == out[k];
      } else {
        assert more[|out|].start <= p < more[|out|].end;
      }
    }
  }

  lemma {:induction false} OccursShifted(t: Text, needle: Text, from: nat, i: nat, foldCase: bool)
    requires from + i + |needle| <= |t|
    ensures OccursAt(t[from..], needle, i, foldCase) <==> OccursAt(t, needle, from + i, foldCase)
  {
    assert forall k {:trigger needle[k]} :: 0 <= k < |needle| ==>
      t[from..][i + k] == t[from + i + k];
  }
}
