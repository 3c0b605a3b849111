/**
  * Batches that reach past the end of the text. Each replacement clamps its bounds to the length
  * of the moment, which for a right-to-left batch is not the original length. This module finds
  * exactly which ranges are safe from that.
  */
module Batches {
  import opened Sequences
  import opened Units
  import opened Edits

  function ClampEdit(n: nat, e: Edit): Edit {
    Edit(Clamp(e.start, n), Clamp(e.End(), n) - Clamp(e.start, n), e.deleted, e.inserted)
  }

  function ClampAll(n: nat, es: seq<Edit>): (r: seq<Edit>)
    ensures |r| == |es|
  {
    if es == [] then [] else [ClampEdit(n, es[0])] + ClampAll(n, es[1..])
  }

  lemma {:induction false} ClampFits(s: Text, pos: nat, es: seq<Edit>)
    requires Follows(pos, es)
    ensures Fits(s, Clamp(pos, |s|), ClampAll(|s|, es))
    decreases |es|
  {
    if es != [] {
      ClampFits(s, es[0].End(), es[1..]);
      assert ClampAll(|s|, es)[1..] == ClampAll(|s|, es[1..]);
    }
  }

  /** One step of the clamped substitution. */
  lemma {:induction false} ClampSubstitute(s: Text, pos: nat, es: seq<Edit>)
    requires Follows(pos, es) && es != []
    ensures Fits(s, Clamp(pos, |s|), ClampAll(|s|, es))
    ensures Fits(s, Clamp(es[0].End(), |s|), ClampAll(|s|, es[1..]))
    ensures Substitute(s, Clamp(pos, |s|), ClampAll(|s|, es))
         == s[Clamp(pos, |s|)..Clamp(es[0].start, |s|)] + es[0].inserted
            + Substitute(s, Clamp(es[0].End(), |s|), ClampAll(|s|, es[1..]))
  {
    var c, tail := ClampEdit(|s|, es[0]), ClampAll(|s|, es[1..]);
    assert c.End() == Clamp(es[0].End(), |s|) && ClampAll(|s|, es) == [c] + tail;
    ClampFits(s, es[0].End(), es[1..]);
    SubstituteCons(s, Clamp(pos, |s|), c, tail);
  }

  lemma {:induction false} SortedFollows(pos: nat, es: seq<Edit>)
    requires Sorted(es) && (es != [] ==> pos <= es[0].start)
    ensures Follows(pos, es)
    decreases |es|
  {
    if |es| > 1 {
      assert forall i :: 1 <= i < |es[1..]| ==> es[1..][i - 1] == es[i] && es[1..][i] == es[i + 1];
      SortedFollows(es[0].End(), es[1..]);
    }
  }

  /** What the batch promises: simultaneous substitution of the ranges clamped to the text. */
  ghost function Promised(s: Text, es: seq<Edit>): Text
    requires Follows(0, es)
  {
    ClampFits(s, 0, es);
    Substitute(s, 0, ClampAll(|s|, es))
  }

  /** Every edit but the last ends within the text. */
  ghost predicate EndsInside(n: nat, es: seq<Edit>) {
    forall i :: 0 <= i < |es| - 1 ==> es[i].End() <= n
  }

  lemma {:induction false} TailEndsInside(n: nat, es: seq<Edit>)
    requires EndsInside(n, es) && es != []
    ensures EndsInside(n, es[1..]) && ClampAll(n, es)[1..] == ClampAll(n, es[1..])
    ensures es[1..] != [] ==> ClampEdit(n, es[0]) == es[0]
  {
    var tail := es[1..];
    assert forall i :: 0 <= i < |tail| ==> tail[i] == es[i + 1];
    if tail != [] {
      assert es[0].End() <= n;
    }
  }

  /** Clamping one edit to the length of the text it is applied to changes nothing. */
  lemma {:induction false} ClampedOnce(s: Text, e: Edit)
    ensures var c := ClampEdit(|s|, e);
            && ReplaceText(s, c.start, c.End(), c.inserted) == ReplaceText(s, e.start, e.End(), e.inserted)
            && ReplaceRecord(s, c.start, c.End(), c.inserted) == ReplaceRecord(s, e.start, e.End(), e.inserted)
  {
  }

  lemma {:induction false} ClampingIsInvisible(s: Text, es: seq<Edit>)
    requires EndsInside(|s|, es)
    ensures BatchText(s, es) == BatchText(s, ClampAll(|s|, es))
    ensures BatchRecords(s, es) == BatchRecords(s, ClampAll(|s|, es))
  {
    if es != [] {
      TailEndsInside(|s|, es);
      ClampingIsInvisible(s, es[1..]);
      if es[1..] == [] {
        ClampedOnce(s, es[0]);
      }
    }
  }

  lemma {:induction false} EndsInsideKeepsPromise(s: Text, es: seq<Edit>)
    requires Follows(0, es) && EndsInside(|s|, es)
    ensures BatchText(s, es) == Promised(s, es)
  {
    ClampingIsInvisible(s, es);
    ClampFits(s, 0, es);
    BatchSubstitutes(s, 0, ClampAll(|s|, es));
    assert s[..0] + Promised(s, es) == Promised(s, es);
  }

  // ----- The converse: an earlier edit that overshoots breaks the promise for some insertions -----

  function WithInserted(es: seq<Edit>, ins: seq<Text>): (r: seq<Edit>)
    requires |ins| == |es|
    ensures |r| == |es|
    ensures forall i :: 0 <= i < |r| ==> r[i] == es[i].(inserted := ins[i])
  {
    seq(|es|, i requires 0 <= i < |es| => es[i].(inserted := ins[i]))
  }

  ghost predicate InsertsNothing(es: seq<Edit>) {
    es == [] || (es[0].inserted == [] && InsertsNothing(es[1..]))
  }

  /** Empty insertions wholly past the end change nothing. */
  lemma {:induction false} PastEndIsIdle(s: Text, pos: nat, es: seq<Edit>)
    requires Follows(pos, es) && |s| <= pos
    requires InsertsNothing(es)
    ensures BatchText(s, es) == s
    ensures Fits(s, |s|, ClampAll(|s|, es)) && Substitute(s, |s|, ClampAll(|s|, es)) == []
    decreases |es|
  {
    if es != [] {
      PastEndIsIdle(s, es[0].End(), es[1..]);
      assert ClampAll(|s|, es)[1..] == ClampAll(|s|, es[1..]);
    }
  }

  /** A failing batch: `k` fitting deletions, an overshooting insertion of `[0]`, then one of `y`. */
  ghost predicate Witness(n: nat, es: seq<Edit>, k: nat, y: Text)
    decreases k
  {
    if k == 0 then
      && |es| >= 2 && n < es[0].End() <= |y|
      && es[0].inserted == [0] && es[1].inserted == y && InsertsNothing(es[1..][1..])
    else
      es != [] && es[0].inserted == [] && es[0].End() <= n && Witness(n, es[1..], k - 1, y)
  }

  /** What an overshooting `[0]` leaves when it meets the `y` that the later edit appended. */
  function Met(n: nat, e: Edit, y: Text): Text
    requires n < e.End() <= |y|
  {
    (if e.start <= n then [] else y[..e.start - n]) + [0] + y[e.End() - n..]
  }

  lemma {:induction false} MetDiffers(n: nat, e: Edit, y: Text)
    requires n < e.End() <= |y| && (forall i :: 0 <= i < |y| ==> y[i] == 1)
    ensures Met(n, e, y) != [0] + y
  {
    if e.start <= n {
      assert |Met(n, e, y)| < |[0] + y|;
    } else {
      assert Met(n, e, y)[0] == y[0];
    }
  }

  /** A stretch of two texts put together that begins at the start and may end in the second. */
  lemma {:induction false} TakeAcross(s: Text, y: Text, pos: nat, k: nat)
    requires pos <= |s| && pos <= k <= |s| + |y|
    ensures (s + y)[..k]
         == s[..pos] + s[pos..Clamp(k, |s|)] + (if k <= |s| then [] else y[..k - |s|])
  {
  }

  lemma {:induction false} DropAcross(s: Text, y: Text, k: nat)
    requires |s| < k <= |s| + |y|
    ensures (s + y)[k..] == y[k - |s|..]
  {
  }

  lemma {:induction false} ReplaceInside(t: Text, i: nat, j: nat, ins: Text)
    requires i <= j <= |t|
    ensures ReplaceText(t, i, j, ins) == t[..i] + ins + t[j..]
  {
  }

  lemma {:induction false} OvershootReplaces(s: Text, pos: nat, e: Edit, y: Text)
    requires pos <= |s| && pos <= e.start && |s| < e.End() <= |y| && e.inserted == [0]
    ensures ReplaceText(s + y, e.start, e.End(), e.inserted)
         == s[..pos] + (s[pos..Clamp(e.start, |s|)] + Met(|s|, e, y))
  {
    var i, j := e.start, e.End();
    var past := if i <= |s| then [] else y[..i - |s|];
    ReplaceInside(s + y, i, j, [0]);
    TakeAcross(s, y, pos, i);
    DropAcross(s, y, j);
    FiveParts(s[..pos], s[pos..Clamp(i, |s|)], past, [0], y[j - |s|..]);
  }

  lemma {:induction false} FiveParts(v: Text, w: Text, x: Text, y: Text, z: Text)
    ensures v + w + x + y + z == v + (w + (x + y + z))
  {
  }

  lemma {:induction false} OvershootBatch(s: Text, pos: nat, es: seq<Edit>, y: Text)
    requires Follows(pos, es) && pos <= |s| && Witness(|s|, es, 0, y)
    ensures BatchText(s, es) == s[..pos] + (s[pos..Clamp(es[0].start, |s|)] + Met(|s|, es[0], y))
  {
    PastEndIsIdle(s, es[1].End(), es[1..][1..]);
    var f := es[1..][0];
    assert BatchText(s, es[1..]) == Splice(s, |s|, |s|, f.inserted) == s + y;
    OvershootReplaces(s, pos, es[0], y);
  }

  lemma {:induction false} EmptyAround(empty: Text, y: Text)
    requires empty == []
    ensures empty + y + [] == y
  {
  }

  lemma {:induction false} OvershootPromise(s: Text, pos: nat, es: seq<Edit>, y: Text)
    requires Follows(pos, es) && pos <= |s| && Witness(|s|, es, 0, y)
    ensures Fits(s, pos, ClampAll(|s|, es))
    ensures Substitute(s, pos, ClampAll(|s|, es)) == s[pos..Clamp(es[0].start, |s|)] + ([0] + y)
  {
    var t1 := es[1..];
    PastEndIsIdle(s, es[1].End(), t1[1..]);
    ClampSubstitute(s, pos, es);
    ClampSubstitute(s, es[0].End(), t1);
    EmptyAround(s[|s|..|s|], y);
    EmptyBetween(s[pos..Clamp(es[0].start, |s|)], [0] + y);
    Assoc(s[pos..Clamp(es[0].start, |s|)], [0], y);
  }

  /** Fitting deletions in front change nothing: `d` is shared, what comes after it differs. */
  lemma {:induction false} OvershootDiverges(s: Text, pos: nat, es: seq<Edit>, k: nat, y: Text)
    returns (d: Text)
    requires Follows(pos, es) && pos <= |s| && Witness(|s|, es, k, y)
    ensures k < |es| && |s| < es[k].End() <= |y|
    ensures BatchText(s, es) == s[..pos] + (d + Met(|s|, es[k], y))
    ensures Fits(s, pos, ClampAll(|s|, es))
    ensures Substitute(s, pos, ClampAll(|s|, es)) == d + ([0] + y)
    decreases |es|
  {
    if k == 0 {
      d := s[pos..Clamp(es[0].start, |s|)];
      OvershootBatch(s, pos, es, y);
      OvershootPromise(s, pos, es, y);
    } else {
      var e, tail := es[0], es[1..];
      var d' := OvershootDiverges(s, e.End(), tail, k - 1, y);
      assert tail[k - 1] == es[k];
      d := s[pos..e.start] + d';
      ClampSubstitute(s, pos, es);
      EmptyBetween(s[pos..e.start], d' + ([0] + y));
      Assoc(s[pos..e.start], d', [0] + y);
      var met := Met(|s|, es[k], y);
      ReplaceInPrefix(s, pos, e, d' + met);
      EmptyBetween(s[pos..e.start], d' + met);
      Assoc(s[pos..e.start], d', met);
    }
  }

  lemma {:induction false} FollowsIgnoresInserted(pos: nat, es: seq<Edit>, fs: seq<Edit>)
    requires Follows(pos, es) && |es| == |fs|
    requires forall i :: 0 <= i < |es| ==> es[i].start == fs[i].start && es[i].removed == fs[i].removed
    ensures Follows(pos, fs)
    decreases |es|
  {
    if es != [] {
      assert forall i :: 0 <= i < |es[1..]| ==> es[1..][i] == es[i + 1] && fs[1..][i] == fs[i + 1];
      FollowsIgnoresInserted(es[0].End(), es[1..], fs[1..]);
    }
  }

  ghost predicate KeepsPromise(s: Text, es: seq<Edit>, ins: seq<Text>)
    requires |ins| == |es| && Follows(0, es)
  {
    FollowsIgnoresInserted(0, es, WithInserted(es, ins));
    BatchText(s, WithInserted(es, ins)) == Promised(s, WithInserted(es, ins))
  }

  lemma {:induction false} EmptyInserts(es: seq<Edit>)
    requires forall i :: 0 <= i < |es| ==> es[i].inserted == []
    ensures InsertsNothing(es)
  {
    if es != [] {
      EmptyInserts(es[1..]);
    }
  }

  lemma {:induction false} WitnessHolds(n: nat, es: seq<Edit>, k: nat, y: Text)
    requires k + 1 < |es|
    requires forall i :: 0 <= i < k ==> es[i].End() <= n
    requires n < es[k].End() <= |y| && es[k].inserted == [0] && es[k + 1].inserted == y
    requires forall i :: 0 <= i < |es| && i != k && i != k + 1 ==> es[i].inserted == []
    ensures Witness(n, es, k, y)
    decreases k
  {
    if k == 0 {
      EmptyInserts(es[1..][1..]);
    } else {
      WitnessHolds(n, es[1..], k - 1, y);
    }
  }

  lemma {:induction false} OvershootMismatch(s: Text, es: seq<Edit>, k: nat, y: Text)
    requires Follows(0, es) && Witness(|s|, es, k, y)
    requires forall i :: 0 <= i < |y| ==> y[i] == 1
    ensures BatchText(s, es) != Promised(s, es)
  {
    var d := OvershootDiverges(s, 0, es, k, y);
    MetDiffers(|s|, es[k], y);
    SamePrefix(s[..0], d, Met(|s|, es[k], y), [0] + y);
  }

  function Ones(n: nat): (y: Text)
    ensures |y| == n && forall i :: 0 <= i < n ==> y[i] == 1
  {
    seq(n, _ => 1)
  }

  function Trap(n: nat, k: nat, y: Text): (ins: seq<Text>)
    ensures |ins| == n
    ensures forall i :: 0 <= i < n ==> ins[i] == if i == k then [0] else if i == k + 1 then y else []
  {
    seq(n, i => if i == k then [0] else if i == k + 1 then y else [])
  }

  lemma {:induction false} OvershootBreaksPromise(s: Text, es: seq<Edit>, k: nat)
    requires Follows(0, es) && k + 1 < |es|
    requires forall i :: 0 <= i < k ==> es[i].End() <= |s|
    requires es[k].End() > |s|
    ensures exists ins: seq<Text> :: |ins| == |es| && !KeepsPromise(s, es, ins)
  {
    var y := Ones(es[k].End());
    var ins := Trap(|es|, k, y);
    FollowsIgnoresInserted(0, es, WithInserted(es, ins));
    TrapIsWitness(|s|, es, k, y);
    OvershootMismatch(s, WithInserted(es, ins), k, y);
    assert !KeepsPromise(s, es, ins);
  }

  lemma {:induction false} TrapIsWitness(n: nat, es: seq<Edit>, k: nat, y: Text)
    requires k + 1 < |es| && n < es[k].End() <= |y|
    requires forall i :: 0 <= i < k ==> es[i].End() <= n
    ensures Witness(n, WithInserted(es, Trap(|es|, k, y)), k, y)
  {
    WitnessHolds(n, WithInserted(es, Trap(|es|, k, y)), k, y);
  }

  lemma {:induction false} SamePrefix(empty: Text, d: Text, x: Text, x': Text)
    requires empty == [] && x != x'
    ensures empty + (d + x) != d + x'
  {
    assert (empty + (d + x))[|d|..] == x;
    assert (d + x')[|d|..] == x';
  }

  lemma {:induction false} FirstOvershoot(n: nat, es: seq<Edit>) returns (k: nat)
    requires !EndsInside(n, es)
    ensures k + 1 < |es| && es[k].End() > n
    ensures forall i :: 0 <= i < k ==> es[i].End() <= n
  {
    if es[0].End() > n {
      k := 0;
    } else {
      assert forall i :: 0 <= i < |es[1..]| ==> es[1..][i] == es[i + 1];
      k := FirstOvershoot(n, es[1..]);
      k := k + 1;
      assert forall i :: 1 <= i < k ==> es[i] == es[1..][i - 1];
    }
  }

  /**
    * Exactly when right-to-left application is simultaneous substitution, whatever is inserted:
    * every range but the last must end within the text.
    */
  lemma {:induction false} PromiseKeptIffEndsInside(s: Text, es: seq<Edit>)
    requires Follows(0, es)
    ensures (forall ins: seq<Text> :: |ins| == |es| ==> KeepsPromise(s, es, ins))
       <==> EndsInside(|s|, es)
  {
    if EndsInside(|s|, es) {
      forall ins: seq<Text> | |ins| == |es|
        ensures KeepsPromise(s, es, ins)
      {
        FollowsIgnoresInserted(0, es, WithInserted(es, ins));
        EndsInsideKeepsPromise(s, WithInserted(es, ins));
      }
    } else {
      var k := FirstOvershoot(|s|, es);
      OvershootBreaksPromise(s, es, k);
    }
  }

  // ----- Undo of any batch -----

  /** The records invert into an accepted batch that restores the text. */
  ghost predicate Undone(s: Text, es: seq<Edit>) {
    var rs := BatchRecords(s, es);
    && Follows(0, rs)
    && var inv := Inverse(0, 0, rs);
       Sorted(inv) && Fits(BatchText(s, es), 0, inv) && BatchText(BatchText(s, es), inv) == s
  }

  /** A record replayed on the text it was made on makes the same text and the same record. */
  lemma {:induction false} ReplayOne(t: Text, e: Edit)
    ensures var r := ReplaceRecord(t, e.start, e.End(), e.inserted);
            && r.End() <= |t|
            && ReplaceText(t, r.start, r.End(), r.inserted) == ReplaceText(t, e.start, e.End(), e.inserted)
            && ReplaceRecord(t, r.start, r.End(), r.inserted) == r
  {
  }

  lemma {:induction false} Replay(s: Text, es: seq<Edit>)
    ensures BatchText(s, BatchRecords(s, es)) == BatchText(s, es)
    ensures BatchRecords(s, BatchRecords(s, es)) == BatchRecords(s, es)
  {
    if es != [] {
      Replay(s, es[1..]);
      ReplayOne(BatchText(s, es[1..]), es[0]);
      assert BatchRecords(s, es)[1..] == BatchRecords(s, es[1..]);
    }
  }

  /** Records that do not overlap lie in the original text. */
  lemma {:induction false} RecordsLieInside(s: Text, pos: nat, es: seq<Edit>)
    requires es != [] && Follows(pos, BatchRecords(s, es))
    ensures Fits(s, pos, BatchRecords(s, es))
    decreases |es|
  {
    var r, rest := BatchRecords(s, es)[0], BatchRecords(s, es[1..]);
    assert BatchRecords(s, es)[1..] == rest;
    ReplayOne(BatchText(s, es[1..]), es[0]);
    if es[1..] != [] {
      RecordsLieInside(s, r.End(), es[1..]);
      FitsBound(s, r.End(), rest);
    }
  }

  /** A batch, sorted or not, is undone by what it recorded if and only if its records do not overlap. */
  lemma {:induction false} UndoneIffRecordsFollow(s: Text, es: seq<Edit>)
    ensures Undone(s, es) <==> Follows(0, BatchRecords(s, es))
  {
    if Follows(0, BatchRecords(s, es)) {
      if es != [] {
        RecordsLieInside(s, 0, es);
      }
      Replay(s, es);
      UndoRestores(s, BatchRecords(s, es));
    }
  }

  lemma {:induction false} EndsInsideIsUndone(s: Text, es: seq<Edit>)
    requires Follows(0, es) && EndsInside(|s|, es)
    ensures Undone(s, es)
  {
    ClampFits(s, 0, es);
    ClampingIsInvisible(s, es);
    UndoRestores(s, ClampAll(|s|, es));
  }

  /** The overshooting edit of a witness is recorded up to its end, past where the next one is recorded. */
  lemma {:induction false} OvershootOverlaps(s: Text, pos: nat, es: seq<Edit>, y: Text)
    requires Follows(pos, es) && Witness(|s|, es, 0, y)
    ensures var rs := BatchRecords(s, es); |rs| >= 2 && rs[0].End() > rs[1].start
  {
    PastEndIsIdle(s, es[1].End(), es[1..][1..]);
    var f := es[1..][0];
    assert BatchText(s, es[1..]) == Splice(s, |s|, |s|, f.inserted) == s + y;
    assert BatchRecords(s, es)[1] == BatchRecords(s, es[1..])[0];
  }

  lemma {:induction false} WitnessOverlaps(s: Text, pos: nat, es: seq<Edit>, k: nat, y: Text, at: nat)
    requires Follows(pos, es) && Witness(|s|, es, k, y)
    ensures !Follows(at, BatchRecords(s, es))
    decreases |es|
  {
    var rs := BatchRecords(s, es);
    if k == 0 {
      OvershootOverlaps(s, pos, es, y);
      assert rs[1..][0] == rs[1];
    } else {
      WitnessOverlaps(s, es[0].End(), es[1..], k - 1, y, rs[0].End());
      assert rs[1..] == BatchRecords(s, es[1..]);
    }
  }

  lemma {:induction false} OvershootBreaksUndo(s: Text, es: seq<Edit>, k: nat)
    requires Follows(0, es) && k + 1 < |es|
    requires forall i :: 0 <= i < k ==> es[i].End() <= |s|
    requires es[k].End() > |s|
    ensures exists ins: seq<Text> :: |ins| == |es| && !Undone(s, WithInserted(es, ins))
  {
    var y := Ones(es[k].End());
    var ins := Trap(|es|, k, y);
    FollowsIgnoresInserted(0, es, WithInserted(es, ins));
    TrapIsWitness(|s|, es, k, y);
    WitnessOverlaps(s, 0, WithInserted(es, ins), k, y, 0);
    assert !Undone(s, WithInserted(es, ins));
  }

  /**
    * Exactly when a sorted batch can be undone by what it recorded, whatever it inserts: the condition
    * under which it is simultaneous substitution.
    */
  lemma {:induction false} UndoKeptIffEndsInside(s: Text, es: seq<Edit>)
    requires Follows(0, es)
    ensures (forall ins: seq<Text> :: |ins| == |es| ==> Undone(s, WithInserted(es, ins)))
       <==> EndsInside(|s|, es)
  {
    if EndsInside(|s|, es) {
      forall ins: seq<Text> | |ins| == |es|
        ensures Undone(s, WithInserted(es, ins))
      {
        FollowsIgnoresInserted(0, es, WithInserted(es, ins));
        EndsInsideIsUndone(s, WithInserted(es, ins));
      }
    } else {
      var k := FirstOvershoot(|s|, es);
      OvershootBreaksUndo(s, es, k);
    }
  }

  /** A sorted batch that is accepted and cannot be undone by what it recorded. */
  lemma {:induction false} AcceptedButNotUndone()
    ensures var es := [Edit(0, 10, [], [1]), Edit(10, 0, [], [2, 2, 2])];
            Sorted(es) && !Undone([7, 7, 7], es)
  {
    var s: Text := [7, 7, 7];
    var e, f := Edit(0, 10, [], [1]), Edit(10, 0, [], [2, 2, 2]);
    assert [e, f][1..] == [f] && [f][1..] == [];
    assert BatchText(s, [f]) == [7, 7, 7, 2, 2, 2];
    assert BatchRecords(s, [e, f])[0].End() == 6;
    assert BatchRecords(s, [e, f])[1..][0] == ReplaceRecord(s, 10, 10, [2, 2, 2]);
  }
}
