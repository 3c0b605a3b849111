/**
  * Edits on a plain string: one replacement, a batch applied right to left, the same batch read as
  * simultaneous substitution in original coordinates, and the batch that undoes it.
  */
module Edits {
  import opened Units

  /** A requested edit, and also the record of an applied one (then `deleted` is filled in). */
  datatype Edit = Edit(start: nat, removed: nat, deleted: Text, inserted: Text) {
    function End(): nat { start + removed }
  }

  function Clamp(o: nat, n: nat): (r: nat)
    ensures r <= n && r <= o
  {
    if o > n then n else o
  }

  /** `s` with `s[a..b]` exchanged for `ins`. */
  function Splice(s: Text, a: nat, b: nat, ins: Text): Text
    requires a <= b <= |s|
  {
    s[..a] + ins + s[b..]
  }

  /** The range a pair of bounds denotes: both clamped to the text, then put in order. */
  function Range(n: nat, start: nat, end: nat): (r: (nat, nat))
    ensures r.0 <= r.1 <= n
  {
    var a, b := Clamp(start, n), Clamp(end, n);
    if a > b then (b, a) else (a, b)
  }

  function ReplaceText(s: Text, start: nat, end: nat, ins: Text): Text {
    var (a, b) := Range(|s|, start, end);
    Splice(s, a, b, ins)
  }

  /** What `replace` reports about itself. */
  function ReplaceRecord(s: Text, start: nat, end: nat, ins: Text): Edit {
    var (a, b) := Range(|s|, start, end);
    Edit(a, b - a, s[a..b], ins)
  }

  /** `slice` on a plain string: clamped bounds, empty when they cross. */
  function SliceText(s: Text, start: nat, end: nat): Text {
    var a, b := Clamp(start, |s|), Clamp(end, |s|);
    if a >= b then [] else s[a..b]
  }

  // ----- Batches -----

  ghost predicate Sorted(es: seq<Edit>) {
    forall i :: 1 <= i < |es| ==> es[i - 1].End() <= es[i].start
  }

  /** A batch applied right to left, one replacement at a time. */
  function BatchText(s: Text, es: seq<Edit>): Text {
    if es == [] then s
    else ReplaceText(BatchText(s, es[1..]), es[0].start, es[0].End(), es[0].inserted)
  }

  function BatchRecords(s: Text, es: seq<Edit>): (rs: seq<Edit>)
    ensures |rs| == |es|
  {
    if es == [] then []
    else [ReplaceRecord(BatchText(s, es[1..]), es[0].start, es[0].End(), es[0].inserted)]
         + BatchRecords(s, es[1..])
  }

  lemma {:induction false} BatchStep(s: Text, es: seq<Edit>, i: nat)
    requires i < |es|
    ensures BatchText(s, es[i..])
         == ReplaceText(BatchText(s, es[i + 1..]), es[i].start, es[i].End(), es[i].inserted)
    ensures BatchRecords(s, es[i..])
         == [ReplaceRecord(BatchText(s, es[i + 1..]), es[i].start, es[i].End(), es[i].inserted)]
            + BatchRecords(s, es[i + 1..])
  {
    assert es[i..][1..] == es[i + 1..];
  }

  /** The edits cover disjoint ascending ranges of `s`, none of them before `pos`. */
  ghost predicate Fits(s: Text, pos: nat, es: seq<Edit>)
    decreases |es|
  {
    if es == [] then pos <= |s|
    else pos <= es[0].start && es[0].End() <= |s| && Fits(s, es[0].End(), es[1..])
  }

  /**
    * Simultaneous substitution: copy `s` from `pos` on, exchanging each edited range of the
    * original for the inserted text.
    */
  ghost function Substitute(s: Text, pos: nat, es: seq<Edit>): Text
    requires Fits(s, pos, es)
    decreases |es|
  {
    if es == [] then s[pos..]
    else s[pos..es[0].start] + es[0].inserted + Substitute(s, es[0].End(), es[1..])
  }

  lemma {:induction false} SubstituteCons(s: Text, pos: nat, e: Edit, es: seq<Edit>)
    requires pos <= e.start && e.End() <= |s| && Fits(s, e.End(), es)
    ensures Fits(s, pos, [e] + es)
    ensures Substitute(s, pos, [e] + es)
         == s[pos..e.start] + e.inserted + Substitute(s, e.End(), es)
  {
    assert ([e] + es)[1..] == es;
  }

  lemma {:induction false} FitsBound(s: Text, pos: nat, es: seq<Edit>)
    requires Fits(s, pos, es)
    ensures pos <= |s|
  {
  }

  lemma {:induction false} FitsSorted(s: Text, pos: nat, es: seq<Edit>)
    requires Fits(s, pos, es)
    ensures Sorted(es)
    ensures es != [] ==> pos <= es[0].start && es[|es| - 1].End() <= |s|
    decreases |es|
  {
    if es != [] {
      var rest := es[1..];
      FitsSorted(s, es[0].End(), rest);
      forall i | 1 <= i < |es|
        ensures es[i - 1].End() <= es[i].start
      {
        assert es[i] == rest[i - 1];
        if i > 1 {
          assert es[i - 1] == rest[i - 2];
        }
      }
      if rest != [] {
        assert es[|es| - 1] == rest[|rest| - 1];
      }
    }
  }

  /** Replacing inside the untouched prefix of `s` keeps whatever follows it. */
  lemma {:induction false} ReplaceInPrefix(s: Text, pos: nat, e: Edit, tail: Text)
    requires pos <= e.start && e.End() <= |s|
    ensures ReplaceText(s[..e.End()] + tail, e.start, e.End(), e.inserted)
         == s[..pos] + (s[pos..e.start] + e.inserted + tail)
  {
    var t := s[..e.End()] + tail;
    assert t[..e.start] == s[..pos] + s[pos..e.start];
    assert t[e.End()..] == tail;
  }

  /** Right to left and all at once agree: nothing before `pos` moves, the rest is substituted. */
  lemma {:induction false} BatchSubstitutes(s: Text, pos: nat, es: seq<Edit>)
    requires Fits(s, pos, es)
    ensures pos <= |s|
    ensures BatchText(s, es) == s[..pos] + Substitute(s, pos, es)
    decreases |es|
  {
    if es == [] {
      assert s == s[..pos] + s[pos..];
    } else {
      var e := es[0];
      BatchSubstitutes(s, e.End(), es[1..]);
      ReplaceInPrefix(s, pos, e, Substitute(s, e.End(), es[1..]));
    }
  }

  /** Every captured `deleted` is the original text of its range. */
  lemma {:induction false} RecordsAreOriginal(s: Text, pos: nat, es: seq<Edit>, k: nat)
    requires Fits(s, pos, es) && k < |es|
    ensures es[k].End() <= |s|
    ensures BatchRecords(s, es)[k]
         == es[k].(deleted := s[es[k].start..es[k].End()])
    decreases |es|
  {
    var e := es[0];
    if k == 0 {
      BatchSubstitutes(s, e.End(), es[1..]);
      assert BatchText(s, es[1..])[e.start..e.End()] == s[e.start..e.End()];
    } else {
      RecordsAreOriginal(s, e.End(), es[1..], k - 1);
    }
  }

  // ----- Undo -----

  /** Ascending disjoint ranges from `pos` on: `Fits` without a text to end in. */
  ghost predicate Follows(pos: nat, es: seq<Edit>)
    decreases |es|
  {
    es == [] || (pos <= es[0].start && Follows(es[0].End(), es[1..]))
  }

  lemma {:induction false} FitsFollows(s: Text, pos: nat, es: seq<Edit>)
    requires Fits(s, pos, es)
    ensures Follows(pos, es)
    decreases |es|
  {
    if es != [] {
      FitsFollows(s, es[0].End(), es[1..]);
    }
  }

  /**
    * The batch that undoes applied records: `pos` in the old text sits at `at` in the new one, so
    * each start moves by the length gained so far.
    */
  ghost function Inverse(at: nat, pos: nat, rs: seq<Edit>): (inv: seq<Edit>)
    requires Follows(pos, rs)
    ensures |inv| == |rs|
    decreases |rs|
  {
    if rs == [] then []
    else
      var r := rs[0];
      var q := at + (r.start - pos);
      [Edit(q, |r.inserted|, r.inserted, r.deleted)]
      + Inverse(q + |r.inserted|, r.End(), rs[1..])
  }

  /** Every record holds the text it removed. */
  ghost predicate Captured(s: Text, rs: seq<Edit>) {
    rs == [] || (&& rs[0].End() <= |s|
                 && rs[0].deleted == s[rs[0].start..rs[0].End()]
                 && Captured(s, rs[1..]))
  }

  lemma {:induction false} CapturedCons(s: Text, r: Edit, rs: seq<Edit>)
    requires r.End() <= |s| && r.deleted == s[r.start..r.End()] && Captured(s, rs)
    ensures Captured(s, [r] + rs)
  {
    assert ([r] + rs)[1..] == rs;
  }

  /** Applied at `at`, a fitting batch turns the rest of `u` into `back`. */
  ghost predicate Restores(u: Text, at: nat, inv: seq<Edit>, back: Text) {
    Fits(u, at, inv) && Substitute(u, at, inv) == back
  }

  lemma {:induction false} ThreeParts(s: Text, i: nat, j: nat, k: nat)
    requires i <= j <= k <= |s|
    ensures s[i..] == s[i..j] + s[j..k] + s[k..]
  {
  }

  lemma {:induction false} InverseCons(at: nat, pos: nat, rs: seq<Edit>)
    requires rs != [] && Follows(pos, rs)
    ensures Inverse(at, pos, rs)
         == [Edit(at + (rs[0].start - pos), |rs[0].inserted|, rs[0].inserted, rs[0].deleted)]
            + Inverse(at + (rs[0].start - pos) + |rs[0].inserted|, rs[0].End(), rs[1..])
  {
  }

  lemma {:induction false} RestAfter(u: Text, at: nat, gap: Text, inserted: Text, tail: Text)
    requires at <= |u| && u[at..] == gap + inserted + tail
    ensures at + |gap| + |inserted| <= |u|
    ensures u[at..at + |gap|] == gap && u[at + |gap| + |inserted|..] == tail
  {
    assert u[at..at + |gap|] == u[at..][..|gap|];
    assert u[at + |gap| + |inserted|..] == u[at..][|gap| + |inserted|..];
  }

  /** What stands where the first record was, with the inverse of the rest behind it. */
  lemma {:induction false} RestoreFirst(u: Text, at: nat, gap: Text, inserted: Text, deleted: Text,
                                        inner: seq<Edit>, rest: Text)
    requires at + |gap| + |inserted| <= |u| && u[at..at + |gap|] == gap
    requires Restores(u, at + |gap| + |inserted|, inner, rest)
    ensures Restores(u, at, [Edit(at + |gap|, |inserted|, inserted, deleted)] + inner, gap + deleted + rest)
  {
    SubstituteCons(u, at, Edit(at + |gap|, |inserted|, inserted, deleted), inner);
  }

  /** Past what the first record inserted, `u` goes on with what the other records make. */
  lemma {:induction false} PastFirst(s: Text, u: Text, at: nat, pos: nat, rs: seq<Edit>, next: nat)
    requires rs != [] && Fits(s, pos, rs) && at <= |u| && u[at..] == Substitute(s, pos, rs)
    requires next == at + (rs[0].start - pos) + |rs[0].inserted|
    ensures pos <= rs[0].End() <= |s|
    ensures next <= |u| && u[at..at + (rs[0].start - pos)] == s[pos..rs[0].start]
    ensures u[next..] == Substitute(s, rs[0].End(), rs[1..])
  {
    FitsBound(s, rs[0].End(), rs[1..]);
    RestAfter(u, at, s[pos..rs[0].start], rs[0].inserted, Substitute(s, rs[0].End(), rs[1..]));
  }

  /** The first record's part of the undo: `gap` is kept, and its range gets back what it held. */
  lemma {:induction false} InverseFirst(u: Text, at: nat, gap: Text, pos: nat, rs: seq<Edit>, rest: Text)
    requires rs != [] && Follows(pos, rs) && |gap| == rs[0].start - pos
    requires at + |gap| + |rs[0].inserted| <= |u| && u[at..at + |gap|] == gap
    requires var next := at + |gap| + |rs[0].inserted|;
             Restores(u, next, Inverse(next, rs[0].End(), rs[1..]), rest)
    ensures Restores(u, at, Inverse(at, pos, rs), gap + rs[0].deleted + rest)
  {
    var r, next := rs[0], at + |gap| + |rs[0].inserted|;
    InverseCons(at, pos, rs);
    RestoreFirst(u, at, gap, r.inserted, r.deleted, Inverse(next, r.End(), rs[1..]), rest);
  }

  /** Where the substituted text stands in `u` from `at` on, the inverse puts the old text back. */
  lemma {:induction false} InverseRestores(s: Text, u: Text, at: nat, pos: nat, rs: seq<Edit>)
    requires Fits(s, pos, rs) && Captured(s, rs)
    requires at <= |u| && u[at..] == Substitute(s, pos, rs)
    ensures Follows(pos, rs) && pos <= |s|
    ensures Restores(u, at, Inverse(at, pos, rs), s[pos..])
    decreases |rs|
  {
    FitsFollows(s, pos, rs);
    if rs != [] {
      var next := at + (rs[0].start - pos) + |rs[0].inserted|;
      PastFirst(s, u, at, pos, rs, next);
      InverseRestores(s, u, next, rs[0].End(), rs[1..]);
      InverseFirst(u, at, s[pos..rs[0].start], pos, rs, s[rs[0].End()..]);
      ThreeParts(s, pos, rs[0].start, rs[0].End());
    }
  }

  /** The records of a fitting batch cover the same ranges with the same insertions. */
  lemma {:induction false} RecordsFit(s: Text, pos: nat, es: seq<Edit>)
    requires Fits(s, pos, es)
    ensures var rs := BatchRecords(s, es);
            Fits(s, pos, rs) && Captured(s, rs) && Substitute(s, pos, rs) == Substitute(s, pos, es)
    decreases |es|
  {
    if es != [] {
      RecordsFit(s, es[0].End(), es[1..]);
      RecordsAreOriginal(s, pos, es, 0);
      var r, rest := BatchRecords(s, es)[0], BatchRecords(s, es[1..]);
      FitsBound(s, es[0].End(), es[1..]);
      SubstituteCons(s, pos, r, rest);
      CapturedCons(s, r, rest);
    }
  }

  /**
    * Undo: the inverse of what a fitting batch recorded is itself sorted and fitting, and applying
    * it gives the original text back.
    */
  lemma {:induction false} UndoRestores(s: Text, es: seq<Edit>)
    requires Fits(s, 0, es)
    ensures Follows(0, BatchRecords(s, es))
    ensures var inv := Inverse(0, 0, BatchRecords(s, es));
            && Sorted(inv)
            && Fits(BatchText(s, es), 0, inv)
            && BatchText(BatchText(s, es), inv) == s
  {
    var rs := BatchRecords(s, es);
    RecordsFit(s, 0, es);
    var u := BatchText(s, es);
    BatchSubstitutes(s, 0, es);
    assert u[0..] == s[..0] + Substitute(s, 0, es) == Substitute(s, 0, rs);
    InverseRestores(s, u, 0, 0, rs);
    var inv := Inverse(0, 0, rs);
    FitsSorted(u, 0, inv);
    BatchSubstitutes(u, 0, inv);
    assert u[..0] + Substitute(u, 0, inv) == s[0..] == s;
  }
}
