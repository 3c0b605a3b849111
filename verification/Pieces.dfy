/**
  * Pieces of a document: runs of code units in one of two buffers. A list of pieces spells a text;
  * the lemmas relate prefixes of the list to prefixes of that text.
  */
module Pieces {
  import opened Sequences
  import opened Units
  import opened Lines

  datatype Source = Original | Add

  datatype Buffers = Buffers(original: Text, added: Text) {
    function For(source: Source): Text {
      match source
      case Original => original
      case Add => added
    }
  }

  /** `lineStarts` caches the newline offsets relative to the start of the piece. */
  datatype Piece = Piece(source: Source, start: nat, length: nat, lineStarts: seq<nat>) {
    predicate InRange(b: Buffers) {
      start + length <= |b.For(source)|
    }

    /** The text of the piece (pieces of a valid document are never out of range). */
    function Spell(b: Buffers): (r: Text)
      ensures InRange(b) ==> |r| == length
    {
      if InRange(b) then b.For(source)[start..start + length] else []
    }

    ghost predicate Sound(b: Buffers) {
      InRange(b) && length > 0
    }

    ghost predicate Cached(b: Buffers) {
      lineStarts == NewlineOffsets(Spell(b))
    }
  }

  ghost predicate AllSound(b: Buffers, ps: seq<Piece>) {
    forall i {:trigger ps[i].Sound(b)} :: 0 <= i < |ps| ==> ps[i].Sound(b)
  }

  ghost predicate AllCached(b: Buffers, ps: seq<Piece>) {
    forall i {:trigger ps[i].Cached(b)} :: 0 <= i < |ps| ==> ps[i].Cached(b)
  }

  /** The text of the first `i` pieces. */
  ghost function SpellTo(b: Buffers, ps: seq<Piece>, i: nat): Text
    requires i <= |ps|
  {
    if i == 0 then [] else SpellTo(b, ps, i - 1) + ps[i - 1].Spell(b)
  }

  ghost function SpellAll(b: Buffers, ps: seq<Piece>): Text {
    SpellTo(b, ps, |ps|)
  }

  /** The summed length of the first `i` pieces. */
  ghost function LengthTo(ps: seq<Piece>, i: nat): nat
    requires i <= |ps|
  {
    if i == 0 then 0 else LengthTo(ps, i - 1) + ps[i - 1].length
  }

  /** The summed newline caches of the first `i` pieces. */
  ghost function LinesTo(ps: seq<Piece>, i: nat): nat
    requires i <= |ps|
  {
    if i == 0 then 0 else LinesTo(ps, i - 1) + |ps[i - 1].lineStarts|
  }

  lemma {:induction false} SpellAgree(b: Buffers, ps: seq<Piece>, qs: seq<Piece>, i: nat)
    requires i <= |ps| && i <= |qs|
    requires forall k {:trigger ps[k]} :: 0 <= k < i ==> ps[k] == qs[k]
    ensures SpellTo(b, ps, i) == SpellTo(b, qs, i)
  {
    if i > 0 {
      SpellAgree(b, ps, qs, i - 1);
    }
  }

  lemma {:induction false} SpellConcatTo(
    b: Buffers, ps: seq<Piece>, qs: seq<Piece>, rs: seq<Piece>, j: nat)
    requires |rs| == |ps| + |qs| && j <= |qs|
    requires forall k {:trigger rs[k]} :: 0 <= k < |ps| ==> rs[k] == ps[k]
    requires forall k {:trigger qs[k]} :: 0 <= k < |qs| ==> rs[|ps| + k] == qs[k]
    ensures SpellTo(b, rs, |ps| + j) == SpellAll(b, ps) + SpellTo(b, qs, j)
  {
    if j == 0 {
      SpellAgree(b, rs, ps, |ps|);
    } else {
      SpellConcatTo(b, ps, qs, rs, j - 1);
      Assoc(SpellAll(b, ps), SpellTo(b, qs, j - 1), qs[j - 1].Spell(b));
    }
  }

  lemma {:induction false} SpellConcat(b: Buffers, ps: seq<Piece>, qs: seq<Piece>)
    ensures SpellAll(b, ps + qs) == SpellAll(b, ps) + SpellAll(b, qs)
  {
    SpellConcatTo(b, ps, qs, ps + qs, |qs|);
  }

  lemma {:induction false} SpellOne(b: Buffers, p: Piece)
    ensures SpellAll(b, [p]) == p.Spell(b)
  {
    assert SpellTo(b, [p], 0) == [];
  }

  lemma {:induction false} SpellTwo(b: Buffers, p: Piece, q: Piece)
    ensures SpellAll(b, [p, q]) == p.Spell(b) + q.Spell(b)
  {
    SpellOne(b, p);
    SpellAgree(b, [p, q], [p], 1);
  }

  /** Appending to the add buffer leaves every existing piece as it was. */
  lemma {:induction false} PieceAfterAppend(b: Buffers, more: Text, p: Piece)
    requires p.InRange(b)
    ensures var b' := b.(added := b.added + more); p.InRange(b') && p.Spell(b') == p.Spell(b)
  {
    var b' := b.(added := b.added + more);
    assert b'.For(p.source)[..|b.For(p.source)|] == b.For(p.source);
    assert p.Spell(b') == p.Spell(b);
  }

  lemma {:induction false} SpellsAlike(b: Buffers, b': Buffers, ps: seq<Piece>, i: nat)
    requires i <= |ps| && forall k {:trigger ps[k]} :: 0 <= k < i ==> ps[k].Spell(b') == ps[k].Spell(b)
    ensures SpellTo(b', ps, i) == SpellTo(b, ps, i)
  {
    if i > 0 {
      SpellsAlike(b, b', ps, i - 1);
    }
  }

  lemma {:induction false} SpellAfterAppend(b: Buffers, more: Text, ps: seq<Piece>, i: nat)
    requires AllSound(b, ps) && i <= |ps|
    ensures SpellTo(b.(added := b.added + more), ps, i) == SpellTo(b, ps, i)
  {
    forall k | 0 <= k < i
      ensures ps[k].Spell(b.(added := b.added + more)) == ps[k].Spell(b)
    {
      assert ps[k].Sound(b);
      PieceAfterAppend(b, more, ps[k]);
    }
    SpellsAlike(b, b.(added := b.added + more), ps, i);
  }

  lemma {:induction false} SoundAfterAppend(b: Buffers, more: Text, ps: seq<Piece>)
    requires AllSound(b, ps) && AllCached(b, ps)
    ensures AllSound(b.(added := b.added + more), ps) && AllCached(b.(added := b.added + more), ps)
  {
    var b' := b.(added := b.added + more);
    forall i | 0 <= i < |ps|
      ensures ps[i].Sound(b') && ps[i].Cached(b')
    {
      assert ps[i].Sound(b) && ps[i].Cached(b);
      PieceAfterAppend(b, more, ps[i]);
    }
  }

  /** In a sound list the summed lengths are the length of the text. */
  lemma {:induction false} LengthIsExact(b: Buffers, ps: seq<Piece>, i: nat)
    requires AllSound(b, ps) && i <= |ps|
    ensures LengthTo(ps, i) == |SpellTo(b, ps, i)|
  {
    if i > 0 {
      LengthIsExact(b, ps, i - 1);
      assert ps[i - 1].Sound(b);
    }
  }

  /** The first `i` pieces have cached as many newlines as they have. */
  ghost predicate Tallied(b: Buffers, ps: seq<Piece>, i: nat)
    requires i <= |ps|
  {
    i == 0 || (Tallied(b, ps, i - 1) && |ps[i - 1].lineStarts| == CountNewlines(ps[i - 1].Spell(b)))
  }

  lemma {:induction false} CachedTally(b: Buffers, ps: seq<Piece>, i: nat)
    requires AllCached(b, ps) && i <= |ps|
    ensures Tallied(b, ps, i)
  {
    if i > 0 {
      CachedTally(b, ps, i - 1);
      assert ps[i - 1].Cached(b);
    }
  }

  lemma {:induction false} LinesOfTallied(b: Buffers, ps: seq<Piece>, i: nat)
    requires i <= |ps| && Tallied(b, ps, i)
    ensures LinesTo(ps, i) == CountNewlines(SpellTo(b, ps, i))
  {
    if i > 0 {
      LinesOfTallied(b, ps, i - 1);
      CountSum(SpellTo(b, ps, i), SpellTo(b, ps, i - 1), ps[i - 1].Spell(b));
    }
  }

  /** In a cached list the summed caches count the newlines of the text. */
  lemma {:induction false} LinesAreExact(b: Buffers, ps: seq<Piece>, i: nat)
    requires AllCached(b, ps) && i <= |ps|
    ensures LinesTo(ps, i) == CountNewlines(SpellTo(b, ps, i))
  {
    CachedTally(b, ps, i);
    LinesOfTallied(b, ps, i);
  }

  /** A list cut in two spells the text cut in two. */
  lemma {:induction false} SpellSplit(b: Buffers, ps: seq<Piece>, i: nat)
    requires i <= |ps|
    ensures SpellAll(b, ps) == SpellTo(b, ps, i) + SpellAll(b, ps[i..])
    ensures SpellAll(b, ps[..i]) == SpellTo(b, ps, i)
  {
    SpellParts(b, ps, ps[..i], ps[i..]);
  }

  lemma {:induction false} SpellParts(b: Buffers, ps: seq<Piece>, xs: seq<Piece>, ys: seq<Piece>)
    requires ps == xs + ys
    ensures SpellAll(b, ps) == SpellAll(b, xs) + SpellAll(b, ys)
    ensures SpellAll(b, xs) == SpellTo(b, ps, |xs|)
  {
    SpellConcatTo(b, xs, ys, ps, |ys|);
    SpellAgree(b, xs, ps, |xs|);
  }

  lemma {:induction false} SpellPrefix(b: Buffers, ps: seq<Piece>, i: nat)
    requires AllSound(b, ps) && i <= |ps|
    ensures LengthTo(ps, i) <= |SpellAll(b, ps)|
    ensures SpellTo(b, ps, i) == SpellAll(b, ps)[..LengthTo(ps, i)]
    ensures SpellAll(b, ps[i..]) == SpellAll(b, ps)[LengthTo(ps, i)..]
  {
    LengthIsExact(b, ps, i);
    SpellSplit(b, ps, i);
  }

  lemma {:induction false} StartsText(b: Buffers, ps: seq<Piece>, i: nat)
    requires AllSound(b, ps) && i <= |ps|
    ensures |SpellTo(b, ps, i)| <= |SpellAll(b, ps)|
    ensures SpellAll(b, ps)[..|SpellTo(b, ps, i)|] == SpellTo(b, ps, i)
  {
    SpellPrefix(b, ps, i);
    LengthIsExact(b, ps, i);
  }

  /** Since pieces are never empty, prefix lengths strictly increase. */
  lemma {:induction false} LengthsIncrease(b: Buffers, ps: seq<Piece>, i: nat, j: nat)
    requires AllSound(b, ps) && i <= j <= |ps|
    ensures LengthTo(ps, i) + (j - i) <= LengthTo(ps, j)
    decreases j - i
  {
    if i < j {
      LengthsIncrease(b, ps, i, j - 1);
      assert ps[j - 1].Sound(b);
    }
  }

  /** `part` is the stretch of `t` that begins at `at`. */
  ghost predicate CopiedFrom(t: Text, at: nat, part: Text) {
    && at + |part| <= |t|
    && forall k {:trigger part[k]} :: 0 <= k < |part| ==> part[k] == t[at + k]
  }

  /** The text from the start of piece `i` begins with that piece. */
  lemma {:induction false} PieceInText(b: Buffers, ps: seq<Piece>, i: nat)
    requires AllSound(b, ps) && i < |ps|
    ensures ps[i].Sound(b)
    ensures CopiedFrom(SpellAll(b, ps), LengthTo(ps, i), ps[i].Spell(b))
  {
    assert ps[i].Sound(b);
    LengthIsExact(b, ps, i);
    SpellPrefix(b, ps, i + 1);
    MiddleOf(SpellAll(b, ps), SpellTo(b, ps, i), ps[i].Spell(b));
  }

  lemma {:induction false} MiddleOf(t: Text, x: Text, y: Text)
    requires |x| + |y| <= |t| && t[..|x| + |y|] == x + y
    ensures CopiedFrom(t, |x|, y)
  {
    forall k | 0 <= k < |y|
      ensures y[k] == t[|x| + k]
    {
      assert t[..|x| + |y|][|x| + k] == y[k];
    }
  }

  /** Newlines before an offset inside piece `i`: those of the pieces before, then those within. */
  lemma {:induction false} CountInPiece(b: Buffers, ps: seq<Piece>, i: nat, inner: nat)
    requires AllSound(b, ps) && AllCached(b, ps) && i < |ps| && inner <= ps[i].length
    ensures ps[i].Sound(b)
    ensures LengthTo(ps, i) + inner <= |SpellAll(b, ps)|
    ensures CountTo(SpellAll(b, ps), LengthTo(ps, i) + inner)
         == LinesTo(ps, i) + CountTo(ps[i].Spell(b), inner)
  {
    CountToPiece(b, ps, i, inner);
    StartsText(b, ps, i + 1);
    CountOfPrefix(SpellAll(b, ps), SpellTo(b, ps, i + 1), LengthTo(ps, i) + inner);
  }

  lemma {:induction false} BeforePiece(b: Buffers, ps: seq<Piece>, i: nat)
    requires AllSound(b, ps) && AllCached(b, ps) && i < |ps|
    ensures ps[i].Sound(b) && |ps[i].Spell(b)| == ps[i].length
    ensures |SpellTo(b, ps, i)| == LengthTo(ps, i)
    ensures CountNewlines(SpellTo(b, ps, i)) == LinesTo(ps, i)
  {
    assert ps[i].Sound(b);
    LengthIsExact(b, ps, i);
    LinesAreExact(b, ps, i);
  }

  lemma {:induction false} CountFrom(b: Buffers, ps: seq<Piece>, i: nat, inner: nat)
    requires i < |ps| && inner <= |ps[i].Spell(b)|
    requires |SpellTo(b, ps, i)| == LengthTo(ps, i) && CountNewlines(SpellTo(b, ps, i)) == LinesTo(ps, i)
    ensures LengthTo(ps, i) + inner <= |SpellTo(b, ps, i + 1)|
    ensures CountTo(SpellTo(b, ps, i + 1), LengthTo(ps, i) + inner)
         == LinesTo(ps, i) + CountTo(ps[i].Spell(b), inner)
  {
    CountAcross(SpellTo(b, ps, i), ps[i].Spell(b), inner, SpellTo(b, ps, i + 1), LengthTo(ps, i) + inner);
  }

  /** The same, in the text that ends with piece `i`. */
  lemma {:induction false} CountToPiece(b: Buffers, ps: seq<Piece>, i: nat, inner: nat)
    requires AllSound(b, ps) && AllCached(b, ps) && i < |ps| && inner <= ps[i].length
    ensures ps[i].Sound(b)
    ensures LengthTo(ps, i) + inner <= |SpellTo(b, ps, i + 1)|
    ensures CountTo(SpellTo(b, ps, i + 1), LengthTo(ps, i) + inner)
         == LinesTo(ps, i) + CountTo(ps[i].Spell(b), inner)
  {
    BeforePiece(b, ps, i);
    CountFrom(b, ps, i, inner);
  }

  lemma {:induction false} CountAcross(x: Text, y: Text, inner: nat, t: Text, o: nat)
    requires t == x + y && inner <= |y| && o == |x| + inner
    ensures CountTo(t, o) == CountNewlines(x) + CountTo(y, inner)
  {
    CountConcat(x, y, inner);
  }

  lemma {:induction false} CountOfPrefix(t: Text, x: Text, i: nat)
    requires i <= |x| <= |t| && t[..|x|] == x
    ensures CountTo(t, i) == CountTo(x, i)
  {
    assert t[..i] == t[..|x|][..i];
    CountAgree(t, x, i);
  }

  /** Some prefix of the pieces spells exactly `o` code units. */
  ghost predicate IsBoundary(ps: seq<Piece>, o: nat) {
    exists i :: 0 <= i <= |ps| && LengthTo(ps, i) == o
  }

  function Cut(ps: seq<Piece>, i: nat, left: Piece, right: Piece): seq<Piece>
    requires i < |ps|
  {
    ps[..i] + [left, right] + ps[i + 1..]
  }

  lemma {:induction false} LengthsAgree(ps: seq<Piece>, qs: seq<Piece>, i: nat)
    requires i <= |ps| && i <= |qs|
    requires forall k :: 0 <= k < i ==> ps[k] == qs[k]
    ensures LengthTo(ps, i) == LengthTo(qs, i)
  {
    if i > 0 {
      LengthsAgree(ps, qs, i - 1);
    }
  }

  /** Beyond the cut, the old prefix of `k` pieces is as long as the new prefix of `k + 1`. */
  lemma {:induction false} CutLengths(ps: seq<Piece>, i: nat, left: Piece, right: Piece, k: nat)
    requires i < k <= |ps|
    requires left.length + right.length == ps[i].length
    ensures LengthTo(Cut(ps, i, left, right), i + 1) == LengthTo(ps, i) + left.length
    ensures LengthTo(Cut(ps, i, left, right), k + 1) == LengthTo(ps, k)
    decreases k
  {
    var qs := Cut(ps, i, left, right);
    assert qs[i] == left && qs[i + 1] == right;
    LengthsAgree(qs, ps, i);
    if k > i + 1 {
      CutLengths(ps, i, left, right, k - 1);
      assert qs[k] == ps[k - 1];
    }
  }

  /** Cutting piece `i` in two keeps every boundary and adds one at the cut. */
  lemma {:induction false} CutBoundaries(ps: seq<Piece>, i: nat, left: Piece, right: Piece)
    requires i < |ps| && left.length + right.length == ps[i].length
    ensures var qs := Cut(ps, i, left, right);
            && IsBoundary(qs, LengthTo(ps, i) + left.length)
            && forall o :: IsBoundary(ps, o) ==> IsBoundary(qs, o)
  {
    var qs := Cut(ps, i, left, right);
    CutLengths(ps, i, left, right, |ps|);
    forall o | IsBoundary(ps, o)
      ensures IsBoundary(qs, o)
    {
      var k :| 0 <= k <= |ps| && LengthTo(ps, k) == o;
      if k <= i {
        LengthsAgree(qs, ps, k);
        assert LengthTo(qs, k) == o;
      } else {
        CutLengths(ps, i, left, right, k);
        assert LengthTo(qs, k + 1) == o;
      }
    }
  }

  /** Cutting a piece in two keeps the text. */
  lemma {:induction false} CutSpells(b: Buffers, ps: seq<Piece>, i: nat, left: Piece, right: Piece)
    requires i < |ps|
    requires left.Spell(b) + right.Spell(b) == ps[i].Spell(b)
    ensures SpellAll(b, Cut(ps, i, left, right)) == SpellAll(b, ps)
  {
    SwapPieces(b, ps, i, i + 1, [left, right]);
    SpellTwo(b, left, right);
    SpellSplit(b, ps, i + 1);
  }

  /** Exchanging the pieces between two positions exchanges the text between them. */
  lemma {:induction false} SwapPieces(b: Buffers, ps: seq<Piece>, first: nat, last: nat, mid: seq<Piece>)
    requires first <= last <= |ps|
    ensures SpellAll(b, ps[..first] + mid + ps[last..])
         == SpellTo(b, ps, first) + SpellAll(b, mid) + SpellAll(b, ps[last..])
  {
    SpellSplit(b, ps, first);
    SpellConcat(b, ps[..first], mid);
    SpellConcat(b, ps[..first] + mid, ps[last..]);
  }
}
