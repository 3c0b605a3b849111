/**
  * The text document: pieces over an immutable seed buffer and an append-only add buffer, with
  * prefix sums of lengths and newline counts that every edit rebuilds.
  */
module Document {
  import opened Options
  import opened Units
  import opened Lines
  import opened Edits
  import opened Pieces
  import opened Search

  class TextDocument {
    const original: Text
    var addBuffer: Text
    var pieces: seq<Piece>
    var cumLen: seq<nat>
    var cumLines: seq<nat>
    var revision: nat

    ghost function Bufs(): Buffers
      reads this
    {
      Buffers(original, addBuffer)
    }

    /** The plain string this document stands for. */
    ghost function Content(): Text
      reads this
    {
      SpellAll(Bufs(), pieces)
    }

    ghost predicate PrefixSums()
      reads this
    {
      && |cumLen| == |cumLines| == |pieces| + 1
      && (forall i {:trigger cumLen[i]} :: 0 <= i <= |pieces| ==> cumLen[i] == LengthTo(pieces, i))
      && (forall i {:trigger cumLines[i]} :: 0 <= i <= |pieces| ==> cumLines[i] == LinesTo(pieces, i))
    }

    ghost predicate Valid()
      reads this
    {
      && AllSound(Bufs(), pieces)
      && AllCached(Bufs(), pieces)
      && (PrefixSums() || (pieces == [] && cumLen == [] && cumLines == []))
    }

    // ----- Construction -----

    constructor Empty()
      ensures Valid() && Content() == [] && revision == 0
    {
      original, addBuffer, pieces, cumLen, cumLines, revision := [], [], [], [], [], 0;
    }

    constructor (initial: Text)
      ensures Valid() && Content() == initial && revision == 0
    {
      original, addBuffer, pieces, revision := initial, [], [], 0;
      cumLen, cumLines := [], [];
      new;
      Seed();
    }

    /** The one piece over the seed text, or none. */
    method Seed()
      requires pieces == []
      modifies `pieces, `cumLen, `cumLines
      ensures Valid() && Content() == original
    {
      if original != [] {
        var p := MakePiece(Original, 0, |original|);
        pieces := [p];
        SpellWhole(Bufs(), p);
      }
      RebuildCum();
    }

    // ----- Reads -----

    method Length() returns (n: nat)
      requires Valid()
      ensures n == |Content()|
    {
      LengthIsExact(Bufs(), pieces, |pieces|);
      n := if cumLen == [] then 0 else cumLen[|cumLen| - 1];
    }

    method LineCount() returns (n: nat)
      requires Valid()
      ensures n == CountNewlines(Content()) + 1
    {
      LinesAreExact(Bufs(), pieces, |pieces|);
      n := (if cumLines == [] then 0 else cumLines[|cumLines| - 1]) + 1;
    }

    /** Binary search for the piece that holds `offset`. */
    method PieceAt(offset: nat) returns (index: nat, inner: nat)
      requires Valid()
      ensures pieces == [] ==> index == 0 && inner == 0
      ensures pieces != [] ==> index < |pieces| && LengthTo(pieces, index) + inner == offset
      ensures offset < |Content()| ==> pieces != [] && inner < pieces[index].length
    {
      if pieces == [] {
        return 0, 0;
      }
      var lo := FirstPast(cumLen, |pieces|, offset);
      index := if lo < |pieces| - 1 then lo else |pieces| - 1;
      PieceHolds(Bufs(), pieces, lo, index, offset);
      inner := offset - cumLen[index];
    }

    method Slice(start: nat, end: nat) returns (out: Text)
      requires Valid()
      ensures out == SliceText(Content(), start, end)
    {
      var len := Length();
      var s := if start > len then len else start;
      var e := if end > len then len else end;
      if s >= e {
        return [];
      }
      var idx, inner := PieceAt(s);
      out := CopyPieces(s, e - s, idx, inner);
      CopiedSlice(Content(), start, end, s, out);
    }

    /** The copying loop of a slice, from a place in a piece on. */
    method CopyPieces(ghost s: nat, n: nat, first: nat, at: nat) returns (out: Text)
      requires AllSound(Bufs(), pieces) && s + n <= |Content()| && Copying(s, n, first, at, n, [])
      ensures |out| == n && CopiedFrom(Content(), s, out)
    {
      out := [];
      var idx, inner, remaining := first, at, n;
      while remaining > 0 && idx < |pieces|
        invariant remaining >= 0 && Copying(s, n, idx, inner, remaining, out)
        decreases |pieces| - idx
      {
        out, remaining := CopyPiece(s, n, idx, inner, remaining, out);
        idx := idx + 1;
        inner := 0;
      }
      CopyEnds(Bufs(), pieces, s, n, idx, inner, remaining);
    }

    /** Of `n` units from `s` on, what is copied so far, and where the `left` ones still missing begin. */
    ghost predicate Copying(s: nat, n: nat, idx: nat, inner: nat, left: nat, out: Text)
      reads this
    {
      && idx <= |pieces| && |out| + left == n && CopiedFrom(Content(), s, out)
      && (left > 0 ==> LengthTo(pieces, idx) + inner == s + |out|)
      && (left > 0 && idx < |pieces| ==> inner < pieces[idx].length)
    }

    method CopyPiece(ghost s: nat, ghost n: nat, idx: nat, inner: nat, left: nat, out: Text)
      returns (copied: Text, missing: nat)
      requires AllSound(Bufs(), pieces) && left > 0 && idx < |pieces| && Copying(s, n, idx, inner, left, out)
      ensures Copying(s, n, idx + 1, 0, missing, copied)
    {
      var take := if left < pieces[idx].length - inner then left else pieces[idx].length - inner;
      var part := PartOfPiece(idx, inner, take);
      CopyOn(Content(), s, out, part);
      assert idx + 1 < |pieces| ==> pieces[idx + 1].Sound(Bufs());
      copied, missing := out + part, left - take;
    }

    /** The stretch of a piece's buffer that a read copies out. */
    method PartOfPiece(idx: nat, inner: nat, take: nat) returns (part: Text)
      requires AllSound(Bufs(), pieces)
      requires idx < |pieces| && inner + take <= pieces[idx].length
      ensures |part| == take
      ensures CopiedFrom(Content(), LengthTo(pieces, idx) + inner, part)
    {
      var p := pieces[idx];
      part := CopyPart(Bufs(), pieces, idx, p, if p.source == Original then original else addBuffer, inner, take);
    }

    method CodeUnitAt(offset: nat) returns (c: Unit)
      requires Valid()
      ensures c == if offset < |Content()| then Content()[offset] else 0
    {
      var len := Length();
      if offset >= len {
        return 0;
      }
      var idx, inner := PieceAt(offset);
      var part := PartOfPiece(idx, inner, 1);
      c := part[0];
    }

    /** Where line `line` begins; past the last line, the end of the document. */
    method LineToOffset(line: nat) returns (offset: nat)
      requires Valid()
      ensures offset == if line <= CountNewlines(Content()) then LineStart(Content(), line)
                        else |Content()|
    {
      if line == 0 {
        return 0;
      }
      var totalLines := LineCount();
      if line >= totalLines {
        offset := Length();
        return;
      }
      var lo := FirstReaching(cumLines, |pieces|, line);
      // The source also guards against a line beyond the last piece and against a line on the edge
      // between two pieces; neither can happen.
      LineReached(Bufs(), pieces, lo, line);
      var wanted := line - cumLines[lo] - 1;
      offset := cumLen[lo] + pieces[lo].lineStarts[wanted] + 1;
    }

    /** The line that holds `offset`; past the end, the last line. */
    method OffsetToLine(offset: nat) returns (line: nat)
      requires Valid()
      ensures line == CountTo(Content(), Clamp(offset, |Content()|))
    {
      if offset == 0 {
        return 0;
      }
      var len := Length();
      if offset >= len {
        line := LineCount();
        line := line - 1;
        return;
      }
      var idx, inner := PieceAt(offset);
      line := LineInPiece(idx, inner);
    }

    /** The newlines before the piece, and those cached strictly before `inner`. */
    method LineInPiece(idx: nat, inner: nat) returns (line: nat)
      requires Valid() && idx < |pieces| && inner <= pieces[idx].length
      ensures LengthTo(pieces, idx) + inner <= |Content()|
      ensures line == CountTo(Content(), LengthTo(pieces, idx) + inner)
    {
      ghost var p := pieces[idx].Spell(Bufs());
      assert pieces[idx].Sound(Bufs()) && pieces[idx].Cached(Bufs());
      var before := LowerBound(pieces[idx].lineStarts, inner, p);
      line := cumLines[idx] + before;
      CountInPiece(Bufs(), pieces, idx, inner);
    }

    method LineRange(line: nat) returns (start: nat, end: nat)
      requires Valid()
      ensures line <= CountNewlines(Content()) ==>
        start == LineStart(Content(), line) && end == LineEnd(Content(), line)
      ensures line > CountNewlines(Content()) ==> start == end == |Content()|
    {
      var total := LineCount();
      if line >= total {
        start := Length();
        return start, start;
      }
      start := LineToOffset(line);
      if line + 1 >= total {
        end := Length();
      } else {
        end := LineToOffset(line + 1);
      }
      TrimIsLineEnd(Content(), line, start, end);
      if end > start {
        end := Trim(end);
      }
    }

    method Trim(end: nat) returns (trimmed: nat)
      requires Valid() && 0 < end <= |Content()|
      ensures trimmed == if Content()[end - 1] == NEWLINE then end - 1 else end
    {
      var c := CodeUnitAt(end - 1);
      trimmed := if c == NEWLINE then end - 1 else end;
    }

    method LineTextOf(line: nat) returns (text: Text)
      requires Valid()
      ensures text == if line <= CountNewlines(Content()) then LineText(Content(), line) else []
    {
      var start, end := LineRange(line);
      text := Slice(start, end);
      if line <= CountNewlines(Content()) {
        LineOrdered(Content(), line);
      }
    }

    // ----- Search -----

    /** The greedy matches of `needle` from offset `from` on, at most `limit` of them. */
    method SearchLiteral(needle: Text, from: nat, limit: nat, foldCase: bool)
      returns (out: seq<Match>)
      requires Valid()
      ensures needle == [] ==> out == []
      ensures needle != [] ==>
        Greedy(Occurrences(Content(), needle, foldCase), |needle|, from, limit, out)
    {
      if needle == [] {
        return [];
      }
      var len := Length();
      if from >= len {
        return [];
      }
      var hay := Slice(from, len);
      assert hay == Content()[from..];
      if |needle| > |hay| {
        return [];
      }
      out := Scan(hay, needle, from, limit, foldCase, Content());
    }

    // ----- Edits -----

    method Replace(start: nat, end: nat, text: Text) returns (edit: Edit)
      requires Valid()
      modifies this
      ensures Valid() && revision == old(revision) + 1
      ensures Content() == ReplaceText(old(Content()), start, end, text)
      ensures edit == ReplaceRecord(old(Content()), start, end, text)
    {
      edit := ReplaceInternal(start, end, text);
      revision := revision + 1;
    }

    /** The ordering check of a batch, pair by pair. */
    method CheckOrder(edits: seq<Edit>) returns (ok: bool)
      ensures ok <==> Sorted(edits)
    {
      var i := 1;
      while i < |edits|
        invariant 1 <= i
        invariant forall k :: 1 <= k < i && k < |edits| ==> edits[k - 1].End() <= edits[k].start
      {
        if edits[i].start < edits[i - 1].start + edits[i - 1].removed {
          return false;
        }
        i := i + 1;
      }
      return true;
    }

    /**
      * Applies a batch right to left in one revision, or rejects it (`None` stands for the
      * exception) and changes nothing.
      */
    method ApplyBatch(edits: seq<Edit>) returns (applied: Option<seq<Edit>>)
      requires Valid()
      modifies this
      ensures Valid()
      ensures applied.Some? <==> Sorted(edits)
      ensures !Sorted(edits) ==> unchanged(this)
      ensures Sorted(edits) ==>
        && applied.value == BatchRecords(old(Content()), edits)
        && Content() == BatchText(old(Content()), edits)
        && revision == old(revision) + (if edits == [] then 0 else 1)
    {
      if edits == [] {
        return Some([]);
      }
      var ok := CheckOrder(edits);
      if !ok {
        return None;
      }
      var records := [];
      var i := |edits|;
      ghost var before := Content();
      while i > 0
        invariant 0 <= i <= |edits| && Valid() && revision == old(revision)
        invariant Content() == BatchText(before, edits[i..])
        invariant records == BatchRecords(before, edits[i..])
      {
        i := i - 1;
        BatchStep(before, edits, i);
        var e := edits[i];
        var r := ReplaceInternal(e.start, e.End(), e.inserted);
        records := [r] + records;
      }
      assert edits[0..] == edits;
      revision := revision + 1;
      applied := Some(records);
    }

    // ----- Internals -----

    method MakePiece(source: Source, start: nat, length: nat) returns (p: Piece)
      requires start + length <= |Bufs().For(source)|
      ensures p.source == source && p.start == start && p.length == length
      ensures p.InRange(Bufs()) && p.Cached(Bufs())
      ensures length > 0 ==> p.Sound(Bufs())
    {
      var starts := NewlinesIn(if source == Original then original else addBuffer, start, length);
      p := Piece(source, start, length, starts);
    }

    method RebuildCum()
      requires AllSound(Bufs(), pieces) && AllCached(Bufs(), pieces)
      modifies `cumLen, `cumLines
      ensures Valid() && PrefixSums()
    {
      var n := |pieces|;
      cumLen := seq(n + 1, _ => 0);
      cumLines := seq(n + 1, _ => 0);
      var i := 0;
      while i < n
        invariant 0 <= i <= n
        invariant |cumLen| == |cumLines| == n + 1
        invariant forall k {:trigger cumLen[k]} :: 0 <= k <= i ==> cumLen[k] == LengthTo(pieces, k)
        invariant forall k {:trigger cumLines[k]} :: 0 <= k <= i ==> cumLines[k] == LinesTo(pieces, k)
      {
        cumLen := cumLen[i + 1 := cumLen[i] + pieces[i].length];
        cumLines := cumLines[i + 1 := cumLines[i] + |pieces[i].lineStarts|];
        i := i + 1;
      }
    }

    /** Cuts the piece that straddles `offset`, so that some piece starts there. */
    method SplitAt(offset: nat)
      requires Valid()
      modifies `pieces, `cumLen, `cumLines
      ensures Valid() && Content() == old(Content())
      ensures offset <= |Content()| ==> IsBoundary(pieces, offset)
      ensures forall o :: old(IsBoundary(pieces, o)) ==> IsBoundary(pieces, o)
    {
      LengthIsExact(Bufs(), pieces, |pieces|);
      assert LengthTo(pieces, 0) == 0;
      if pieces == [] {
        return;
      }
      var len := Length();
      if offset == 0 || offset >= len {
        return;
      }
      var idx, inner := PieceAt(offset);
      if inner == 0 {
        return;
      }
      CutAt(idx, inner);
    }

    method CutAt(idx: nat, inner: nat)
      requires Valid() && idx < |pieces| && 0 < inner < pieces[idx].length
      modifies `pieces, `cumLen, `cumLines
      ensures Valid() && Content() == old(Content())
      ensures IsBoundary(pieces, old(LengthTo(pieces, idx)) + inner)
      ensures forall o :: old(IsBoundary(pieces, o)) ==> IsBoundary(pieces, o)
    {
      var p := pieces[idx];
      assert p.Sound(Bufs());
      var left := MakePiece(p.source, p.start, inner);
      var right := MakePiece(p.source, p.start + inner, p.length - inner);
      CutPiece(Bufs(), pieces, idx, left, right);
      pieces := pieces[..idx] + [left, right] + pieces[idx + 1..];
      RebuildCum();
    }

    /** The first piece that starts at `offset` or after it: at a boundary, the piece that starts there. */
    method PieceStartingAt(offset: nat) returns (index: nat)
      requires Valid()
      ensures index <= |pieces|
      ensures forall k {:trigger LengthTo(pieces, k)} :: 0 <= k < index ==> LengthTo(pieces, k) < offset
      ensures index < |pieces| ==> offset <= LengthTo(pieces, index)
      ensures IsBoundary(pieces, offset) ==> LengthTo(pieces, index) == offset
    {
      LengthIsExact(Bufs(), pieces, |pieces|);
      var len := Length();
      if offset >= len {
        index := |pieces|;
        FirstAtLeast(Bufs(), pieces, offset, index);
        return;
      }
      index := FirstNotBelow(cumLen, |pieces|, offset);
      FirstAtLeast(Bufs(), pieces, offset, index);
    }

    method ReplaceInternal(start: nat, end: nat, text: Text) returns (edit: Edit)
      requires Valid()
      modifies `addBuffer, `pieces, `cumLen, `cumLines
      ensures Valid()
      ensures Content() == ReplaceText(old(Content()), start, end, text)
      ensures edit == ReplaceRecord(old(Content()), start, end, text)
    {
      var len := Length();
      var s := if start > len then len else start;
      var e := if end > len then len else end;
      if s > e {
        s, e := e, s;
      }
      var deleted := [];
      if e - s > 0 {
        deleted := Slice(s, e);
      }
      edit := Edit(s, e - s, deleted, text);
      RecordIs(Content(), start, end, edit);
      if e - s == 0 && text == [] {
        return;
      }
      Exchange(s, e, text);
    }

    /** Makes both ends piece boundaries and exchanges what lies between for `text`. */
    method Exchange(s: nat, e: nat, text: Text)
      requires Valid() && s <= e <= |Content()|
      modifies `addBuffer, `pieces, `cumLen, `cumLines
      ensures Valid() && Content() == Splice(old(Content()), s, e, text)
    {
      SplitAt(e);
      SplitAt(s);
      var first := PieceStartingAt(s);
      var last := PieceStartingAt(e);
      SpliceIn(first, last, text);
    }

    /** Puts `text` at the end of the add buffer, and one piece over it; none for no text. */
    method Append(text: Text) returns (added: seq<Piece>)
      modifies `addBuffer
      ensures addBuffer == old(addBuffer) + text
      ensures Covers(|old(addBuffer)|, text, added) && AllCached(Bufs(), added)
    {
      added := [];
      if text != [] {
        var addStart := |addBuffer|;
        addBuffer := addBuffer + text;
        var p := MakePiece(Add, addStart, |text|);
        added := [p];
      }
    }

    /** Exchanges the pieces `first..last` for one piece holding `text`, or for none. */
    method SpliceIn(first: nat, last: nat, text: Text)
      requires Valid() && first <= |pieces| && last <= |pieces|
      requires LengthTo(pieces, first) <= LengthTo(pieces, last) <= |Content()|
      modifies `addBuffer, `pieces, `cumLen, `cumLines
      ensures Valid()
      ensures Content()
           == Splice(old(Content()), old(LengthTo(pieces, first)), old(LengthTo(pieces, last)), text)
    {
      if last < first {
        LengthsIncrease(Bufs(), pieces, last, first);
      }
      ghost var b := Bufs();
      var replacement := Append(text);
      SplicePieces(b, pieces, first, last, text, replacement);
      pieces := pieces[..first] + replacement + pieces[last..];
      RebuildCum();
    }
  }

  lemma {:induction false} UnitInPiece(b: Buffers, ps: seq<Piece>, i: nat, inner: nat)
    requires AllSound(b, ps) && i < |ps| && inner < ps[i].length
    ensures ps[i].Sound(b)
    ensures LengthTo(ps, i) + inner < |SpellAll(b, ps)|
    ensures SpellAll(b, ps)[LengthTo(ps, i) + inner] == ps[i].Spell(b)[inner]
  {
    PieceInText(b, ps, i);
  }

  /** The pieces last as long as there is something to copy. */
  lemma {:induction false} CopyEnds(b: Buffers, ps: seq<Piece>, s: nat, n: nat, idx: nat, inner: nat, left: nat)
    requires AllSound(b, ps) && s + n <= |SpellAll(b, ps)| && idx <= |ps| && left <= n
    requires left > 0 ==> idx == |ps| && LengthTo(ps, idx) + inner == s + (n - left)
    ensures left == 0
  {
    LengthIsExact(b, ps, |ps|);
  }

  /** Where the search for an offset ends, the piece holds it, or the offset is past the end. */
  lemma {:induction false} PieceHolds(b: Buffers, ps: seq<Piece>, lo: nat, index: nat, offset: nat)
    requires AllSound(b, ps) && ps != [] && lo <= |ps| && LengthTo(ps, lo) <= offset
    requires lo < |ps| ==> offset < LengthTo(ps, lo + 1)
    requires index == if lo < |ps| - 1 then lo else |ps| - 1
    ensures LengthTo(ps, index) <= offset
    ensures offset < |SpellAll(b, ps)| ==> offset - LengthTo(ps, index) < ps[index].length
  {
    LengthIsExact(b, ps, |ps|);
    LengthsIncrease(b, ps, index, lo);
  }

  /** Where the search for a line ends, a piece holds the newline in front of it. */
  lemma {:induction false} LineReached(b: Buffers, ps: seq<Piece>, lo: nat, line: nat)
    requires AllSound(b, ps) && AllCached(b, ps) && 0 < line <= CountNewlines(SpellAll(b, ps))
    requires lo <= |ps| && LinesTo(ps, lo) < line
    requires lo < |ps| ==> line <= LinesTo(ps, lo + 1)
    ensures lo < |ps| && line - LinesTo(ps, lo) - 1 < |ps[lo].lineStarts|
    ensures LineStart(SpellAll(b, ps), line)
         == LengthTo(ps, lo) + ps[lo].lineStarts[line - LinesTo(ps, lo) - 1] + 1
  {
    LinesAreExact(b, ps, |ps|);
    NewlineInPiece(b, ps, lo, line - LinesTo(ps, lo) - 1);
  }

  // ----- The three binary searches -----

  /** The search of `piece_at`: the first place whose successor is past `x`. */
  method FirstPast(sums: seq<nat>, n: nat, x: nat) returns (lo: nat)
    requires |sums| == n + 1 && sums[0] <= x
    ensures lo <= n && sums[lo] <= x && (lo < n ==> x < sums[lo + 1])
  {
    lo := 0;
    var hi := n;
    while lo < hi
      invariant 0 <= lo <= hi <= n && sums[lo] <= x && (hi < n ==> x < sums[hi + 1])
    {
      var mid := (lo + hi) / 2;
      if sums[mid + 1] <= x {
        lo := mid + 1;
      } else {
        hi := mid;
      }
    }
  }

  /** The search of `line_to_offset`: the first place whose successor reaches `x`. */
  method FirstReaching(sums: seq<nat>, n: nat, x: nat) returns (lo: nat)
    requires |sums| == n + 1 && sums[0] < x
    ensures lo <= n && sums[lo] < x && (lo < n ==> x <= sums[lo + 1])
  {
    lo := 0;
    var hi := n;
    while lo < hi
      invariant 0 <= lo <= hi <= n && sums[lo] < x && (hi < n ==> x <= sums[hi + 1])
    {
      var mid := (lo + hi) / 2;
      if sums[mid + 1] >= x {
        hi := mid;
      } else {
        lo := mid + 1;
      }
    }
  }

  /** The search of `piece_starting_at`: the first place that is not below `x`. */
  method FirstNotBelow(sums: seq<nat>, n: nat, x: nat) returns (lo: nat)
    requires |sums| == n + 1
    ensures lo <= n && (lo > 0 ==> sums[lo - 1] < x) && (lo < n ==> x <= sums[lo])
  {
    lo := 0;
    var hi := n;
    while lo < hi
      invariant 0 <= lo <= hi <= n && (lo > 0 ==> sums[lo - 1] < x) && (hi < n ==> x <= sums[hi])
    {
      var mid := (lo + hi) / 2;
      if sums[mid] < x {
        lo := mid + 1;
      } else {
        hi := mid;
      }
    }
  }

  /** The scan of `make_piece`: where the newlines of a stretch are, counted from its beginning. */
  method NewlinesIn(src: Text, start: nat, length: nat) returns (starts: seq<nat>)
    requires start + length <= |src|
    ensures starts == NewlineOffsets(src[start..start + length])
  {
    starts := [];
    var i := start;
    ghost var s, j := src[start..start + length], 0;
    while i < start + length
      invariant 0 <= j <= length == |s| && i == start + j && starts == OffsetsTo(s, j)
    {
      UnitOfStretch(src, start, length, i);
      starts := Noted(starts, src[i], i - start, s, j);
      i, j := i + 1, j + 1;
    }
  }

  /** The offset of one more unit is noted if the unit is a newline. */
  method Noted(starts: seq<nat>, c: Unit, at: nat, ghost s: Text, ghost j: nat) returns (more: seq<nat>)
    requires j < |s| && starts == OffsetsTo(s, j) && c == s[j] && at == j
    ensures more == OffsetsTo(s, j + 1)
  {
    more := if c == NEWLINE then starts + [at] else starts;
  }

  lemma {:induction false} UnitOfStretch(src: Text, start: nat, length: nat, i: nat)
    requires start <= i < start + length <= |src|
    ensures src[start..start + length][i - start] == src[i]
  {
  }

  /** Where a binary search on the lengths ends, nothing before reaches the offset. */
  lemma {:induction false} FirstAtLeast(b: Buffers, ps: seq<Piece>, offset: nat, index: nat)
    requires AllSound(b, ps) && index <= |ps|
    requires index > 0 ==> LengthTo(ps, index - 1) < offset
                           || (index == |ps| && LengthTo(ps, |ps|) <= offset)
    requires index < |ps| ==> offset <= LengthTo(ps, index)
    ensures forall k {:trigger LengthTo(ps, k)} :: 0 <= k < index ==> LengthTo(ps, k) < offset
    ensures IsBoundary(ps, offset) ==> LengthTo(ps, index) == offset
  {
    forall k | 0 <= k < index
      ensures LengthTo(ps, k) < offset
    {
      LengthsIncrease(b, ps, k, index - 1);
      LengthsIncrease(b, ps, k, index);
    }
    if IsBoundary(ps, offset) {
      var k :| 0 <= k <= |ps| && LengthTo(ps, k) == offset;
      LengthsIncrease(b, ps, index, k);
    }
  }

  /** `substr` in range. */
  function CutOut(src: Text, at: nat, n: nat): (part: Text)
    requires at + n <= |src|
    ensures |part| == n
  {
    src[at..at + n]
  }

  /** Copies a stretch of piece `p`, the piece at `idx`, out of the buffer it lies in. */
  method CopyPart(ghost b: Buffers, ghost ps: seq<Piece>, ghost idx: nat, p: Piece, src: Text,
                  inner: nat, take: nat)
    returns (part: Text)
    requires AllSound(b, ps) && idx < |ps| && p == ps[idx] && src == b.For(p.source)
    requires inner + take <= p.length
    ensures |part| == take
    ensures CopiedFrom(SpellAll(b, ps), LengthTo(ps, idx) + inner, part)
  {
    assert ps[idx].Sound(b);
    part := CutOut(src, p.start + inner, take);
    PartOfBuffer(b, ps, idx, inner, part);
  }

  lemma {:induction false} PartOfBuffer(b: Buffers, ps: seq<Piece>, idx: nat, inner: nat, part: Text)
    requires AllSound(b, ps) && idx < |ps| && inner + |part| <= ps[idx].length
    requires ps[idx].Sound(b) && part == CutOut(b.For(ps[idx].source), ps[idx].start + inner, |part|)
    ensures CopiedFrom(SpellAll(b, ps), LengthTo(ps, idx) + inner, part)
  {
    PartOfSpell(b, ps[idx], inner, part);
    PiecePart(b, ps, idx, inner, part);
  }

  /** A stretch of piece `idx` is a stretch of the text. */
  lemma {:induction false} PiecePart(b: Buffers, ps: seq<Piece>, idx: nat, inner: nat, part: Text)
    requires AllSound(b, ps) && idx < |ps| && inner + |part| <= ps[idx].length
    requires CopiedFrom(ps[idx].Spell(b), inner, part)
    ensures CopiedFrom(SpellAll(b, ps), LengthTo(ps, idx) + inner, part)
  {
    PieceInText(b, ps, idx);
    CopiedThrough(SpellAll(b, ps), LengthTo(ps, idx), ps[idx].Spell(b), inner, part);
  }

  lemma {:induction false} CopiedThrough(t: Text, o: nat, p: Text, inner: nat, part: Text)
    requires CopiedFrom(t, o, p) && CopiedFrom(p, inner, part)
    ensures CopiedFrom(t, o + inner, part)
  {
    forall k | 0 <= k < |part|
      ensures part[k] == t[o + inner + k]
    {
      assert p[inner + k] == t[o + (inner + k)];
    }
  }

  lemma {:induction false} CopyOn(t: Text, at: nat, out: Text, part: Text)
    requires CopiedFrom(t, at, out) && CopiedFrom(t, at + |out|, part)
    ensures CopiedFrom(t, at, out + part)
  {
  }

  lemma {:induction false} CopiedSlice(t: Text, start: nat, end: nat, at: nat, out: Text)
    requires at == Clamp(start, |t|) && at + |out| == Clamp(end, |t|) && CopiedFrom(t, at, out)
    ensures out == SliceText(t, start, end)
  {
    assert out == t[at..at + |out|];
  }

  lemma {:induction false} PartOfSpell(b: Buffers, p: Piece, inner: nat, part: Text)
    requires p.InRange(b) && inner + |part| <= p.length
    requires part == b.For(p.source)[p.start + inner..p.start + inner + |part|]
    ensures CopiedFrom(p.Spell(b), inner, part)
  {
  }

  // ----- Line lookups -----

  /** `std::lower_bound` on a newline cache: how many newlines precede `x`. */
  method LowerBound(os: seq<nat>, x: nat, ghost s: Text) returns (k: nat)
    requires os == NewlineOffsets(s) && x <= |s|
    ensures k == CountTo(s, x)
  {
    CountMonotone(s, x, |s|);
    var lo, hi := 0, |os|;
    while lo < hi
      invariant 0 <= lo <= CountTo(s, x) <= hi <= |os|
    {
      var mid := (lo + hi) / 2;
      RankBelow(s, mid, x);
      if os[mid] < x {
        lo := mid + 1;
      } else {
        hi := mid;
      }
    }
    k := lo;
  }

  lemma {:induction false} NewlineRank(b: Buffers, ps: seq<Piece>, i: nat, k: nat)
    requires AllSound(b, ps) && AllCached(b, ps) && i < |ps| && k < |ps[i].lineStarts|
    ensures var o := LengthTo(ps, i) + ps[i].lineStarts[k];
            && o < |SpellAll(b, ps)| && SpellAll(b, ps)[o] == NEWLINE
            && CountTo(SpellAll(b, ps), o) == LinesTo(ps, i) + k
  {
    assert ps[i].Sound(b) && ps[i].Cached(b);
    var p, o := ps[i].Spell(b), ps[i].lineStarts[k];
    OffsetRank(p, |p|, k);
    CountInPiece(b, ps, i, o);
    UnitInPiece(b, ps, i, o);
  }

  /** A newline cached in piece `i` is the text's newline of the summed rank. */
  lemma {:induction false} NewlineInPiece(b: Buffers, ps: seq<Piece>, i: nat, k: nat)
    requires AllSound(b, ps) && AllCached(b, ps) && i < |ps| && k < |ps[i].lineStarts|
    ensures LinesTo(ps, i) + k < CountNewlines(SpellAll(b, ps))
    ensures NewlineOffsets(SpellAll(b, ps))[LinesTo(ps, i) + k]
         == LengthTo(ps, i) + ps[i].lineStarts[k]
  {
    NewlineRank(b, ps, i, k);
    EveryNewlineListed(SpellAll(b, ps), LengthTo(ps, i) + ps[i].lineStarts[k]);
  }

  /** What `line_range` trims: exactly the newline that ends a line other than the last. */
  lemma {:induction false} TrimIsLineEnd(t: Text, line: nat, start: nat, next: nat)
    requires line <= CountNewlines(t) && start == LineStart(t, line)
    requires next == if line < CountNewlines(t) then LineStart(t, line + 1) else |t|
    ensures LineEnd(t, line) == if next > start && t[next - 1] == NEWLINE then next - 1 else next
  {
    LineOrdered(t, line);
    if line == CountNewlines(t) && start < |t| {
      LinesAreUnbroken(t, line);
      assert LineText(t, line)[|LineText(t, line)| - 1] == t[|t| - 1];
    }
  }

  // ----- Splicing pieces -----

  lemma {:induction false} SpellWhole(b: Buffers, p: Piece)
    requires p.source == Original && p.start == 0 && p.length == |b.original|
    ensures SpellAll(b, [p]) == b.original
  {
    SpellOne(b, p);
  }

  lemma {:induction false} RecordIs(t: Text, start: nat, end: nat, edit: Edit)
    requires (edit.start, edit.End()) == Range(|t|, start, end)
    requires edit.deleted == if edit.removed > 0 then SliceText(t, edit.start, edit.End()) else []
    ensures edit == ReplaceRecord(t, start, end, edit.inserted)
    ensures ReplaceText(t, start, end, edit.inserted)
         == Splice(t, edit.start, edit.End(), edit.inserted)
    ensures edit.removed == 0 && edit.inserted == [] ==>
      ReplaceText(t, start, end, edit.inserted) == t
  {
  }

  /** Two pieces that adjoin in one buffer and cover piece `i` can stand in for it. */
  lemma {:induction false} CutPiece(b: Buffers, ps: seq<Piece>, i: nat, left: Piece, right: Piece)
    requires AllSound(b, ps) && AllCached(b, ps) && i < |ps|
    requires left.Sound(b) && left.Cached(b) && right.Sound(b) && right.Cached(b)
    requires left.source == right.source == ps[i].source && left.start == ps[i].start
    requires right.start == left.start + left.length && left.length + right.length == ps[i].length
    ensures var qs := Cut(ps, i, left, right);
            && AllSound(b, qs) && AllCached(b, qs) && SpellAll(b, qs) == SpellAll(b, ps)
            && IsBoundary(qs, LengthTo(ps, i) + left.length)
            && forall o :: IsBoundary(ps, o) ==> IsBoundary(qs, o)
  {
    AdjoiningSpell(b, left, right, ps[i]);
    CutSpells(b, ps, i, left, right);
    CutBoundaries(ps, i, left, right);
    CutKeepsValid(b, ps, i, left, right);
  }

  lemma {:induction false} PairKept(b: Buffers, left: Piece, right: Piece)
    requires left.Sound(b) && left.Cached(b) && right.Sound(b) && right.Cached(b)
    ensures AllSound(b, [left, right]) && AllCached(b, [left, right])
  {
    forall i | 0 <= i < 2
      ensures [left, right][i].Sound(b) && [left, right][i].Cached(b)
    {
      assert [left, right][i] == if i == 0 then left else right;
    }
  }

  lemma {:induction false} CutKeepsValid(b: Buffers, ps: seq<Piece>, i: nat, left: Piece, right: Piece)
    requires AllSound(b, ps) && AllCached(b, ps) && i < |ps|
    requires left.Sound(b) && left.Cached(b) && right.Sound(b) && right.Cached(b)
    ensures AllSound(b, Cut(ps, i, left, right)) && AllCached(b, Cut(ps, i, left, right))
  {
    PairKept(b, left, right);
    SwapKeepsValid(b, ps, i, i + 1, [left, right]);
  }

  lemma {:induction false} AdjoiningSpell(b: Buffers, left: Piece, right: Piece, p: Piece)
    requires left.InRange(b) && right.InRange(b)
    requires left.source == right.source == p.source && left.start == p.start
    requires right.start == left.start + left.length && left.length + right.length == p.length
    ensures left.Spell(b) + right.Spell(b) == p.Spell(b)
  {
  }

  /** No piece for no text; else one over the add buffer from `at` on, as long as the text. */
  ghost predicate Covers(at: nat, text: Text, mid: seq<Piece>) {
    if text == [] then mid == []
    else |mid| == 1 && mid[0].source == Add && mid[0].start == at && mid[0].length == |text|
  }

  /** One new piece over freshly appended text, or nothing, in place of the pieces `first..last`. */
  lemma {:induction false} SplicePieces(
    b: Buffers, ps: seq<Piece>, first: nat, last: nat, text: Text, mid: seq<Piece>)
    requires AllSound(b, ps) && AllCached(b, ps) && first <= last <= |ps|
    requires Covers(|b.added|, text, mid) && AllCached(b.(added := b.added + text), mid)
    ensures LengthTo(ps, first) <= LengthTo(ps, last) <= |SpellAll(b, ps)|
    ensures var b', qs := b.(added := b.added + text), ps[..first] + mid + ps[last..];
            && AllSound(b', qs) && AllCached(b', qs)
            && SpellAll(b', qs)
            == Splice(SpellAll(b, ps), LengthTo(ps, first), LengthTo(ps, last), text)
  {
    var b' := b.(added := b.added + text);
    SoundAfterAppend(b, text, ps);
    SpellAfterAppend(b, text, ps, |ps|);
    SpellsText(b, text, mid);
    SwapKeepsValid(b', ps, first, last, mid);
    SpliceSpells(b', ps, first, last, mid);
  }

  lemma {:induction false} SpliceSpells(b: Buffers, ps: seq<Piece>, first: nat, last: nat, mid: seq<Piece>)
    requires AllSound(b, ps) && first <= last <= |ps|
    ensures LengthTo(ps, first) <= LengthTo(ps, last) <= |SpellAll(b, ps)|
    ensures SpellAll(b, ps[..first] + mid + ps[last..])
         == Splice(SpellAll(b, ps), LengthTo(ps, first), LengthTo(ps, last), SpellAll(b, mid))
  {
    LengthsIncrease(b, ps, first, last);
    SpellPrefix(b, ps, first);
    SpellPrefix(b, ps, last);
    SwapPieces(b, ps, first, last, mid);
  }

  lemma {:induction false} AddedPiece(b: Buffers, text: Text, p: Piece)
    requires p.source == Add && p.start == |b.added| && p.length == |text|
    ensures var b' := b.(added := b.added + text); p.InRange(b') && p.Spell(b') == text
  {
    assert (b.added + text)[|b.added|..|b.added| + |text|] == text;
  }

  lemma {:induction false} SpellsText(b: Buffers, text: Text, mid: seq<Piece>)
    requires Covers(|b.added|, text, mid)
    ensures var b' := b.(added := b.added + text);
            && SpellAll(b', mid) == text
            && AllSound(b', mid)
  {
    if text != [] {
      AddedPiece(b, text, mid[0]);
      SpellOne(b.(added := b.added + text), mid[0]);
      assert mid == [mid[0]];
    }
  }

  lemma {:induction false} SwapKeepsValid(b: Buffers, ps: seq<Piece>, first: nat, last: nat, mid: seq<Piece>)
    requires AllSound(b, ps) && AllCached(b, ps) && first <= last <= |ps|
    requires AllSound(b, mid) && AllCached(b, mid)
    ensures AllSound(b, ps[..first] + mid + ps[last..])
    ensures AllCached(b, ps[..first] + mid + ps[last..])
  {
    var qs := ps[..first] + mid + ps[last..];
    forall i | 0 <= i < |qs|
      ensures qs[i].Sound(b) && qs[i].Cached(b)
    {
      if i < first {
        assert ps[i].Sound(b) && ps[i].Cached(b);
      } else if i < first + |mid| {
        assert mid[i - first].Sound(b) && mid[i - first].Cached(b);
      } else if i >= first + |mid| {
        var j := i - first - |mid| + last;
        assert ps[j].Sound(b) && ps[j].Cached(b);
      }
    }
  }
}
