/**
  * Newlines of a plain string: counting them, listing their offsets, and cutting the string into
  * lines. Nothing here knows about pieces; the document's line queries are proved against it.
  */
module Lines {
  import opened Units

  /** Newlines among the first `i` code units. */
  function CountTo(s: Text, i: nat): nat
    requires i <= |s|
  {
    if i == 0 then 0 else CountTo(s, i - 1) + if s[i - 1] == NEWLINE then 1 else 0
  }

  function CountNewlines(s: Text): nat {
    CountTo(s, |s|)
  }

  /** The offsets of the newlines among the first `i` code units, in ascending order. */
  function OffsetsTo(s: Text, i: nat): (os: seq<nat>)
    requires i <= |s|
    ensures |os| == CountTo(s, i)
    ensures forall k :: 0 <= k < |os| ==> os[k] < i && s[os[k]] == NEWLINE
  {
    if i == 0 then []
    else OffsetsTo(s, i - 1) + if s[i - 1] == NEWLINE then [i - 1] else []
  }

  function NewlineOffsets(s: Text): (os: seq<nat>)
    ensures |os| == CountNewlines(s)
    ensures forall k :: 0 <= k < |os| ==> os[k] < |s| && s[os[k]] == NEWLINE
  {
    OffsetsTo(s, |s|)
  }

  lemma {:induction false} CountAgree(s: Text, t: Text, i: nat)
    requires i <= |s| && i <= |t| && s[..i] == t[..i]
    ensures CountTo(s, i) == CountTo(t, i)
  {
    if i > 0 {
      assert s[..i - 1] == s[..i][..i - 1] == t[..i - 1];
      assert s[i - 1] == s[..i][i - 1] == t[i - 1];
      CountAgree(s, t, i - 1);
    }
  }

  lemma {:induction false} CountConcat(a: Text, b: Text, j: nat)
    requires j <= |b|
    ensures CountTo(a + b, |a| + j) == CountNewlines(a) + CountTo(b, j)
  {
    if j == 0 {
      CountAgree(a + b, a, |a|);
    } else {
      CountConcat(a, b, j - 1);
    }
  }

  lemma {:induction false} CountSum(t: Text, a: Text, b: Text)
    requires t == a + b
    ensures CountNewlines(t) == CountNewlines(a) + CountNewlines(b)
  {
    CountConcat(a, b, |b|);
  }

  lemma {:induction false} CountMonotone(s: Text, i: nat, j: nat)
    requires i <= j <= |s|
    ensures CountTo(s, i) <= CountTo(s, j)
    decreases j - i
  {
    if i < j {
      CountMonotone(s, i, j - 1);
    }
  }

  /** The k-th listed offset is the newline with exactly k newlines before it. */
  lemma {:induction false} OffsetRank(s: Text, i: nat, k: nat)
    requires i <= |s| && k < CountTo(s, i)
    ensures CountTo(s, OffsetsTo(s, i)[k]) == k
    ensures s[OffsetsTo(s, i)[k]] == NEWLINE
  {
    if k < CountTo(s, i - 1) {
      OffsetRank(s, i - 1, k);
    }
  }

  /** Listed offsets lie before `o` exactly when their rank is below the count before `o`. */
  lemma {:induction false} RankBelow(s: Text, k: nat, o: nat)
    requires k < CountNewlines(s) && o <= |s|
    ensures NewlineOffsets(s)[k] < o <==> k < CountTo(s, o)
  {
    var p := NewlineOffsets(s)[k];
    OffsetRank(s, |s|, k);
    if p < o {
      CountMonotone(s, p + 1, o);
    } else {
      CountMonotone(s, o, p);
    }
  }

  lemma {:induction false} OffsetsAscend(s: Text, j: nat, k: nat)
    requires j < k < CountNewlines(s)
    ensures NewlineOffsets(s)[j] < NewlineOffsets(s)[k]
  {
    OffsetRank(s, |s|, k);
    RankBelow(s, j, NewlineOffsets(s)[k]);
  }

  /** Every newline is listed, at the index that counts the newlines before it. */
  lemma {:induction false} EveryNewlineListed(s: Text, o: nat)
    requires o < |s| && s[o] == NEWLINE
    ensures CountTo(s, o) < CountNewlines(s)
    ensures NewlineOffsets(s)[CountTo(s, o)] == o
  {
    CountMonotone(s, o + 1, |s|);
    RankBelow(s, CountTo(s, o), o + 1);
    RankBelow(s, CountTo(s, o), o);
  }

  /** Where line `l` begins: right after the l-th newline. */
  function LineStart(s: Text, l: nat): (o: nat)
    requires l <= CountNewlines(s)
    ensures o <= |s|
  {
    if l == 0 then 0 else NewlineOffsets(s)[l - 1] + 1
  }

  /** Where line `l` ends: at the newline that closes it, or at the end of the text. */
  function LineEnd(s: Text, l: nat): (o: nat)
    requires l <= CountNewlines(s)
    ensures o <= |s|
  {
    if l < CountNewlines(s) then NewlineOffsets(s)[l] else |s|
  }

  lemma {:induction false} LineOrdered(s: Text, l: nat)
    requires l <= CountNewlines(s)
    ensures LineStart(s, l) <= LineEnd(s, l)
  {
    if 0 < l < CountNewlines(s) {
      OffsetsAscend(s, l - 1, l);
    }
  }

  /** Line number to offset and back: `l` newlines precede the start of line `l`. */
  lemma {:induction false} LineStartCount(s: Text, l: nat)
    requires l <= CountNewlines(s)
    ensures CountTo(s, LineStart(s, l)) == l
  {
    if l > 0 {
      OffsetRank(s, |s|, l - 1);
    }
  }

  /** The line holding offset `o` starts at or before `o` and ends at or after it. */
  lemma {:induction false} LineHoldsOffset(s: Text, o: nat)
    requires o <= |s|
    ensures CountTo(s, o) <= CountNewlines(s)
    ensures LineStart(s, CountTo(s, o)) <= o <= LineEnd(s, CountTo(s, o))
  {
    CountMonotone(s, o, |s|);
    var l := CountTo(s, o);
    if l > 0 {
      RankBelow(s, l - 1, o);
    }
    if l < CountNewlines(s) {
      RankBelow(s, l, o);
    }
  }

  function LineText(s: Text, l: nat): (r: Text)
    requires l <= CountNewlines(s)
  {
    LineOrdered(s, l);
    s[LineStart(s, l)..LineEnd(s, l)]
  }

  /** All lines of `s`; there is one more than there are newlines. */
  function AllLines(s: Text): (ls: seq<Text>) {
    seq(CountNewlines(s) + 1, l requires 0 <= l <= CountNewlines(s) => LineText(s, l))
  }

  /** The first `k` texts with a newline between neighbours. */
  function JoinTo(ls: seq<Text>, k: nat): Text
    requires 1 <= k <= |ls|
  {
    if k == 1 then ls[0] else JoinTo(ls, k - 1) + [NEWLINE] + ls[k - 1]
  }

  function Join(ls: seq<Text>): Text
    requires ls != []
  {
    JoinTo(ls, |ls|)
  }

  lemma {:induction false} PrefixGrows(s: Text, e: nat, f: nat)
    requires e < f <= |s|
    ensures s[..f] == s[..e] + [s[e]] + s[e + 1..f]
  {
  }

  lemma {:induction false} JoinPrefix(s: Text, l: nat, k: nat)
    requires l <= CountNewlines(s) && k == l + 1
    ensures JoinTo(AllLines(s), k) == s[..LineEnd(s, l)]
  {
    LineOrdered(s, l);
    if l > 0 {
      JoinPrefix(s, l - 1, l);
      PrefixGrows(s, LineEnd(s, l - 1), LineEnd(s, l));
    }
  }

  /** Lines joined by newlines give the text back. */
  lemma {:induction false} JoinAllLines(s: Text)
    ensures Join(AllLines(s)) == s
  {
    JoinPrefix(s, CountNewlines(s), |AllLines(s)|);
    assert s[..|s|] == s;
  }

  /** No line contains a newline. */
  lemma {:induction false} LinesAreUnbroken(s: Text, l: nat)
    requires l <= CountNewlines(s)
    ensures NEWLINE !in LineText(s, l)
  {
    LineOrdered(s, l);
    forall o | LineStart(s, l) <= o < LineEnd(s, l)
      ensures s[o] != NEWLINE
    {
      if s[o] == NEWLINE {
        EveryNewlineListed(s, o);
        LineStartCount(s, l);
        CountMonotone(s, LineStart(s, l), o);
        if l < CountNewlines(s) {
          RankBelow(s, l, o);
        }
        assert false;
      }
    }
  }

  // ----- The cut is the only one -----

  lemma {:induction false} OffsetsAgree(s: Text, t: Text, i: nat)
    requires i <= |s| && i <= |t| && s[..i] == t[..i]
    ensures OffsetsTo(s, i) == OffsetsTo(t, i)
  {
    if i > 0 {
      assert s[..i - 1] == s[..i][..i - 1] == t[..i - 1];
      assert s[i - 1] == s[..i][i - 1] == t[i - 1];
      OffsetsAgree(s, t, i - 1);
    }
  }

  lemma {:induction false} OffsetsSkip(s: Text, i: nat, j: nat)
    requires i <= j <= |s| && NEWLINE !in s[i..j]
    ensures OffsetsTo(s, j) == OffsetsTo(s, i)
    decreases j - i
  {
    if i < j {
      assert s[j - 1] == s[i..j][j - 1 - i];
      assert forall k :: i <= k < j - 1 ==> s[k] == s[i..j][k - i];
      OffsetsSkip(s, i, j - 1);
    }
  }

  lemma {:induction false} OffsetsOfJoin(s: Text, last: Text)
    requires NEWLINE !in last
    ensures NewlineOffsets(s + [NEWLINE] + last) == NewlineOffsets(s) + [|s|]
  {
    var t := s + [NEWLINE] + last;
    assert t[..|s|] == s;
    OffsetsAgree(t, s, |s|);
    assert t[|s| + 1..|t|] == last;
    OffsetsSkip(t, |s| + 1, |t|);
  }

  /** A line of `s` is the same line of a longer text that has one newline more, at the end of `s`. */
  lemma {:induction false} LineOfLonger(s: Text, t: Text, l: nat)
    requires |s| < |t| && t[..|s|] == s && NewlineOffsets(t) == NewlineOffsets(s) + [|s|]
    requires l <= CountNewlines(s)
    ensures CountNewlines(t) == CountNewlines(s) + 1
    ensures LineStart(t, l) == LineStart(s, l) && LineEnd(t, l) == LineEnd(s, l)
    ensures LineText(t, l) == LineText(s, l)
  {
    LineOrdered(s, l);
    LineOrdered(t, l);
    SamePart(s, t, LineStart(s, l), LineEnd(s, l));
  }

  lemma {:induction false} SamePart(s: Text, t: Text, i: nat, j: nat)
    requires |s| <= |t| && t[..|s|] == s && i <= j <= |s|
    ensures t[i..j] == s[i..j]
  {
    assert t[..|s|][i..j] == t[i..j];
  }

  lemma {:induction false} LastOfLonger(s: Text, t: Text, last: Text)
    requires t == s + [NEWLINE] + last && NewlineOffsets(t) == NewlineOffsets(s) + [|s|]
    ensures CountNewlines(t) == CountNewlines(s) + 1
    ensures LineText(t, CountNewlines(s) + 1) == last
  {
    LineOrdered(t, CountNewlines(s) + 1);
  }

  lemma {:induction false} LinesOfJoin(s: Text, last: Text)
    requires NEWLINE !in last
    ensures AllLines(s + [NEWLINE] + last) == AllLines(s) + [last]
  {
    var t := s + [NEWLINE] + last;
    OffsetsOfJoin(s, last);
    assert t[..|s|] == s;
    LastOfLonger(s, t, last);
    forall l | 0 <= l <= CountNewlines(s)
      ensures LineText(t, l) == LineText(s, l)
    {
      LineOfLonger(s, t, l);
    }
  }

  lemma {:induction false} OnlyLine(s: Text)
    requires NEWLINE !in s
    ensures AllLines(s) == [s]
  {
    assert s[0..|s|] == s;
    OffsetsSkip(s, 0, |s|);
    assert LineText(s, 0) == s;
  }

  /** Any newline-free texts joined by newlines are cut back into exactly those texts. */
  lemma {:induction false} AllLinesOfJoin(ls: seq<Text>, k: nat)
    requires 1 <= k <= |ls|
    requires forall l :: 0 <= l < |ls| ==> NEWLINE !in ls[l]
    ensures AllLines(JoinTo(ls, k)) == ls[..k]
  {
    if k == 1 {
      OnlyLine(ls[0]);
    } else {
      AllLinesOfJoin(ls, k - 1);
      LinesOfJoin(JoinTo(ls, k - 1), ls[k - 1]);
    }
  }
}
