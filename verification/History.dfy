/**
  * Editing sessions: any run of replaces and batches on a document is the same run on a plain
  * string, and the recorded edits take it back step by step.
  */
module History {
  import opened Units
  import opened Edits
  import opened Batches
  import opened Document

  datatype Command =
    | Replace(start: nat, end: nat, text: Text)
    | Batch(edits: seq<Edit>)

  ghost function Step(s: Text, c: Command): Text {
    match c
    case Replace(start, end, text) => ReplaceText(s, start, end, text)
    case Batch(edits) => if Sorted(edits) then BatchText(s, edits) else s
  }

  /** The edits a command reports as applied; a rejected batch reports none. */
  ghost function Applied(s: Text, c: Command): seq<Edit> {
    match c
    case Replace(start, end, text) => [ReplaceRecord(s, start, end, text)]
    case Batch(edits) => if Sorted(edits) then BatchRecords(s, edits) else []
  }

  ghost function Run(s: Text, cs: seq<Command>): Text
    decreases |cs|
  {
    if cs == [] then s else Run(Step(s, cs[0]), cs[1..])
  }

  /** A document driven by any command list stays valid and spells the run of the plain string. */
  method Play(d: TextDocument, cs: seq<Command>)
    requires d.Valid()
    modifies d
    ensures d.Valid() && d.Content() == Run(old(d.Content()), cs)
  {
    var i := 0;
    while i < |cs|
      invariant 0 <= i <= |cs| && d.Valid()
      invariant Run(d.Content(), cs[i..]) == Run(old(d.Content()), cs)
    {
      assert cs[i..][1..] == cs[i + 1..];
      match cs[i] {
        case Replace(start, end, text) =>
          var _ := d.Replace(start, end, text);
        case Batch(edits) =>
          var _ := d.ApplyBatch(edits);
      }
      i := i + 1;
    }
  }

  /** What the command reports does not overlap. */
  ghost predicate Undoable(s: Text, c: Command) {
    Follows(0, Applied(s, c))
  }

  /** A replace always; a batch whatever it inserts, when its ranges (but the last) end within the text. */
  lemma {:induction false} OftenUndoable(s: Text, c: Command)
    requires c.Batch? && Sorted(c.edits) ==> EndsInside(|s|, c.edits)
    ensures Undoable(s, c)
  {
    if c.Batch? && Sorted(c.edits) {
      SortedFollows(0, c.edits);
      EndsInsideIsUndone(s, c.edits);
    }
  }

  /** The records of an undoable command invert into an accepted batch that restores the text. */
  lemma {:induction false} StepUndone(s: Text, c: Command)
    requires Undoable(s, c)
    ensures var inv := Inverse(0, 0, Applied(s, c));
            Sorted(inv) && Fits(Step(s, c), 0, inv) && Step(Step(s, c), Batch(inv)) == s
  {
    match c {
      case Replace(start, end, text) =>
        var r := ReplaceRecord(s, start, end, text);
        UndoRestores(s, [r]);
        OneRecord(s, r);
      case Batch(edits) =>
        if Sorted(edits) {
          UndoneIffRecordsFollow(s, edits);
        }
    }
  }

  lemma {:induction false} OneRecord(s: Text, r: Edit)
    requires r.End() <= |s| && r.deleted == s[r.start..r.End()]
    ensures BatchText(s, [r]) == Splice(s, r.start, r.End(), r.inserted)
    ensures BatchRecords(s, [r]) == [r]
  {
    assert [r][1..] == [];
  }

  ghost predicate AllUndoable(s: Text, cs: seq<Command>)
    decreases |cs|
  {
    cs == [] || (Undoable(s, cs[0]) && AllUndoable(Step(s, cs[0]), cs[1..]))
  }

  /** The undo run: the inverse of the last command first. */
  ghost function UndoRun(s: Text, cs: seq<Command>): seq<Command>
    requires AllUndoable(s, cs)
    decreases |cs|
  {
    if cs == [] then []
    else
      UndoRun(Step(s, cs[0]), cs[1..]) + [Batch(Inverse(0, 0, Applied(s, cs[0])))]
  }

  lemma {:induction false} RunConcat(s: Text, cs: seq<Command>, c: Command)
    ensures Run(s, cs + [c]) == Step(Run(s, cs), c)
    decreases |cs|
  {
    if cs == [] {
      assert ([c])[1..] == [];
      assert cs + [c] == [c];
    } else {
      assert (cs + [c])[1..] == cs[1..] + [c];
      RunConcat(Step(s, cs[0]), cs[1..], c);
    }
  }

  /** Undoing a whole session restores the text it began with. */
  lemma {:induction false} SessionUndone(s: Text, cs: seq<Command>)
    requires AllUndoable(s, cs)
    ensures Run(Run(s, cs), UndoRun(s, cs)) == s
    decreases |cs|
  {
    if cs != [] {
      var t := Step(s, cs[0]);
      SessionUndone(t, cs[1..]);
      StepUndone(s, cs[0]);
      RunConcat(Run(s, cs), UndoRun(t, cs[1..]), Batch(Inverse(0, 0, Applied(s, cs[0]))));
    }
  }
}
