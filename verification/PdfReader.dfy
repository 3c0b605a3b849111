/**
  * Reading the file the way a viewer does: from its end to the cross-reference table, from the table to
  * the objects, and from object to object along their references.
  */
module PdfReader {
  import opened Sequences
  import opened Decimals
  import opened Words
  import opened Pdf

  /** The characters from `a` to `b`; none when there are no such places. */
  function Sub(s: string, a: nat, b: nat): string {
    if a <= b <= |s| then s[a..b] else ""
  }

  ghost predicate Has(s: string, at: nat, t: string) {
    at + |t| <= |s| && s[at..at + |t|] == t
  }

  /** The end of the digits that begin at `i`. */
  function DigitsEnd(s: string, i: nat): (e: nat)
    decreases |s| - i
  {
    if i < |s| && IsDigit(s[i]) then DigitsEnd(s, i + 1) else i
  }

  /** The beginning of the digits that end at `end`. */
  function DigitsStart(s: string, end: nat): (b: nat)
    requires end <= |s|
    ensures b <= end
  {
    if end == 0 || !IsDigit(s[end - 1]) then end else DigitsStart(s, end - 1)
  }

  /** Where the line after the one at `i` begins. */
  function NextLine(s: string, i: nat): nat
    decreases |s| - i
  {
    if i >= |s| then i else if s[i] == '\n' then i + 1 else NextLine(s, i + 1)
  }

  /** The number in the last line but one. */
  function StartXref(file: string): nat {
    if |file| < 7 then 0
    else
      var end := |file| - 7;
      ReadNat(file[DigitsStart(file, end)..end])
  }

  /** The entry of object `k`: two lines down from the table's beginning, 20 bytes an entry. */
  function EntryStart(file: string, k: nat): nat {
    NextLine(file, NextLine(file, StartXref(file))) + 20 * k
  }

  function ReadOffset(file: string, k: nat): nat {
    ReadNat(Sub(file, EntryStart(file, k), EntryStart(file, k) + 10))
  }

  // ----- Finding pieces of a text -----

  lemma {:induction false} HasMore(s: string, u: string, at: nat, t: string)
    requires Has(s, at, t)
    ensures Has(s + u, at, t)
  {
    assert (s + u)[at..at + |t|] == s[at..at + |t|];
  }

  lemma {:induction false} HasLast(s: string, t: string)
    ensures Has(s + t, |s|, t)
  {
  }

  lemma {:induction false} HasParts(s: string, at: nat, a: string, b: string)
    requires Has(s, at, a + b)
    ensures Has(s, at, a) && Has(s, at + |a|, b)
  {
    assert s[at..at + |a|] == (a + b)[..|a|] == a;
    assert s[at + |a|..at + |a| + |b|] == (a + b)[|a|..] == b;
  }

  lemma {:induction false} HasAt(s: string, at: nat, t: string, i: nat)
    requires Has(s, at, t) && i < |t|
    ensures s[at + i] == t[i]
  {
    assert s[at..at + |t|][i] == t[i];
  }

  lemma {:induction false} NextLineAt(s: string, at: nat, line: string)
    requires Has(s, at, line + "\n") && '\n' !in line
    ensures NextLine(s, at) == at + |line| + 1
    decreases |line|
  {
    HasAt(s, at, line + "\n", 0);
    if line != [] {
      assert line + "\n" == line[..1] + (line[1..] + "\n");
      HasParts(s, at, line[..1], line[1..] + "\n");
      assert line[0] in line;
      NextLineAt(s, at + 1, line[1..]);
    }
  }

  lemma {:induction false} DigitsStartAt(s: string, begin: nat, d: string, end: nat)
    requires Has(s, begin, d) && end <= begin + |d| && begin <= end
    requires AllDigits(d) && begin > 0 && !IsDigit(s[begin - 1])
    ensures DigitsStart(s, end) == begin
    decreases end
  {
    if begin < end {
      HasAt(s, begin, d, end - 1 - begin);
      DigitsStartAt(s, begin, d, end - 1);
    }
  }

  lemma {:induction false} DigitsEndAt(s: string, at: nat, d: string, i: nat)
    requires Has(s, at, d) && AllDigits(d) && at <= i <= at + |d| < |s| && !IsDigit(s[at + |d|])
    ensures DigitsEnd(s, i) == at + |d|
    decreases at + |d| - i
  {
    if i < at + |d| {
      HasAt(s, at, d, i - at);
      DigitsEndAt(s, at, d, i + 1);
    }
  }

  // ----- The table -----

  lemma {:induction false} BodyHas(objects: seq<string>, k: nat, n: nat)
    requires 1 <= k <= n <= |objects|
    ensures Has(HEADER + Body(objects, n), Offset(objects, k), Framed(k, objects[k - 1]))
    decreases n
  {
    Assoc(HEADER, Body(objects, n - 1), Framed(n, objects[n - 1]));
    if k == n {
      HasLast(HEADER + Body(objects, n - 1), Framed(n, objects[n - 1]));
    } else {
      BodyHas(objects, k, n - 1);
      HasMore(HEADER + Body(objects, n - 1), Framed(n, objects[n - 1]), Offset(objects, k), Framed(k, objects[k - 1]));
    }
  }

  lemma {:induction false} OffsetsGrow(objects: seq<string>, k: nat, n: nat)
    requires 1 <= k <= n <= |objects| + 1
    ensures Offset(objects, k) <= Offset(objects, n)
    decreases n
  {
    if k < n {
      OffsetsGrow(objects, k, n - 1);
    }
  }

  lemma {:induction false} EntryLength(offset: nat)
    requires offset < Pow10(10)
    ensures |EntryText(offset)| == 20
  {
    ReadPadded(offset, 10);
  }

  lemma {:induction false} EntriesLength(objects: seq<string>, n: nat)
    requires n <= |objects| && Offset(objects, n + 1) < Pow10(10)
    ensures |Entries(objects, n)| == 20 * (n + 1)
  {
    if n > 0 {
      OffsetsGrow(objects, n, n + 1);
      EntriesLength(objects, n - 1);
      EntryLength(Offset(objects, n));
    }
  }

  lemma {:induction false} EntriesHave(objects: seq<string>, k: nat, n: nat)
    requires 1 <= k <= n <= |objects| && Offset(objects, n + 1) < Pow10(10)
    ensures Has(Entries(objects, n), 20 * k, EntryText(Offset(objects, k)))
    decreases n
  {
    OffsetsGrow(objects, n, n + 1);
    EntriesLength(objects, n - 1);
    if k == n {
      HasLast(Entries(objects, n - 1), EntryText(Offset(objects, n)));
    } else {
      EntriesHave(objects, k, n - 1);
      HasMore(Entries(objects, n - 1), EntryText(Offset(objects, n)), 20 * k, EntryText(Offset(objects, k)));
    }
  }

  lemma {:induction false} HasInside(before: string, s: string, at: nat, t: string)
    requires Has(s, at, t)
    ensures Has(before + s, |before| + at, t)
  {
    assert (before + s)[|before| + at..|before| + at + |t|] == s[at..at + |t|];
  }

  /** The last lines lead to the table, whatever is before them. */
  lemma {:induction false} StartFound(before: string, x: nat)
    requires before != [] && before[|before| - 1] == '\n'
    ensures StartXref(before + Digits(x) + "\n%%EOF\n") == x
  {
    var d := Digits(x);
    var file := before + d + "\n%%EOF\n";
    HasLast(before, d);
    HasMore(before + d, "\n%%EOF\n", |before|, d);
    assert file[|before| - 1] == '\n';
    DigitsStartAt(file, |before|, d, |before| + |d|);
    ReadDigits(x);
  }

  /** Two lines of the table's head, and then the entries. */
  lemma {:induction false} HeadSkipped(file: string, x: nat, n: nat)
    requires Has(file, x, TableHead(n))
    ensures Has(file, x, "xref\n")
    ensures NextLine(file, NextLine(file, x)) == x + |TableHead(n)|
  {
    var d := Digits(n + 1);
    assert TableHead(n) == "xref\n" + ("0 " + d + "\n");
    HasParts(file, x, "xref\n", "0 " + d + "\n");
    assert "xref\n" == "xref" + "\n";
    NextLineAt(file, x, "xref");
    NextLineAt(file, x + 5, "0 " + d);
  }

  /** What the parts of a file have, the file has. */
  lemma {:induction false} PartsOfFile(body: string, head: string, entries: string, rest: string,
                                       offset: nat, framed: string, at: nat, entry: string, file: string)
    requires Has(body, offset, framed) && Has(entries, at, entry) && file == body + head + entries + rest
    ensures Has(file, offset, framed) && Has(file, |body|, head) && Has(file, |body| + |head| + at, entry)
  {
    HasMore(body, head, offset, framed);
    HasLast(body, head);
    HasMore(body + head, entries, offset, framed);
    HasMore(body + head, entries, |body|, head);
    HasInside(body + head, entries, at, entry);
    HasMore(body + head + entries, rest, offset, framed);
    HasMore(body + head + entries, rest, |body|, head);
    HasMore(body + head + entries, rest, |body| + |head| + at, entry);
  }

  lemma {:induction false} EntryReads(file: string, at: nat, offset: nat)
    requires offset < Pow10(10) && Has(file, at, EntryText(offset))
    ensures ReadNat(Sub(file, at, at + 10)) == offset
  {
    ReadPadded(offset, 10);
    HasParts(file, at, Padded(offset, 10), " 00000 n \n");
  }

  /**
    * From the file's end to an object: `startxref` gives the place of "xref", the 20-byte entry of
    * object `k` gives the place where the object begins, and there it is, under its number.
    */
  ghost predicate Finds(file: string, k: nat, text: string) {
    && Has(file, StartXref(file), "xref\n")
    && |EntryText(ReadOffset(file, k))| == 20
    && Has(file, EntryStart(file, k), EntryText(ReadOffset(file, k)))
    && Has(file, ReadOffset(file, k), Framed(k, text))
  }

  lemma {:induction false} EntryStartIs(file: string, x: nat, n: nat, k: nat)
    requires StartXref(file) == x && Has(file, x, TableHead(n))
    ensures EntryStart(file, k) == x + |TableHead(n)| + 20 * k
  {
    HeadSkipped(file, x, n);
  }

  lemma {:induction false} XrefThere(file: string, n: nat)
    requires Has(file, StartXref(file), TableHead(n))
    ensures Has(file, StartXref(file), "xref\n")
  {
    HeadSkipped(file, StartXref(file), n);
  }

  lemma {:induction false} Followed(file: string, k: nat, offset: nat, text: string)
    requires Has(file, StartXref(file), "xref\n") && offset < Pow10(10)
    requires Has(file, EntryStart(file, k), EntryText(offset))
    requires Has(file, offset, Framed(k, text))
    ensures Finds(file, k, text)
  {
    EntryLength(offset);
    EntryReads(file, EntryStart(file, k), offset);
  }

  lemma {:induction false} PartsHave(objects: seq<string>, k: nat)
    requires 1 <= k <= |objects| && Offset(objects, |objects| + 1) < Pow10(10)
    ensures Offset(objects, k) < Pow10(10)
    ensures Has(HEADER + Body(objects, |objects|), Offset(objects, k), Framed(k, objects[k - 1]))
    ensures Has(Entries(objects, |objects|), 20 * k, EntryText(Offset(objects, k)))
  {
    OffsetsGrow(objects, k, |objects| + 1);
    BodyHas(objects, k, |objects|);
    EntriesHave(objects, k, |objects|);
  }

  /** The table at `x` leads to object `k`. */
  ghost predicate Leads(file: string, x: nat, n: nat, k: nat, offset: nat, text: string) {
    && StartXref(file) == x && Has(file, x, TableHead(n)) && offset < Pow10(10)
    && Has(file, x + |TableHead(n)| + 20 * k, EntryText(offset))
    && Has(file, offset, Framed(k, text))
  }

  lemma {:induction false} TableFollowed(file: string, x: nat, n: nat, k: nat, offset: nat, text: string)
    requires Leads(file, x, n, k, offset, text)
    ensures Finds(file, k, text)
  {
    XrefThere(file, n);
    EntryStartIs(file, x, n, k);
    Followed(file, k, offset, text);
  }

  lemma {:induction false} BodyLeads(file: string, body: string, n: nat, entries: string, rest: string,
                                     k: nat, offset: nat, text: string)
    requires Has(body, offset, Framed(k, text)) && Has(entries, 20 * k, EntryText(offset)) && offset < Pow10(10)
    requires file == body + TableHead(n) + entries + rest && StartXref(file) == |body|
    ensures Leads(file, |body|, n, k, offset, text)
  {
    PartsOfFile(body, TableHead(n), entries, rest, offset, Framed(k, text), 20 * k, EntryText(offset),
                file);
  }

  lemma {:induction false} TrailerEnds(n: nat)
    ensures TrailerText(n) != [] && TrailerText(n)[|TrailerText(n)| - 1] == '\n'
  {
  }

  lemma {:induction false} LastOfSum(a: string, b: string)
    requires b != []
    ensures a + b != [] && (a + b)[|a + b| - 1] == b[|b| - 1]
  {
  }

  lemma {:induction false} FileParts(body: string, head: string, entries: string, trailer: string, x: nat)
    requires trailer != [] && trailer[|trailer| - 1] == '\n'
    ensures var file := body + head + entries + trailer + Digits(x) + "\n%%EOF\n";
            && StartXref(file) == x
            && file == body + head + entries + (trailer + Digits(x) + "\n%%EOF\n")
  {
    LastOfSum(body + head + entries, trailer);
    StartFound(body + head + entries + trailer, x);
    Assoc4(body + head + entries, trailer, Digits(x), "\n%%EOF\n");
  }

  /** For every list of objects short of ten-digit offsets, every object is found. */
  lemma {:induction false} TableIsExact(objects: seq<string>, k: nat)
    requires 1 <= k <= |objects| && Offset(objects, |objects| + 1) < Pow10(10)
    ensures Finds(FileText(objects), k, objects[k - 1])
  {
    var n, x := |objects|, Offset(objects, |objects| + 1);
    var body := HEADER + Body(objects, n);
    TrailerEnds(n);
    FileParts(body, TableHead(n), Entries(objects, n), TrailerText(n), x);
    PartsHave(objects, k);
    BodyLeads(FileText(objects), body, n, Entries(objects, n), TrailerText(n) + Digits(x) + "\n%%EOF\n",
              k, Offset(objects, k), objects[k - 1]);
    TableFollowed(FileText(objects), |body|, n, k, Offset(objects, k), objects[k - 1]);
  }

  lemma {:induction false} AfterThree(a: string, b: string, c: string, t: string, u: string)
    ensures Has(a + b + c + (t + u), |a| + |b| + |c|, t)
  {
  }

  /** How many entries the table's head announces. */
  function TableCount(file: string): nat {
    var at := NextLine(file, StartXref(file)) + 2;
    ReadNat(Sub(file, at, DigitsEnd(file, at)))
  }

  lemma {:induction false} HeadParts(file: string, x: nat, d: string)
    requires Has(file, x, "xref\n0 " + d + "\n")
    ensures Has(file, x, "xref" + "\n") && Has(file, x + 7, d)
    ensures x + 7 + |d| < |file| && file[x + 7 + |d|] == '\n'
  {
    assert "xref\n0 " + d + "\n" == "xref" + "\n" + ("0 " + (d + "\n"));
    HasParts(file, x, "xref" + "\n", "0 " + (d + "\n"));
    HasParts(file, x + 5, "0 ", d + "\n");
    HasParts(file, x + 7, d, "\n");
    HasAt(file, x + 7 + |d|, "\n", 0);
  }

  lemma {:induction false} CountRead(file: string, n: nat)
    requires Has(file, StartXref(file), TableHead(n))
    ensures TableCount(file) == n + 1
  {
    var x, d := StartXref(file), Digits(n + 1);
    HeadParts(file, x, d);
    NextLineAt(file, x, "xref");
    DigitsAt(file, x + 7, d);
    ReadDigits(n + 1);
  }

  lemma {:induction false} DigitsAt(file: string, at: nat, d: string)
    requires Has(file, at, d) && AllDigits(d) && at + |d| < |file| && !IsDigit(file[at + |d|])
    ensures Sub(file, at, DigitsEnd(file, at)) == d
  {
    DigitsEndAt(file, at, d, at);
  }

  lemma {:induction false} SecondOfFour(w: string, x: string, y: string, z: string)
    ensures Has(w + x + y + z, |w|, x)
  {
    HasLast(w, x);
    HasMore(w + x, y, |w|, x);
    HasMore(w + x + y, z, |w|, x);
  }

  lemma {:induction false} TrailerPlaced(file: string, body: string, n: nat, entries: string, rest: string)
    requires file == body + TableHead(n) + entries + (TrailerText(n) + rest) && StartXref(file) == |body|
    requires |entries| == 20 * (n + 1)
    ensures TableCount(file) == n + 1 && Has(file, EntryStart(file, n + 1), TrailerText(n))
  {
    AfterThree(body, TableHead(n), entries, TrailerText(n), rest);
    SecondOfFour(body, TableHead(n), entries, TrailerText(n) + rest);
    CountRead(file, n);
    EntryStartIs(file, |body|, n, n + 1);
    SamePlace(file, |body| + |TableHead(n)| + |entries|, EntryStart(file, n + 1), TrailerText(n));
  }

  lemma {:induction false} SamePlace(s: string, i: nat, j: nat, t: string)
    requires Has(s, i, t) && i == j
    ensures Has(s, j, t)
  {
  }

  /** The trailer follows as many entries as the table's head announces. */
  lemma {:induction false} TrailerFound(objects: seq<string>)
    requires Offset(objects, |objects| + 1) < Pow10(10)
    ensures var file := FileText(objects);
            TableCount(file) == |objects| + 1 && Has(file, EntryStart(file, TableCount(file)), TrailerText(|objects|))
  {
    var n, x := |objects|, Offset(objects, |objects| + 1);
    var body := HEADER + Body(objects, n);
    TrailerEnds(n);
    FileParts(body, TableHead(n), Entries(objects, n), TrailerText(n), x);
    EntriesLength(objects, n);
    Assoc(TrailerText(n), Digits(x), "\n%%EOF\n");
    TrailerPlaced(FileText(objects), body, n, Entries(objects, n), Digits(x) + "\n%%EOF\n");
  }

  // ----- Dictionaries -----

  /** The line after the one at `at`: what an object's number and the word "trailer" introduce. */
  function SecondLine(file: string, at: nat): string {
    Sub(file, NextLine(file, at), NextLine(file, NextLine(file, at)))
  }

  lemma {:induction false} SecondLineAt(file: string, at: nat, first: string, line: string)
    requires Has(file, at, first + "\n") && '\n' !in first
    requires Has(file, at + |first| + 1, line) && OneLine(line)
    ensures NextLine(file, at) == at + |first| + 1 && SecondLine(file, at) == line
  {
    NextLineAt(file, at, first);
    var inner := line[..|line| - 1];
    assert line == inner + "\n";
    NextLineAt(file, at + |first| + 1, inner);
  }

  /** What follows a line begins on the next. */
  lemma {:induction false} AfterLine(file: string, at: nat, first: string, text: string, tail: string)
    requires Has(file, at, first + "\n" + text + tail) && '\n' !in first
    ensures Has(file, at, first + "\n")
    ensures NextLine(file, at) == at + |first| + 1 && Has(file, at + |first| + 1, text)
  {
    HasParts(file, at, first + "\n" + text, tail);
    HasParts(file, at, first + "\n", text);
    NextLineAt(file, at, first);
  }

  lemma {:induction false} NumberLine(d: string, text: string)
    requires AllDigits(d)
    ensures d + " 0 obj\n" + text + "endobj\n" == (d + " 0 obj") + "\n" + text + "endobj\n"
    ensures '\n' !in d + " 0 obj"
  {
    assert " 0 obj\n" == " 0 obj" + "\n";
    Assoc(d, " 0 obj", "\n");
  }

  /** An object's text begins on the line after its number. */
  lemma {:induction false} TextFound(file: string, at: nat, k: nat, text: string)
    requires Has(file, at, Framed(k, text))
    ensures Has(file, NextLine(file, at), text)
    ensures OneLine(text) ==> SecondLine(file, at) == text
  {
    var first := Digits(k) + " 0 obj";
    NumberLine(Digits(k), text);
    AfterLine(file, at, first, text, "endobj\n");
    if OneLine(text) {
      SecondLineAt(file, at, first, text);
    }
  }

  lemma {:induction false} FoundThere(file: string, k: nat, text: string)
    requires Finds(file, k, text)
    ensures Has(file, ReadOffset(file, k), Framed(k, text))
  {
  }

  /** A dictionary of one line is read whole. */
  lemma {:induction false} DictionaryFound(file: string, k: nat, text: string)
    requires Finds(file, k, text) && OneLine(text)
    ensures SecondLine(file, ReadOffset(file, k)) == text
  {
    FoundThere(file, k, text);
    TextFound(file, ReadOffset(file, k), k, text);
  }

  // ----- Streams -----

  /** The content of a stream object: as many characters as its length says. */
  function ReadStream(text: string): string {
    var e := DigitsEnd(text, 11);
    Sub(text, e + 11, e + 11 + ReadNat(Sub(text, 11, e)))
  }

  lemma {:induction false} DigitsBetween(a: string, d: string, c: string, content: string, e: string,
                                         rest: string)
    requires AllDigits(d) && c != "" && !IsDigit(c[0])
    ensures var text := a + d + c + content + e + rest;
            && DigitsEnd(text, |a|) == |a| + |d| && Sub(text, |a|, |a| + |d|) == d
            && Has(text, |a| + |d| + |c|, content)
  {
    var text := a + d + c + content + e;
    StreamPieces(a, d, c, content, e);
    HasMore(text, rest, |a|, d);
    HasMore(text, rest, |a| + |d|, c);
    HasMore(text, rest, |a| + |d| + |c|, content);
    HasAt(text + rest, |a| + |d|, c, 0);
    DigitsEndAt(text + rest, |a|, d, |a|);
  }

  lemma {:induction false} LengthFound(content: string, rest: string)
    ensures var text := StreamText(content) + rest;
            && DigitsEnd(text, 11) == 11 + |Digits(|content|)|
            && Sub(text, 11, DigitsEnd(text, 11)) == Digits(|content|)
            && Has(text, 22 + |Digits(|content|)|, content)
  {
    DigitsBetween("<< /Length ", Digits(|content|), " >>\nstream\n", content, "endstream\n", rest);
  }

  lemma {:induction false} StreamPieces(a: string, b: string, c: string, d: string, e: string)
    ensures var text := a + b + c + d + e;
            && Has(text, |a|, b) && Has(text, |a| + |b|, c) && Has(text, |a| + |b| + |c|, d)
            && Has(text, |a| + |b| + |c| + |d|, e)
  {
  }

  /** The length is exact: reading that much gives the content, and "endstream" follows it. */
  lemma {:induction false} StreamReads(content: string, rest: string)
    ensures ReadStream(StreamText(content) + rest) == content
    ensures StreamText(content)
         == "<< /Length " + Digits(|ReadStream(StreamText(content) + rest)|) + " >>\nstream\n"
            + ReadStream(StreamText(content) + rest) + "endstream\n"
  {
    LengthFound(content, rest);
    ReadDigits(|content|);
  }

  lemma {:induction false} SuffixHas(file: string, at: nat, text: string)
    requires Has(file, at, text)
    ensures Sub(file, at, |file|) == text + file[at + |text|..]
  {
  }

  lemma {:induction false} StreamThere(file: string, at: nat, content: string)
    requires Has(file, at, StreamText(content))
    ensures ReadStream(Sub(file, at, |file|)) == content
  {
    SuffixHas(file, at, StreamText(content));
    StreamReads(content, file[at + |StreamText(content)|..]);
  }

  lemma {:induction false} TextThere(file: string, k: nat, text: string)
    requires Finds(file, k, text)
    ensures Has(file, NextLine(file, ReadOffset(file, k)), text)
  {
    FoundThere(file, k, text);
    TextFound(file, ReadOffset(file, k), k, text);
  }
}
