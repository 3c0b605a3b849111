/**
  * The whole way back: from the end of the file to what every page shows, along the cross-reference
  * table and the references.
  */
module PdfDocument {
  import opened Decimals
  import opened PageContent
  import opened PageShapes
  import opened Words
  import opened Pdf
  import opened PdfReader
  import opened References

  // ----- A reader -----

  /** Reference `i` of the dictionary at a place; 0 when there is none. */
  function RefAt(file: string, at: nat, i: nat): nat {
    var ids := Refs(SecondLine(file, at));
    if i < |ids| then ids[i] else 0
  }

  function TrailerAt(file: string): nat {
    EntryStart(file, TableCount(file))
  }

  function Catalog(file: string): nat {
    RefAt(file, TrailerAt(file), 0)
  }

  function PageTree(file: string): nat {
    RefAt(file, ReadOffset(file, Catalog(file)), 0)
  }

  function PageIds(file: string): seq<nat> {
    Refs(SecondLine(file, ReadOffset(file, PageTree(file))))
  }

  /** The stream of object `k`, read to its length. */
  function ContentAtObject(file: string, k: nat): string {
    ReadStream(Sub(file, NextLine(file, ReadOffset(file, k)), |file|))
  }

  /** The content of the page with the given dictionary: what its second reference names. */
  function ContentOf(file: string, leaf: nat): string {
    ContentAtObject(file, RefAt(file, ReadOffset(file, leaf), 1))
  }

  /** What each page of a file paints. */
  ghost function ReadDocument(file: string): (pages: seq<seq<Shape>>)
    ensures |pages| == |PageIds(file)|
    ensures forall i {:trigger pages[i]} :: 0 <= i < |pages| ==>
      pages[i] == Painted(ContentOf(file, PageIds(file)[i]))
  {
    seq(|PageIds(file)|, i requires 0 <= i < |PageIds(file)| => Painted(ContentOf(file, PageIds(file)[i])))
  }

  // ----- The way back -----

  /** Object `i` is found through the table, under its number; numbers count from 1. */
  ghost predicate FoundAt(file: string, objects: seq<string>, i: nat)
    requires i < |objects|
  {
    Finds(file, i + 1, objects[i])
  }

  ghost predicate AllFound(file: string, objects: seq<string>) {
    forall i: nat {:trigger FoundAt(file, objects, i)} :: i < |objects| ==> FoundAt(file, objects, i)
  }

  lemma {:induction false} TableFindsAll(objects: seq<string>)
    requires Offset(objects, |objects| + 1) < Pow10(10)
    ensures AllFound(FileText(objects), objects)
  {
    forall i: nat | i < |objects|
      ensures FoundAt(FileText(objects), objects, i)
    {
      TableIsExact(objects, i + 1);
    }
  }

  lemma {:induction false} FoundOne(file: string, objects: seq<string>, i: nat)
    requires AllFound(file, objects) && i < |objects|
    ensures Finds(file, i + 1, objects[i])
  {
    assert FoundAt(file, objects, i);
  }

  lemma {:induction false} HeadRefs(pages: seq<Page>, objects: seq<string>)
    requires AllDrawable(pages, |pages|) && ObjectsFor(pages, objects)
    ensures |objects| == 2 + 2 * |pages|
    ensures Refs(objects[0]) == [2] && OneLine(objects[0])
    ensures Refs(objects[1]) == KidIds(|pages|) && OneLine(objects[1])
  {
    CatalogRefs();
    TreeRefs(|pages|);
  }

  lemma {:induction false} InTurnAt(objects: seq<string>, leaves: seq<string>, contents: seq<string>, i: nat)
    requires InTurn(objects, leaves, contents) && i < |leaves|
    ensures objects[2 + 2 * i] == leaves[i] && objects[3 + 2 * i] == StreamText(contents[i])
  {
  }

  lemma {:induction false} LeafOfPage(pages: seq<Page>, objects: seq<string>, i: nat)
    requires AllDrawable(pages, |pages|) && ObjectsFor(pages, objects) && i < |pages|
    ensures Refs(objects[2 + 2 * i]) == [2, 4 + 2 * i] && OneLine(objects[2 + 2 * i])
  {
    InTurnAt(objects, Leaves(pages, |pages|), Contents(pages, |pages|), i);
    LeafAt(pages, |pages|, i);
    LeafRefs(pages[i], 4 + 2 * i);
  }

  lemma {:induction false} StreamOfPage(pages: seq<Page>, objects: seq<string>, i: nat)
    requires AllDrawable(pages, |pages|) && ObjectsFor(pages, objects) && i < |pages|
    ensures Drawable(pages[i].view) && objects[3 + 2 * i] == StreamText(PageText(pages[i]))
    ensures Refs(objects[3 + 2 * i]) == []
  {
    EachDrawable(pages, |pages|, i);
    InTurnAt(objects, Leaves(pages, |pages|), Contents(pages, |pages|), i);
    ContentAt(pages, |pages|, i);
    StreamRefs(pages[i]);
  }

  lemma {:induction false} RefFound(file: string, k: nat, text: string, i: nat)
    requires Finds(file, k, text) && OneLine(text) && i < |Refs(text)|
    ensures RefAt(file, ReadOffset(file, k), i) == Refs(text)[i]
  {
    DictionaryFound(file, k, text);
  }

  lemma {:induction false} TrailerLineFound(file: string, at: nat, n: nat)
    requires Has(file, at, TrailerText(n)) && OneLine(TrailerDict(n))
    ensures SecondLine(file, at) == TrailerDict(n)
  {
    TrailerLines(n);
    HasParts(file, at, "trailer" + "\n" + TrailerDict(n), "startxref\n");
    HasParts(file, at, "trailer" + "\n", TrailerDict(n));
    SecondLineAt(file, at, "trailer", TrailerDict(n));
  }

  lemma {:induction false} CatalogFound(objects: seq<string>)
    requires Offset(objects, |objects| + 1) < Pow10(10)
    ensures Catalog(FileText(objects)) == 1
  {
    TrailerFound(objects);
    TrailerRefs(|objects|);
    TrailerLineFound(FileText(objects), TrailerAt(FileText(objects)), |objects|);
  }

  lemma {:induction false} TreeLeads(file: string, catalog: string, tree: string)
    requires Catalog(file) == 1 && Finds(file, 1, catalog) && OneLine(catalog) && Refs(catalog) == [2]
    requires Finds(file, 2, tree) && OneLine(tree)
    ensures PageIds(file) == Refs(tree)
  {
    RefFound(file, 1, catalog, 0);
    DictionaryFound(file, 2, tree);
  }

  lemma {:induction false} PagesFound(file: string, pages: seq<Page>, objects: seq<string>)
    requires AllDrawable(pages, |pages|) && ObjectsFor(pages, objects)
    requires AllFound(file, objects) && Catalog(file) == 1
    ensures PageIds(file) == KidIds(|pages|)
  {
    HeadRefs(pages, objects);
    FoundOne(file, objects, 0);
    FoundOne(file, objects, 1);
    TreeLeads(file, objects[0], objects[1]);
  }

  lemma {:induction false} RefOfObject(file: string, objects: seq<string>, j: nat, i: nat)
    requires AllFound(file, objects) && j < |objects| && OneLine(objects[j]) && i < |Refs(objects[j])|
    ensures RefAt(file, ReadOffset(file, j + 1), i) == Refs(objects[j])[i]
  {
    var k, text := j + 1, objects[j];
    FoundOne(file, objects, j);
    assert Finds(file, k, text);
    RefFound(file, k, text, i);
  }

  lemma {:induction false} TextOfObject(file: string, objects: seq<string>, j: nat)
    requires AllFound(file, objects) && j < |objects|
    ensures Has(file, NextLine(file, ReadOffset(file, j + 1)), objects[j])
  {
    FoundOne(file, objects, j);
    TextThere(file, j + 1, objects[j]);
  }

  lemma {:induction false} ContentOfObject(file: string, objects: seq<string>, j: nat, content: string)
    requires AllFound(file, objects) && j < |objects| && objects[j] == StreamText(content)
    ensures ContentAtObject(file, j + 1) == content
  {
    TextOfObject(file, objects, j);
    StreamThere(file, NextLine(file, ReadOffset(file, j + 1)), content);
  }

  /** The dictionary of page `i` is object `3 + 2 * i`, and names the content. */
  lemma {:induction false} LeafThere(file: string, pages: seq<Page>, objects: seq<string>, i: nat)
    requires AllDrawable(pages, |pages|) && ObjectsFor(pages, objects) && i < |pages|
    requires AllFound(file, objects)
    ensures RefAt(file, ReadOffset(file, 3 + 2 * i), 1) == 4 + 2 * i
  {
    LeafOfPage(pages, objects, i);
    RefOfObject(file, objects, 2 + 2 * i, 1);
  }

  lemma {:induction false} ContentThere(file: string, pages: seq<Page>, objects: seq<string>, i: nat)
    requires AllDrawable(pages, |pages|) && ObjectsFor(pages, objects) && i < |pages|
    requires AllFound(file, objects)
    ensures Drawable(pages[i].view) && ContentAtObject(file, 4 + 2 * i) == PageText(pages[i])
  {
    StreamOfPage(pages, objects, i);
    ContentOfObject(file, objects, 3 + 2 * i, PageText(pages[i]));
  }

  lemma {:induction false} PagePainted(file: string, pages: seq<Page>, objects: seq<string>, i: nat)
    requires AllDrawable(pages, |pages|) && ObjectsFor(pages, objects) && i < |pages|
    requires AllFound(file, objects)
    ensures Drawable(pages[i].view)
    ensures Painted(ContentOf(file, 3 + 2 * i)) == RoundedShapes(Shapes(pages[i]))
  {
    LeafThere(file, pages, objects, i);
    ContentThere(file, pages, objects, i);
    PaintsThePage(pages[i]);
  }

  /** A file shows the pages: as many, and each its primitives to three decimals. */
  ghost predicate ShowsPages(file: string, pages: seq<Page>) {
    && |ReadDocument(file)| == |pages|
    && forall i {:trigger pages[i]} :: 0 <= i < |pages| ==>
         Drawable(pages[i].view) && ReadDocument(file)[i] == RoundedShapes(Shapes(pages[i]))
  }

  lemma {:induction false} PageRead(file: string, n: nat, i: nat)
    requires PageIds(file) == KidIds(n) && i < n
    ensures i < |ReadDocument(file)| && ReadDocument(file)[i] == Painted(ContentOf(file, 3 + 2 * i))
  {
    assert PageIds(file)[i] == KidIds(n)[i];
  }

  lemma {:induction false} PagesPainted(file: string, pages: seq<Page>, objects: seq<string>)
    requires AllDrawable(pages, |pages|) && ObjectsFor(pages, objects)
    requires AllFound(file, objects) && Catalog(file) == 1
    ensures ShowsPages(file, pages)
  {
    PagesFound(file, pages, objects);
    forall i | 0 <= i < |pages|
      ensures Drawable(pages[i].view) && ReadDocument(file)[i] == RoundedShapes(Shapes(pages[i]))
    {
      PagePainted(file, pages, objects, i);
      PageRead(file, |pages|, i);
    }
  }

  /**
    * For every accepted list of pages, short of ten-digit offsets: reading the file gives back the
    * pages, each with its primitives in order and every number to three decimals.
    */
  lemma {:induction false} DocumentReadsBack(pages: seq<Page>, objects: seq<string>)
    requires AllDrawable(pages, |pages|) && ObjectsFor(pages, objects)
    requires Offset(objects, |objects| + 1) < Pow10(10)
    ensures ShowsPages(FileText(objects), pages)
  {
    TableFindsAll(objects);
    CatalogFound(objects);
    PagesPainted(FileText(objects), pages, objects);
  }

  lemma {:induction false} Halves(k: nat) returns (i: nat)
    requires k >= 2
    ensures k == 2 + 2 * i || k == 3 + 2 * i
  {
    i := (k - 2) / 2;
  }

  lemma {:induction false} KidInRange(n: nat, r: nat)
    requires r in KidIds(n)
    ensures 1 <= r <= 2 + 2 * n
  {
    var i :| 0 <= i < n && KidIds(n)[i] == r;
  }

  lemma {:induction false} CatalogInRange(pages: seq<Page>, objects: seq<string>, r: nat)
    requires AllDrawable(pages, |pages|) && ObjectsFor(pages, objects) && r in Refs(objects[0])
    ensures 1 <= r <= |objects|
  {
    HeadRefs(pages, objects);
    assert Refs(objects[0]) == [2];
  }

  lemma {:induction false} TreeInRange(pages: seq<Page>, objects: seq<string>, r: nat)
    requires AllDrawable(pages, |pages|) && ObjectsFor(pages, objects) && r in Refs(objects[1])
    ensures 1 <= r <= |objects|
  {
    HeadRefs(pages, objects);
    KidInRange(|pages|, r);
  }

  lemma {:induction false} PageInRange(refs: seq<nat>, count: nat, i: nat, r: nat)
    requires refs == [2, 4 + 2 * i] || refs == []
    requires 4 + 2 * i <= count && r in refs
    ensures 1 <= r <= count
  {
  }

  lemma {:induction false} PageRefInRange(pages: seq<Page>, objects: seq<string>, i: nat, k: nat, r: nat)
    requires AllDrawable(pages, |pages|) && ObjectsFor(pages, objects) && i < |pages|
    requires (k == 2 + 2 * i || k == 3 + 2 * i) && r in Refs(objects[k])
    ensures 1 <= r <= |objects|
  {
    if k == 2 + 2 * i {
      LeafOfPage(pages, objects, i);
    } else {
      StreamOfPage(pages, objects, i);
    }
    PageInRange(Refs(objects[k]), |objects|, i, r);
  }

  lemma {:induction false} RefInRange(pages: seq<Page>, objects: seq<string>, k: nat, r: nat)
    requires AllDrawable(pages, |pages|) && ObjectsFor(pages, objects)
    requires k < |objects| && r in Refs(objects[k])
    ensures 1 <= r <= |objects|
  {
    if k == 0 {
      CatalogInRange(pages, objects, r);
    } else if k == 1 {
      TreeInRange(pages, objects, r);
    } else {
      var i := Halves(k);
      PageRefInRange(pages, objects, i, k, r);
    }
  }

  /** Every reference in an object of the file, or in the trailer, names an object that is found there. */
  lemma {:induction false} ReferencesResolve(pages: seq<Page>, objects: seq<string>, k: nat, r: nat)
    requires AllDrawable(pages, |pages|) && ObjectsFor(pages, objects)
    requires Offset(objects, |objects| + 1) < Pow10(10)
    requires if k < |objects| then r in Refs(objects[k]) else r in Refs(TrailerDict(|objects|))
    ensures 1 <= r <= |objects| && Finds(FileText(objects), r, objects[r - 1])
  {
    if k < |objects| {
      RefInRange(pages, objects, k, r);
    } else {
      TrailerRefs(|objects|);
    }
    TableIsExact(objects, r);
  }
}
