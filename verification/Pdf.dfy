/**
  * The PDF file: numbered objects, the cross-reference table that gives their positions, and the trailer
  * that gives the position of the table.
  */
module Pdf {
  import opened Sequences
  import opened Decimals
  import opened PageContent

  const HEADER: string := "%PDF-1.7\n%\U{E2}\U{E3}\U{CF}\U{D3}\n"
  const FREE_ENTRY: string := "0000000000 65535 f \n"

  // ----- Objects -----

  const CATALOG: string := "<< /Type /Catalog /Pages 2 0 R >>\n"

  function KidsText(n: nat): string {
    if n == 0 then "" else KidsText(n - 1) + Digits(2 * n + 1) + " 0 R "
  }

  function TreeText(n: nat): string {
    "<< /Type /Pages /Count " + Digits(n) + " /Kids [ " + KidsText(n) + "] >>\n"
  }

  function AtLeastOne(n: nat): nat {
    if n < 1 then 1 else n
  }

  function LeafText(page: Page, contents: nat): string {
    "<< /Type /Page /Parent 2 0 R /MediaBox [0 0 " + Digits(AtLeastOne(page.width)) + " "
    + Digits(AtLeastOne(page.height)) + "] /Resources << >> /Contents " + Digits(contents) + " 0 R >>\n"
  }

  function StreamText(content: string): string {
    "<< /Length " + Digits(|content|) + " >>\nstream\n" + content + "endstream\n"
  }

  ghost predicate AllDrawable(pages: seq<Page>, n: nat)
    requires n <= |pages|
  {
    n == 0 || (AllDrawable(pages, n - 1) && Drawable(pages[n - 1].view))
  }

  lemma {:induction false} EachDrawable(pages: seq<Page>, n: nat, i: nat)
    requires i <= n <= |pages| && AllDrawable(pages, n)
    ensures AllDrawable(pages, i) && (i < n ==> Drawable(pages[i].view))
    decreases n
  {
    if i < n {
      EachDrawable(pages, n - 1, i);
    }
  }

  /** The page dictionaries; objects count from 1, and each page's content follows its dictionary. */
  ghost function Leaves(pages: seq<Page>, n: nat): (r: seq<string>)
    requires n <= |pages|
    ensures |r| == n
  {
    if n == 0 then [] else Leaves(pages, n - 1) + [LeafText(pages[n - 1], 2 * n + 2)]
  }

  ghost function Contents(pages: seq<Page>, n: nat): (r: seq<string>)
    requires n <= |pages| && AllDrawable(pages, n)
    ensures |r| == n
  {
    if n == 0 then [] else Contents(pages, n - 1) + [PageText(pages[n - 1])]
  }

  lemma {:induction false} LeafAt(pages: seq<Page>, n: nat, i: nat)
    requires i < n <= |pages|
    ensures Leaves(pages, n)[i] == LeafText(pages[i], 4 + 2 * i)
    decreases n
  {
    LastOrBefore(Leaves(pages, n - 1), LeafText(pages[n - 1], 2 * n + 2), i);
    if i < n - 1 {
      LeafAt(pages, n - 1, i);
    } else {
      SameLeaf(pages[i], 2 * n + 2, 4 + 2 * i);
    }
  }

  lemma {:induction false} SameLeaf(page: Page, j: nat, k: nat)
    requires j == k
    ensures LeafText(page, j) == LeafText(page, k)
  {
  }

  lemma {:induction false} ContentAt(pages: seq<Page>, n: nat, i: nat)
    requires i < n <= |pages| && AllDrawable(pages, n) && Drawable(pages[i].view)
    ensures Contents(pages, n)[i] == PageText(pages[i])
    decreases n
  {
    if i < n - 1 {
      ContentAt(pages, n - 1, i);
    }
  }

  lemma {:induction false} LastOrBefore(s: seq<string>, x: string, i: nat)
    requires i <= |s|
    ensures (s + [x])[i] == if i < |s| then s[i] else x
  {
  }

  /** After two other objects, dictionaries and contents in turn. */
  ghost predicate InTurn(objects: seq<string>, leaves: seq<string>, contents: seq<string>) {
    && |leaves| == |contents| && 2 + 2 * |leaves| <= |objects|
    && (forall i {:trigger leaves[i]} :: 0 <= i < |leaves| ==> objects[2 + 2 * i] == leaves[i])
    && (forall i {:trigger contents[i]} :: 0 <= i < |contents| ==> objects[3 + 2 * i] == StreamText(contents[i]))
  }

  /** The catalog, the page tree, and for each page its dictionary and its content. */
  ghost predicate ObjectsFor(pages: seq<Page>, objects: seq<string>)
    requires AllDrawable(pages, |pages|)
  {
    && |objects| == 2 + 2 * |pages|
    && objects[0] == CATALOG && objects[1] == TreeText(|pages|)
    && InTurn(objects, Leaves(pages, |pages|), Contents(pages, |pages|))
  }

  /** Page `i` (the messages count from 1) is the first that cannot be drawn, and gives the message. */
  ghost predicate BadPage(pages: seq<Page>, i: nat, err: string) {
    && i < |pages| && AllDrawable(pages, i) && pages[i].view.View?
    && exists fault {:trigger FirstFault(pages[i].view, fault)} ::
         FirstFault(pages[i].view, fault) && err == FaultText(fault, i + 1)
  }

  ghost predicate FirstBadPage(pages: seq<Page>, err: string) {
    exists i: nat {:trigger BadPage(pages, i, err)} :: BadPage(pages, i, err)
  }

  method LeafFor(page: Page, contentId: nat) returns (leaf: string)
    ensures leaf == LeafText(page, contentId)
  {
    var width := AtLeastOne(page.width);
    var height := AtLeastOne(page.height);
    leaf := "<< /Type /Page /Parent 2 0 R /MediaBox [0 0 " + Digits(width) + " "
            + Digits(height) + "] /Resources << >> /Contents " + Digits(contentId) + " 0 R >>\n";
  }

  lemma {:induction false} OnePageMore(pages: seq<Page>, i: nat)
    requires i < |pages| && AllDrawable(pages, i) && Drawable(pages[i].view)
    ensures AllDrawable(pages, i + 1)
    ensures Leaves(pages, i + 1) == Leaves(pages, i) + [LeafText(pages[i], 4 + 2 * i)]
    ensures Contents(pages, i + 1) == Contents(pages, i) + [PageText(pages[i])]
  {
  }

  lemma {:induction false} PageIsBad(pages: seq<Page>, i: nat, fault: Fault)
    requires i < |pages| && AllDrawable(pages, i) && !Drawable(pages[i].view)
    requires pages[i].view.View? && FirstFault(pages[i].view, fault)
    ensures !AllDrawable(pages, i + 1) && BadPage(pages, i, FaultText(fault, i + 1))
  {
  }

  /** One page of the first loop of `emit_pdf`. */
  method BuildPage(pages: seq<Page>, i: nat, contentId: nat) returns (fault: Fault, leaf: string, content: string)
    requires i < |pages| && AllDrawable(pages, i) && contentId == 4 + 2 * i
    ensures fault.NoFault? <==> AllDrawable(pages, i + 1)
    ensures fault.NoFault? ==>
      && Leaves(pages, i + 1) == Leaves(pages, i) + [leaf]
      && Contents(pages, i + 1) == Contents(pages, i) + [content]
    ensures !fault.NoFault? ==> BadPage(pages, i, FaultText(fault, i + 1))
  {
    leaf := LeafFor(pages[i], contentId);
    fault, content := ContentForPage(pages[i]);
    if fault.NoFault? {
      OnePageMore(pages, i);
    } else {
      PageIsBad(pages, i, fault);
    }
  }

  lemma {:induction false} InTurnMore(objects: seq<string>, leaves: seq<string>, contents: seq<string>,
                                      leaf: string, content: string)
    requires InTurn(objects, leaves, contents) && 4 + 2 * |leaves| <= |objects|
    ensures InTurn(objects[2 + 2 * |leaves| := leaf][3 + 2 * |leaves| := StreamText(content)],
                   leaves + [leaf], contents + [content])
  {
  }

  /** What the first loop has done after `i` pages. */
  ghost predicate Built(pages: seq<Page>, i: nat, objects: seq<string>, kids: string) {
    && i <= |pages| && AllDrawable(pages, i) && |objects| == 2 + 2 * |pages|
    && InTurn(objects, Leaves(pages, i), Contents(pages, i)) && kids == KidsText(i)
  }

  /** The first loop of `emit_pdf`: every page's two objects, in the places kept for them. */
  method BuildPages(pages: seq<Page>) returns (ok: bool, err: string, objects: seq<string>, kids: string)
    ensures ok <==> AllDrawable(pages, |pages|)
    ensures !ok ==> FirstBadPage(pages, err)
    ensures ok ==>
      && |objects| == 2 + 2 * |pages| && kids == KidsText(|pages|)
      && InTurn(objects, Leaves(pages, |pages|), Contents(pages, |pages|))
  {
    ok, err, kids := true, "", "";
    objects := seq(2 + 2 * |pages|, _ => "");
    var i: nat := 0;
    while i != |pages|
      invariant Built(pages, i, objects, kids)
      decreases |pages| - i
    {
      ok, err, objects, kids := BuildNext(pages, i, objects, kids);
      if !ok {
        return;
      }
      i := i + 1;
    }
    ok := true;
  }

  method AddKid(was: string, ghost i: nat, pageId: nat) returns (kids: string)
    requires was == KidsText(i) && pageId == 2 * i + 3
    ensures kids == KidsText(i + 1)
  {
    kids := was + Digits(pageId) + " 0 R ";
  }

  lemma {:induction false} BuiltMore(pages: seq<Page>, i: nat, was: seq<string>, kidsWas: string, kids: string,
                                     leaf: string, content: string)
    requires i < |pages| && Built(pages, i, was, kidsWas) && AllDrawable(pages, i + 1)
    requires kids == KidsText(i + 1)
    requires Leaves(pages, i + 1) == Leaves(pages, i) + [leaf]
    requires Contents(pages, i + 1) == Contents(pages, i) + [content]
    ensures Built(pages, i + 1, was[2 + 2 * i := leaf][3 + 2 * i := StreamText(content)], kids)
  {
    InTurnMore(was, Leaves(pages, i), Contents(pages, i), leaf, content);
  }

  /** The body of that loop. */
  method BuildNext(pages: seq<Page>, i: nat, was: seq<string>, kidsWas: string)
    returns (ok: bool, err: string, objects: seq<string>, kids: string)
    requires i < |pages| && Built(pages, i, was, kidsWas)
    ensures ok ==> Built(pages, i + 1, objects, kids)
    ensures !ok ==> !AllDrawable(pages, |pages|) && BadPage(pages, i, err)
  {
    var pageId := 3 + i * 2;
    var contentId := pageId + 1;
    kids := AddKid(kidsWas, i, pageId);
    var fault, leaf, content := BuildPage(pages, i, contentId);
    if !fault.NoFault? {
      SomeBadPage(pages, i);
      return false, FaultText(fault, i + 1), was, kids;
    }
    BuiltMore(pages, i, was, kidsWas, kids, leaf, content);
    objects := Store(was, i, leaf, content);
    return true, "", objects, kids;
  }

  /** The two objects of page `i`, in their places. */
  method Store(was: seq<string>, i: nat, leaf: string, content: string) returns (objects: seq<string>)
    requires 4 + 2 * i <= |was|
    ensures objects == was[2 + 2 * i := leaf][3 + 2 * i := StreamText(content)]
  {
    var pageId := 3 + i * 2;
    var contentId := pageId + 1;
    objects := was[pageId - 1 := leaf];
    objects := objects[contentId - 1 := StreamText(content)];
  }

  lemma {:induction false} SomeBadPage(pages: seq<Page>, i: nat)
    requires i < |pages| && !AllDrawable(pages, i + 1)
    ensures !AllDrawable(pages, |pages|)
  {
    if AllDrawable(pages, |pages|) {
      EachDrawable(pages, |pages|, i + 1);
    }
  }

  lemma {:induction false} HeadStays(objects: seq<string>, leaves: seq<string>, contents: seq<string>,
                                     a: string, b: string)
    requires InTurn(objects, leaves, contents)
    ensures InTurn(objects[0 := a][1 := b], leaves, contents)
  {
  }

  /** All objects: the pages', then the catalog and the page tree before them. */
  method BuildObjects(pages: seq<Page>) returns (ok: bool, err: string, objects: seq<string>)
    ensures ok <==> AllDrawable(pages, |pages|)
    ensures !ok ==> FirstBadPage(pages, err)
    ensures ok ==> ObjectsFor(pages, objects)
  {
    var kids;
    ok, err, objects, kids := BuildPages(pages);
    if !ok {
      return;
    }
    var tree := "<< /Type /Pages /Count " + Digits(|pages|) + " /Kids [ " + kids + "] >>\n";
    HeadStays(objects, Leaves(pages, |pages|), Contents(pages, |pages|), CATALOG, tree);
    objects := objects[0 := CATALOG];
    objects := objects[1 := tree];
  }

  // ----- The file -----

  function Framed(k: nat, text: string): string {
    Digits(k) + " 0 obj\n" + text + "endobj\n"
  }

  /** The first `n` objects, numbered from 1. */
  function Body(objects: seq<string>, n: nat): string
    requires n <= |objects|
  {
    if n == 0 then "" else Body(objects, n - 1) + Framed(n, objects[n - 1])
  }

  /** Where object `k` begins. */
  function Offset(objects: seq<string>, k: nat): nat
    requires 1 <= k <= |objects| + 1
  {
    |HEADER| + |Body(objects, k - 1)|
  }

  function EntryText(offset: nat): string {
    Padded(offset, 10) + " 00000 n \n"
  }

  function Entries(objects: seq<string>, n: nat): string
    requires n <= |objects|
  {
    if n == 0 then FREE_ENTRY else Entries(objects, n - 1) + EntryText(Offset(objects, n))
  }

  function TableHead(n: nat): string {
    "xref\n0 " + Digits(n + 1) + "\n"
  }

  function TrailerText(n: nat): string {
    "trailer\n<< /Size " + Digits(n + 1) + " /Root 1 0 R >>\nstartxref\n"
  }

  function FileText(objects: seq<string>): string {
    var n := |objects|;
    HEADER + Body(objects, n) + TableHead(n) + Entries(objects, n) + TrailerText(n)
    + Digits(Offset(objects, n + 1)) + "\n%%EOF\n"
  }

  ghost predicate Positions(objects: seq<string>, offsets: seq<nat>) {
    && 0 < |offsets| <= |objects| + 1
    && forall k {:trigger offsets[k]} :: 1 <= k < |offsets| ==> offsets[k] == Offset(objects, k)
  }

  lemma {:induction false} PositionsMore(objects: seq<string>, offsets: seq<nat>, next: nat)
    requires Positions(objects, offsets) && |offsets| <= |objects| && next == Offset(objects, |offsets|)
    ensures Positions(objects, offsets + [next])
  {
  }

  /** The object loop: `tellp` is the length written so far. */
  method WriteBody(objects: seq<string>) returns (out: string, offsets: seq<nat>)
    ensures out == HEADER + Body(objects, |objects|)
    ensures |offsets| == |objects| + 1 && Positions(objects, offsets)
  {
    out := HEADER;
    offsets := [0];
    var i: nat := 0;
    NothingYet(objects);
    while i != |objects|
      invariant BodyTo(objects, i, out, offsets)
      decreases |objects| - i
    {
      out, offsets := WriteObject(objects, i, out, offsets);
      i := i + 1;
    }
  }

  /** What the object loop has done after `i` objects. */
  ghost predicate BodyTo(objects: seq<string>, i: nat, out: string, offsets: seq<nat>) {
    i <= |objects| && out == HEADER + Body(objects, i) && |offsets| == i + 1 && Positions(objects, offsets)
  }

  lemma {:induction false} NothingYet(objects: seq<string>)
    ensures BodyTo(objects, 0, HEADER, [0])
  {
    assert HEADER + "" == HEADER;
  }

  method WriteObject(objects: seq<string>, i: nat, was: string, offsetsWas: seq<nat>)
    returns (out: string, offsets: seq<nat>)
    requires i < |objects| && BodyTo(objects, i, was, offsetsWas)
    ensures BodyTo(objects, i + 1, out, offsets)
  {
    PositionsMore(objects, offsetsWas, |was|);
    offsets := offsetsWas + [|was|];
    BodyGrows(was, objects, i);
    out := was + Digits(i + 1) + " 0 obj\n" + objects[i] + "endobj\n";
  }

  /** The loop over the table's entries. */
  method WriteEntries(head: string, ghost objects: seq<string>, offsets: seq<nat>) returns (out: string)
    requires |offsets| == |objects| + 1 && Positions(objects, offsets)
    ensures out == head + Entries(objects, |objects|)
  {
    out := head + FREE_ENTRY;
    var i := 1;
    while i != |offsets|
      invariant 1 <= i <= |offsets| && out == head + Entries(objects, i - 1)
      decreases |offsets| - i
    {
      EntriesGrow(head, objects, i);
      out := out + (Padded(offsets[i], 10) + " 00000 n \n");
      i := i + 1;
    }
  }

  /** The second half of `emit_pdf`. */
  method WriteFile(objects: seq<string>) returns (out: string)
    ensures out == FileText(objects)
  {
    var offsets;
    out, offsets := WriteBody(objects);
    var xref := |out|;
    out := out + "xref\n0 " + Digits(|offsets|) + "\n";
    out := WriteEntries(out, objects, offsets);
    out := out + "trailer\n<< /Size " + Digits(|offsets|) + " /Root 1 0 R >>\nstartxref\n" + Digits(xref) + "\n%%EOF\n";
    Ending(HEADER + Body(objects, |objects|), |objects|, Entries(objects, |objects|), Digits(xref));
  }

  lemma {:induction false} BodyGrows(out: string, objects: seq<string>, i: nat)
    requires i < |objects| && out == HEADER + Body(objects, i)
    ensures out + Digits(i + 1) + " 0 obj\n" + objects[i] + "endobj\n" == HEADER + Body(objects, i + 1)
  {
    Assoc5(HEADER + Body(objects, i), Digits(i + 1), " 0 obj\n", objects[i], "endobj\n");
    Assoc(HEADER, Body(objects, i), Framed(i + 1, objects[i]));
  }

  lemma {:induction false} EntriesGrow(head: string, objects: seq<string>, i: nat)
    requires 1 <= i <= |objects|
    ensures head + Entries(objects, i - 1) + EntryText(Offset(objects, i)) == head + Entries(objects, i)
  {
    Assoc(head, Entries(objects, i - 1), EntryText(Offset(objects, i)));
  }

  lemma {:induction false} Ending(before: string, n: nat, entries: string, xref: string)
    ensures before + "xref\n0 " + Digits(n + 1) + "\n" + entries
            + "trailer\n<< /Size " + Digits(n + 1) + " /Root 1 0 R >>\nstartxref\n" + xref + "\n%%EOF\n"
         == before + TableHead(n) + entries + TrailerText(n) + xref + "\n%%EOF\n"
  {
    var d := Digits(n + 1);
    Assoc4(before, "xref\n0 ", d, "\n");
    Assoc4(before + TableHead(n) + entries, "trailer\n<< /Size ", d, " /Root 1 0 R >>\nstartxref\n");
  }

  /** `emit_pdf`, with the bytes of the file as a result. A refused call writes no file. */
  method EmitPdf(path: string, pages: seq<Page>)
    returns (ok: bool, err: string, file: string, ghost objects: seq<string>)
    ensures ok <==> path != "" && pages != [] && AllDrawable(pages, |pages|)
    ensures path == "" ==> err == "pdf output path empty"
    ensures path != "" && pages == [] ==> err == "no pdf pages supplied"
    ensures !ok && path != "" && pages != [] ==> FirstBadPage(pages, err)
    ensures !ok ==> file == ""
    ensures ok ==>
      err == "" && ObjectsFor(pages, objects) && file == FileText(objects)
  {
    ok, err, file, objects := false, "", "", [];
    if path == "" {
      err := "pdf output path empty";
      return;
    }
    if pages == [] {
      err := "no pdf pages supplied";
      return;
    }
    var built;
    ok, err, built := BuildObjects(pages);
    if !ok {
      return;
    }
    err := "";
    objects := built;
    file := WriteFile(built);
  }
}
