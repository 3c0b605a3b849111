/**
  * References "n 0 R" in dictionaries: which objects a text refers to, and that the catalog, the page
  * tree, the page dictionaries and the trailer are lines that refer to what they should.
  */
module References {
  import opened Sequences
  import opened Decimals
  import opened Words
  import opened PageContent
  import opened Pdf

  /** The object numbers of the references "n 0 R" in a line of words, in order. */
  function RefsOf(words: seq<string>): seq<nat> {
    var n := |words|;
    if n < 3 then []
    else
      RefsOf(words[..n - 1])
      + if words[n - 1] == "R" && words[n - 2] == "0" then [ReadNat(words[n - 3])] else []
  }

  /** White space, as section 7.2.2 of ISO 32000-1 has it. */
  predicate Blank(c: char) {
    c == ' ' || c == '\n' || c == '\r' || c == '\t' || c == '\0' || c as int == 12
  }

  /** Every white space character a space. */
  function Unlined(s: string): (r: string)
    ensures |r| == |s|
    ensures forall i {:trigger r[i]} :: 0 <= i < |s| ==> r[i] == if Blank(s[i]) then ' ' else s[i]
  {
    seq(|s|, i requires 0 <= i < |s| => if Blank(s[i]) then ' ' else s[i])
  }

  /** The references of a text, whatever white space stands between its words. */
  function Refs(text: string): seq<nat> {
    RefsOf(Split(Unlined(text), ' '))
  }

  function Spaced(words: seq<string>): string {
    if words == [] then "" else words[0] + " " + Spaced(words[1..])
  }

  ghost predicate IsWord(s: string) {
    forall i {:trigger s[i]} :: 0 <= i < |s| ==> !Blank(s[i])
  }

  ghost predicate Plain(words: seq<string>) {
    forall i {:trigger words[i]} :: 0 <= i < |words| ==> IsWord(words[i])
  }

  ghost predicate NoMark(words: seq<string>) {
    forall i {:trigger words[i]} :: 0 <= i < |words| ==> words[i] != "R"
  }

  lemma {:induction false} RefsUnmarked(words: seq<string>, more: seq<string>)
    requires NoMark(more)
    ensures RefsOf(words + more) == RefsOf(words)
    decreases |more|
  {
    if more == [] {
      assert words + more == words;
    } else {
      var n := |more| - 1;
      RefsUnmarked(words, more[..n]);
      assert (words + more)[..|words| + n] == words + more[..n];
      assert (words + more)[|words| + n] == more[n];
      if |words + more| < 3 && |words| > 0 {
        assert RefsOf(words) == [];
      }
    }
  }

  lemma {:induction false} RefsMarked(words: seq<string>, d: string)
    requires d != "R"
    ensures RefsOf(words + [d, "0", "R"]) == RefsOf(words) + [ReadNat(d)]
  {
    RefsUnmarked(words, [d, "0"]);
    var all := words + [d, "0", "R"];
    assert all[..|all| - 1] == words + [d, "0"];
    assert all[|all| - 1] == "R" && all[|all| - 2] == "0" && all[|all| - 3] == d;
  }

  lemma {:induction false} SpacedOne(w: string, words: seq<string>)
    ensures Spaced([w] + words) == w + " " + Spaced(words)
  {
    assert ([w] + words)[1..] == words;
  }

  lemma {:induction false} Spaced1(a: string)
    ensures Spaced([a]) == a + " "
  {
    SpacedOne(a, []);
    assert [a] + [] == [a];
  }

  lemma {:induction false} Spaced3(a: string, b: string, c: string)
    ensures Spaced([a, b, c]) == a + " " + b + " " + c + " "
  {
    Spaced1(c);
    SpacedOne(b, [c]);
    SpacedOne(a, [b, c]);
    assert [b] + [c] == [b, c] && [a] + [b, c] == [a, b, c];
  }

  lemma {:induction false} SpacedJoin(a: seq<string>, b: seq<string>)
    ensures Spaced(a + b) == Spaced(a) + Spaced(b)
    decreases |a|
  {
    if a == [] {
      assert a + b == b;
    } else {
      assert (a + b)[1..] == a[1..] + b;
      SpacedJoin(a[1..], b);
    }
  }

  lemma {:induction false} SpacedSnoc(words: seq<string>, w: string)
    ensures Spaced(words + [w]) == Spaced(words) + (w + " ")
  {
    SpacedJoin(words, [w]);
    Spaced1(w);
  }

  lemma {:induction false} SplitOneMore(s: string, words: seq<string>, w: string)
    requires Split(s, ' ') == words + [""] && ' ' !in w
    ensures Split(s + (w + " "), ' ') == words + [w] + [""]
  {
    SplitWord(s, w, ' ');
    SplitChar(s + w, ' ', ' ');
    assert s + (w + " ") == s + w + [' '];
    assert "" + w == w;
    assert ExtendLast(words + [""], w) == words + [w];
  }

  lemma {:induction false} SplitSpaced(words: seq<string>)
    requires Plain(words)
    ensures Split(Spaced(words), ' ') == words + [""]
    decreases |words|
  {
    if words != [] {
      var init, w := words[..|words| - 1], words[|words| - 1];
      SplitSpaced(init);
      SpacedSnoc(init, w);
      SplitOneMore(Spaced(init), init, w);
      assert init + [w] == words;
    }
  }

  lemma {:induction false} UnlinedJoin(s: string, t: string)
    ensures Unlined(s + t) == Unlined(s) + Unlined(t)
  {
  }

  lemma {:induction false} UnlinedWord(w: string)
    requires IsWord(w)
    ensures Unlined(w) == w
  {
    forall i | 0 <= i < |w|
      ensures Unlined(w)[i] == w[i]
    {
      assert !Blank(w[i]);
    }
  }

  lemma {:induction false} UnlinedSpaced(words: seq<string>)
    requires Plain(words)
    ensures Unlined(Spaced(words)) == Spaced(words)
    decreases |words|
  {
    if words != [] {
      var rest := words[1..];
      assert forall i {:trigger rest[i]} :: 0 <= i < |rest| ==> rest[i] == words[i + 1];
      UnlinedSpaced(rest);
      UnlinedWord(words[0]);
      assert Unlined(" ") == " ";
      UnlinedJoin(words[0], " ");
      UnlinedJoin(words[0] + " ", Spaced(rest));
    } else {
      assert Unlined("") == "";
    }
  }

  lemma {:induction false} EndIsWord(words: seq<string>)
    requires Plain(words)
    ensures Plain(words + [">>"]) && Unlined(">>\n") == ">>" + " "
  {
  }

  /** The references of a dictionary of words, each followed by a space. */
  lemma {:induction false} RefsOfSpaced(words: seq<string>)
    requires Plain(words)
    ensures Refs(Spaced(words) + ">>\n") == RefsOf(words)
  {
    EndIsWord(words);
    UnlinedJoin(Spaced(words), ">>\n");
    UnlinedSpaced(words);
    SpacedSnoc(words, ">>");
    SplitSpaced(words + [">>"]);
    assert words + [">>"] + [""] == words + [">>", ""];
    RefsUnmarked(words, [">>", ""]);
  }

  lemma {:induction false} NoBreak(words: seq<string>)
    requires Plain(words)
    ensures '\n' !in Spaced(words)
    decreases |words|
  {
    if words != [] {
      var rest := words[1..];
      assert forall i {:trigger rest[i]} :: 0 <= i < |rest| ==> rest[i] == words[i + 1];
      NoBreak(rest);
    }
  }

  /** A dictionary of words is one line. */
  lemma {:induction false} DictionaryIsLine(words: seq<string>)
    requires Plain(words)
    ensures OneLine(Spaced(words) + ">>\n")
  {
    NoBreak(words);
    var text := Spaced(words) + ">>\n";
    assert text[..|text| - 1] == Spaced(words) + ">>";
  }

  lemma {:induction false} DigitsAreWord(n: nat)
    ensures IsWord(Digits(n)) && Digits(n) != "R"
  {
    assert IsDigit(Digits(n)[0]);
  }

  // ----- The objects of a document -----

  /** The catalog refers to the page tree. */
  lemma {:induction false} CatalogRefs()
    ensures Refs(CATALOG) == [2] && OneLine(CATALOG)
  {
    var words := ["<<", "/Type", "/Catalog", "/Pages"] + ["2", "0", "R"];
    CatalogWords();
    CatalogWordRefs();
    RefsOfSpaced(words);
    DictionaryIsLine(words);
  }

  lemma {:induction false} CatalogWordRefs()
    ensures var words := ["<<", "/Type", "/Catalog", "/Pages"] + ["2", "0", "R"];
            Plain(words) && RefsOf(words) == [2]
  {
    var w := ["<<", "/Type", "/Catalog", "/Pages"];
    PlainJoin(w, ["2", "0", "R"]);
    RefsUnmarked([], w);
    assert [] + w == w;
    RefsMarked(w, "2");
    TwoReads();
  }

  lemma {:induction false} TwoReads()
    ensures ReadNat("2") == 2 && ReadNat("1") == 1
  {
    ReadMore("", '2');
    ReadMore("", '1');
    assert "" + ['2'] == "2" && "" + ['1'] == "1";
  }

  lemma {:induction false} Spaced4(a: string, b: string, c: string, d: string)
    ensures Spaced([a, b, c, d]) == a + " " + b + " " + c + " " + (d + " ")
  {
    Spaced3(a, b, c);
    SpacedSnoc([a, b, c], d);
    assert [a, b, c] + [d] == [a, b, c, d];
  }

  lemma {:induction false} ReferenceWords(d: string)
    ensures Spaced([d, "0", "R"]) == d + " 0 R "
  {
    Spaced3(d, "0", "R");
    assert " 0 R " == " " + "0" + " " + "R" + " ";
    Assoc4(d, " " + "0", " " + "R", " ");
    assert d + " " + "0" + " " + "R" + " " == d + (" " + "0" + " " + "R" + " ");
  }

  lemma {:induction false} CatalogPieces()
    ensures CATALOG == "<< /Type " + "/Catalog /Pages " + "2 0 R " + ">>\n"
  {
  }

  lemma {:induction false} CatalogStart()
    ensures "<< /Type " + "/Catalog /Pages " == "<<" + " " + "/Type" + " " + "/Catalog" + " " + ("/Pages" + " ")
  {
  }

  lemma {:induction false} CatalogWords()
    ensures CATALOG == Spaced(["<<", "/Type", "/Catalog", "/Pages"] + ["2", "0", "R"]) + ">>\n"
  {
    CatalogPieces();
    CatalogStart();
    Spaced4("<<", "/Type", "/Catalog", "/Pages");
    ReferenceWords("2");
    SpacedJoin(["<<", "/Type", "/Catalog", "/Pages"], ["2", "0", "R"]);
    assert "2 0 R " == "2" + " 0 R ";
  }

  // ----- Page tree -----

  function KidWords(n: nat): seq<string> {
    if n == 0 then [] else KidWords(n - 1) + [Digits(2 * n + 1), "0", "R"]
  }

  /** The object numbers of the page dictionaries. */
  function KidIds(n: nat): (ids: seq<nat>)
    ensures |ids| == n && forall i {:trigger ids[i]} :: 0 <= i < n ==> ids[i] == 3 + 2 * i
  {
    if n == 0 then [] else KidIds(n - 1) + [2 * n + 1]
  }

  lemma {:induction false} KidsSpaced(n: nat)
    ensures KidsText(n) == Spaced(KidWords(n)) && Plain(KidWords(n))
  {
    if n > 0 {
      var d := Digits(2 * n + 1);
      KidsSpaced(n - 1);
      DigitsAreWord(2 * n + 1);
      ReferenceWords(d);
      SpacedJoin(KidWords(n - 1), [d, "0", "R"]);
      Assoc(KidsText(n - 1), d, " 0 R ");
      PlainThree(KidWords(n - 1), d, "0", "R");
    }
  }

  lemma {:induction false} PlainThree(words: seq<string>, a: string, b: string, c: string)
    requires Plain(words) && IsWord(a) && IsWord(b) && IsWord(c)
    ensures Plain(words + [a, b, c])
  {
  }

  lemma {:induction false} PlainJoin(a: seq<string>, b: seq<string>)
    requires Plain(a) && Plain(b)
    ensures Plain(a + b)
  {
  }

  lemma {:induction false} KidsRefs(words: seq<string>, n: nat)
    ensures RefsOf(words + KidWords(n)) == RefsOf(words) + KidIds(n)
  {
    if n == 0 {
      assert words + KidWords(n) == words;
    } else {
      var d := Digits(2 * n + 1);
      KidsRefs(words, n - 1);
      DigitsAreWord(2 * n + 1);
      ReadDigits(2 * n + 1);
      OneMoreKid(words, KidWords(n - 1), d, KidIds(n - 1));
    }
  }

  lemma {:induction false} OneMoreKid(words: seq<string>, kids: seq<string>, d: string, ids: seq<nat>)
    requires RefsOf(words + kids) == RefsOf(words) + ids && d != "R"
    ensures RefsOf(words + (kids + [d, "0", "R"])) == RefsOf(words) + (ids + [ReadNat(d)])
  {
    RefsMarked(words + kids, d);
    assert words + (kids + [d, "0", "R"]) == words + kids + [d, "0", "R"];
    assert RefsOf(words) + (ids + [ReadNat(d)]) == RefsOf(words) + ids + [ReadNat(d)];
  }

  lemma {:induction false} TreeStart()
    ensures "<< /Type /Pages /Count " == "<<" + " " + "/Type" + " " + "/Pages" + " " + ("/Count" + " ")
  {
  }

  lemma {:induction false} TreeMiddle(d: string)
    ensures Spaced([d, "/Kids", "["]) == d + " /Kids [ "
  {
    Spaced3(d, "/Kids", "[");
    assert " /Kids [ " == " " + "/Kids" + " " + "[" + " ";
    assert d + " " + "/Kids" + " " + "[" + " " == d + (" " + "/Kids" + " " + "[" + " ");
  }

  lemma {:induction false} TreeWords(n: nat)
    ensures TreeText(n)
         == Spaced(["<<", "/Type", "/Pages", "/Count"] + [Digits(n), "/Kids", "["] + KidWords(n) + ["]"]) + ">>\n"
  {
    var a, d, kids := ["<<", "/Type", "/Pages", "/Count"], Digits(n), KidWords(n);
    TreeStart();
    Spaced4("<<", "/Type", "/Pages", "/Count");
    TreeMiddle(d);
    KidsSpaced(n);
    Spaced1("]");
    SpacedJoin(a, [d, "/Kids", "["]);
    SpacedJoin(a + [d, "/Kids", "["], kids);
    SpacedJoin(a + [d, "/Kids", "["] + kids, ["]"]);
    TreeAssembled("<< /Type /Pages /Count ", d, " /Kids [ ", KidsText(n));
  }

  lemma {:induction false} TreeAssembled(a: string, d: string, b: string, kids: string)
    ensures a + d + b + kids + "] >>\n" == a + (d + b) + kids + ("]" + " ") + ">>\n"
  {
    assert "] >>\n" == "]" + " " + ">>\n";
    Assoc(a, d, b);
    Assoc(a + (d + b) + kids, "]" + " ", ">>\n");
  }

  lemma {:induction false} TreeWordsPlain(d: string, kids: seq<string>)
    requires IsWord(d) && Plain(kids)
    ensures Plain(["<<", "/Type", "/Pages", "/Count"] + [d, "/Kids", "["] + kids + ["]"])
  {
    PlainJoin(["<<", "/Type", "/Pages", "/Count"], [d, "/Kids", "["]);
    PlainJoin(["<<", "/Type", "/Pages", "/Count"] + [d, "/Kids", "["], kids);
    PlainJoin(["<<", "/Type", "/Pages", "/Count"] + [d, "/Kids", "["] + kids, ["]"]);
  }

  /** The page tree refers to the page dictionaries, in order, and to nothing else. */
  lemma {:induction false} TreeRefs(n: nat)
    ensures Refs(TreeText(n)) == KidIds(n) && OneLine(TreeText(n))
  {
    var words := ["<<", "/Type", "/Pages", "/Count"] + [Digits(n), "/Kids", "["] + KidWords(n) + ["]"];
    TreeWords(n);
    DigitsAreWord(n);
    KidsSpaced(n);
    TreeWordsPlain(Digits(n), KidWords(n));
    TreeWordRefs(Digits(n), n);
    RefsOfSpaced(words);
    DictionaryIsLine(words);
  }

  lemma {:induction false} TreeWordRefs(d: string, n: nat)
    requires d != "R"
    ensures RefsOf(["<<", "/Type", "/Pages", "/Count"] + [d, "/Kids", "["] + KidWords(n) + ["]"]) == KidIds(n)
  {
    var a, b := ["<<", "/Type", "/Pages", "/Count"], [d, "/Kids", "["];
    KidsRefs(a + b, n);
    MarkedMiddle(a, b, KidWords(n), ["]"], KidIds(n));
  }

  lemma {:induction false} MarkedMiddle(a: seq<string>, b: seq<string>, c: seq<string>, d: seq<string>, ids: seq<nat>)
    requires NoMark(a) && NoMark(b) && NoMark(d) && RefsOf(a + b + c) == RefsOf(a + b) + ids
    ensures RefsOf(a + b + c + d) == ids
  {
    RefsUnmarked([], a);
    assert [] + a == a;
    RefsUnmarked(a, b);
    RefsUnmarked(a + b + c, d);
  }

  // ----- Page dictionaries -----

  lemma {:induction false} LeafStart()
    ensures "<< /Type /Page /Parent " == "<<" + " " + "/Type" + " " + "/Page" + " " + ("/Parent" + " ")
  {
  }

  lemma {:induction false} LeafFirst()
    ensures "<< /Type /Page /Parent 2 0 R /MediaBox [0 0 "
         == "<< /Type /Page /Parent " + "2 0 R " + "/MediaBox [0 0 "
  {
  }

  lemma {:induction false} BoxWords(w: string)
    ensures Spaced(["/MediaBox", "[0", "0", w]) == "/MediaBox [0 0 " + w + " "
  {
    Spaced4("/MediaBox", "[0", "0", w);
    assert "/MediaBox [0 0 " == "/MediaBox" + " " + "[0" + " " + "0" + " ";
    Assoc("/MediaBox [0 0 ", w, " ");
  }

  lemma {:induction false} ResourceWords(h: string)
    ensures Spaced([h + "]", "/Resources", "<<", ">>"]) == h + "] /Resources << >> "
  {
    Spaced4(h + "]", "/Resources", "<<", ">>");
    assert "] /Resources << >> " == "]" + " " + "/Resources" + " " + "<<" + " " + (">>" + " ");
    assert h + "]" + " " + "/Resources" + " " + "<<" + " " + (">>" + " ")
        == h + ("]" + " " + "/Resources" + " " + "<<" + " " + (">>" + " "));
  }

  lemma {:induction false} LeafSecond()
    ensures "] /Resources << >> /Contents " == "] /Resources << >> " + "/Contents "
    ensures " 0 R >>\n" == " 0 R " + ">>\n"
    ensures "/Contents" + " " == "/Contents " && "2" + " 0 R " == "2 0 R "
  {
  }

  lemma {:induction false} LeafAssembled(a: string, b: string, c: string, w: string, h: string, e: string,
                                         f: string, k: string, g: string, t: string)
    ensures (a + b + c) + w + " " + h + (e + f) + k + (g + t)
         == a + b + (c + w + " ") + (h + e) + f + (k + g) + t
  {
    assert (a + b + c) + w + " " == a + b + (c + w + " ");
    var x := a + b + (c + w + " ");
    assert x + h + (e + f) == x + (h + e) + f;
    var y := x + (h + e) + f;
    assert y + k + (g + t) == y + (k + g) + t;
  }

  function LeafWords(w: string, h: string, k: string): seq<string> {
    ["<<", "/Type", "/Page", "/Parent"] + ["2", "0", "R"] + ["/MediaBox", "[0", "0", w]
    + [h + "]", "/Resources", "<<", ">>"] + ["/Contents"] + [k, "0", "R"]
  }

  lemma {:induction false} LeafSpaced(w: string, h: string, k: string)
    ensures Spaced(LeafWords(w, h, k))
         == "<< /Type /Page /Parent " + "2 0 R " + ("/MediaBox [0 0 " + w + " ")
            + (h + "] /Resources << >> ") + "/Contents " + (k + " 0 R ")
  {
    var p1, p2, p3 := ["<<", "/Type", "/Page", "/Parent"], ["2", "0", "R"], ["/MediaBox", "[0", "0", w];
    var p4, p5, p6 := [h + "]", "/Resources", "<<", ">>"], ["/Contents"], [k, "0", "R"];
    LeafStart();
    LeafSecond();
    Spaced4("<<", "/Type", "/Page", "/Parent");
    ReferenceWords("2");
    BoxWords(w);
    ResourceWords(h);
    Spaced1("/Contents");
    ReferenceWords(k);
    SpacedSix(p1, p2, p3, p4, p5, p6);
  }

  lemma {:induction false} SpacedSix(a: seq<string>, b: seq<string>, c: seq<string>, d: seq<string>,
                                     e: seq<string>, f: seq<string>)
    ensures Spaced(a + b + c + d + e + f)
         == Spaced(a) + Spaced(b) + Spaced(c) + Spaced(d) + Spaced(e) + Spaced(f)
  {
    SpacedJoin(a, b);
    SpacedJoin(a + b, c);
    SpacedJoin(a + b + c, d);
    SpacedJoin(a + b + c + d, e);
    SpacedJoin(a + b + c + d + e, f);
  }

  lemma {:induction false} LeafSpelled(w: string, h: string, k: string)
    ensures "<< /Type /Page /Parent 2 0 R /MediaBox [0 0 " + w + " " + h
            + "] /Resources << >> /Contents " + k + " 0 R >>\n"
         == Spaced(LeafWords(w, h, k)) + ">>\n"
  {
    LeafFirst();
    LeafSecond();
    LeafSpaced(w, h, k);
    LeafAssembled("<< /Type /Page /Parent ", "2 0 R ", "/MediaBox [0 0 ", w, h, "] /Resources << >> ",
                  "/Contents ", k, " 0 R ", ">>\n");
  }

  lemma {:induction false} LeafPlain(w: string, h: string, k: string)
    requires IsWord(w) && IsWord(h) && IsWord(k)
    ensures Plain(LeafWords(w, h, k))
  {
    var p1, p2, p3 := ["<<", "/Type", "/Page", "/Parent"], ["2", "0", "R"], ["/MediaBox", "[0", "0", w];
    var p4, p5, p6 := [h + "]", "/Resources", "<<", ">>"], ["/Contents"], [k, "0", "R"];
    PlainJoin(p1, p2);
    PlainJoin(p1 + p2, p3);
    PlainJoin(p1 + p2 + p3, p4);
    PlainJoin(p1 + p2 + p3 + p4, p5);
    PlainJoin(p1 + p2 + p3 + p4 + p5, p6);
  }

  lemma {:induction false} TwoRefs(a: seq<string>, d: string, b: seq<string>, c: seq<string>, e: seq<string>, k: string)
    requires NoMark(a) && NoMark(b) && NoMark(c) && NoMark(e) && d != "R" && k != "R"
    ensures RefsOf(a + [d, "0", "R"] + b + c + e + [k, "0", "R"]) == [ReadNat(d), ReadNat(k)]
  {
    RefsUnmarked([], a);
    assert [] + a == a;
    RefsMarked(a, d);
    RefsUnmarked(a + [d, "0", "R"], b);
    RefsUnmarked(a + [d, "0", "R"] + b, c);
    RefsUnmarked(a + [d, "0", "R"] + b + c, e);
    RefsMarked(a + [d, "0", "R"] + b + c + e, k);
  }

  lemma {:induction false} LeafWordRefs(w: string, h: string, k: string)
    requires w != "R" && h + "]" != "R" && k != "R"
    ensures RefsOf(LeafWords(w, h, k)) == [2, ReadNat(k)]
  {
    TwoReads();
    TwoRefs(["<<", "/Type", "/Page", "/Parent"], "2", ["/MediaBox", "[0", "0", w],
            [h + "]", "/Resources", "<<", ">>"], ["/Contents"], k);
  }

  /** A page dictionary refers to the page tree and to its own content. */
  lemma {:induction false} LeafRefs(page: Page, contents: nat)
    ensures Refs(LeafText(page, contents)) == [2, contents] && OneLine(LeafText(page, contents))
  {
    var w, h, k := Digits(AtLeastOne(page.width)), Digits(AtLeastOne(page.height)), Digits(contents);
    DigitsAreWord(AtLeastOne(page.width));
    DigitsAreWord(AtLeastOne(page.height));
    DigitsAreWord(contents);
    LeafSpelled(w, h, k);
    LeafPlain(w, h, k);
    assert (h + "]")[|h|] == ']';
    LeafWordRefs(w, h, k);
    ReadDigits(contents);
    RefsOfSpaced(LeafWords(w, h, k));
    DictionaryIsLine(LeafWords(w, h, k));
  }

  // ----- The trailer -----

  /** The dictionary line of the trailer. */
  function TrailerDict(n: nat): string {
    "<< /Size " + Digits(n + 1) + " /Root 1 0 R >>\n"
  }

  lemma {:induction false} TrailerLines(n: nat)
    ensures TrailerText(n) == "trailer" + "\n" + TrailerDict(n) + "startxref\n"
  {
    TrailerPieces();
    TrailerCut("trailer" + "\n", "<< /Size ", Digits(n + 1), " /Root 1 0 R >>\n", "startxref\n");
  }

  lemma {:induction false} TrailerPieces()
    ensures "trailer\n<< /Size " == "trailer" + "\n" + "<< /Size "
    ensures " /Root 1 0 R >>\nstartxref\n" == " /Root 1 0 R >>\n" + "startxref\n"
  {
  }

  lemma {:induction false} TrailerCut(a: string, b: string, d: string, e: string, f: string)
    ensures a + b + d + (e + f) == a + (b + d + e) + f
  {
  }

  lemma {:induction false} RootPieces()
    ensures "<< /Size " == "<<" + " " + "/Size" + " "
    ensures " /Root 1 0 R >>\n" == " " + ("/Root" + " ") + "1 0 R " + ">>\n"
    ensures "1" + " 0 R " == "1 0 R "
  {
  }

  lemma {:induction false} RootJoined(a: string, d: string, b: string, c: string, t: string)
    ensures a + d + (" " + b + c + t) == a + d + " " + b + c + t
  {
  }

  lemma {:induction false} TrailerWords(d: string)
    ensures "<< /Size " + d + " /Root 1 0 R >>\n"
         == Spaced(["<<", "/Size", d, "/Root"] + ["1", "0", "R"]) + ">>\n"
  {
    RootPieces();
    Spaced4("<<", "/Size", d, "/Root");
    ReferenceWords("1");
    SpacedJoin(["<<", "/Size", d, "/Root"], ["1", "0", "R"]);
    RootJoined("<< /Size ", d, "/Root" + " ", "1 0 R ", ">>\n");
  }

  lemma {:induction false} TrailerWordRefs(d: string)
    requires IsWord(d) && d != "R"
    ensures var words := ["<<", "/Size", d, "/Root"] + ["1", "0", "R"];
            Plain(words) && RefsOf(words) == [1]
  {
    var w := ["<<", "/Size", d, "/Root"];
    PlainRoot(d);
    PlainJoin(w, ["1", "0", "R"]);
    RefsUnmarked([], w);
    assert [] + w == w;
    RefsMarked(w, "1");
    TwoReads();
  }

  lemma {:induction false} PlainRoot(d: string)
    requires IsWord(d)
    ensures Plain(["<<", "/Size", d, "/Root"]) && Plain(["1", "0", "R"])
  {
  }

  /** The trailer refers to the catalog. */
  lemma {:induction false} TrailerRefs(n: nat)
    ensures Refs(TrailerDict(n)) == [1] && OneLine(TrailerDict(n))
  {
    var d := Digits(n + 1);
    TrailerWords(d);
    DigitsAreWord(n + 1);
    TrailerWordRefs(d);
    RefsOfSpaced(["<<", "/Size", d, "/Root"] + ["1", "0", "R"]);
    DictionaryIsLine(["<<", "/Size", d, "/Root"] + ["1", "0", "R"]);
  }

  // ----- Streams -----

  /** Every R is followed by a G: it belongs to the stroke colour operator. */
  ghost predicate OnlyInColor(s: string) {
    forall i {:trigger s[i]} :: 0 <= i < |s| && s[i] == 'R' ==> i + 1 < |s| && s[i + 1] == 'G'
  }

  lemma {:induction false} ColorJoin(s: string, t: string)
    requires OnlyInColor(s) && OnlyInColor(t)
    ensures OnlyInColor(s + t)
  {
    forall i | 0 <= i < |s + t| && (s + t)[i] == 'R'
      ensures i + 1 < |s + t| && (s + t)[i + 1] == 'G'
    {
      if i < |s| {
        assert s[i] == 'R' && (s + t)[i + 1] == s[i + 1];
      } else {
        assert t[i - |s|] == 'R' && (s + t)[i + 1] == t[i - |s| + 1];
      }
    }
  }

  lemma {:induction false} TokenInColor(t: Token)
    requires t.Word? ==> OnlyInColor(t.text)
    ensures OnlyInColor(Show(t))
  {
    if t.Number? {
      NumIsWord(t.value, 'R');
    }
  }

  lemma {:induction false} JoinInColor(words: seq<string>)
    requires forall j {:trigger words[j]} :: 0 <= j < |words| ==> OnlyInColor(words[j])
    ensures OnlyInColor(Join(words, ' '))
    decreases |words|
  {
    if |words| > 1 {
      var init, last := words[..|words| - 1], words[|words| - 1];
      JoinInColor(init);
      ColorJoin(Join(init, ' '), [' ']);
      ColorJoin(Join(init, ' ') + [' '], last);
    }
  }

  ghost predicate LineInColor(line: seq<Token>) {
    forall j {:trigger line[j]} :: 0 <= j < |line| ==> (line[j].Word? ==> OnlyInColor(line[j].text))
  }

  ghost predicate LinesInColor(lines: seq<seq<Token>>) {
    forall i {:trigger lines[i]} :: 0 <= i < |lines| ==> LineInColor(lines[i])
  }

  lemma {:induction false} SentenceInColor(line: seq<Token>)
    requires LineInColor(line)
    ensures OnlyInColor(Sentence(ShowLine(line)))
  {
    forall j | 0 <= j < |line|
      ensures OnlyInColor(ShowLine(line)[j])
    {
      TokenInColor(line[j]);
    }
    JoinInColor(ShowLine(line));
    ColorJoin(Join(ShowLine(line), ' '), "\n");
  }

  lemma {:induction false} WrittenInColor(lines: seq<seq<Token>>)
    requires LinesInColor(lines)
    ensures OnlyInColor(Written(lines))
    decreases |lines|
  {
    if lines != [] {
      var init, last := lines[..|lines| - 1], lines[|lines| - 1];
      WrittenInColor(init);
      SentenceInColor(last);
      WrittenJoin(init, [last]);
      WrittenOne(last);
      assert init + [last] == lines;
      ColorJoin(Written(init), Sentence(ShowLine(last)));
    }
  }

  lemma {:induction false} LinesTogether(a: seq<seq<Token>>, b: seq<seq<Token>>)
    requires LinesInColor(a) && LinesInColor(b)
    ensures LinesInColor(a + b)
  {
  }

  lemma {:induction false} PathInColor(corners: seq<Spot>, n: nat)
    requires n <= |corners|
    ensures LinesInColor(PathLines(corners, n))
  {
    if n > 0 {
      PathInColor(corners, n - 1);
    }
  }

  lemma {:induction false} ShapeInColor(s: Shape)
    ensures LinesInColor(ShapeLines(s))
  {
    PathInColor(s.corners, |s.corners|);
    var color := [ColorLine(s.color, if s.Filled? then "rg" else "RG")];
    LinesTogether(color, PathLines(s.corners, |s.corners|));
  }

  lemma {:induction false} ShapesInColor(shapes: seq<Shape>)
    ensures LinesInColor(AllLines(shapes))
    decreases |shapes|
  {
    if shapes != [] {
      ShapesInColor(shapes[..|shapes| - 1]);
      ShapeInColor(shapes[|shapes| - 1]);
      LinesTogether(AllLines(shapes[..|shapes| - 1]), ShapeLines(shapes[|shapes| - 1]));
    }
  }

  lemma {:induction false} FrameInColor()
    ensures LinesInColor(PRELUDE) && LinesInColor(WIDTH) && LinesInColor(POSTLUDE)
  {
  }

  lemma {:induction false} PageInColor(page: Page)
    requires Drawable(page.view)
    ensures OnlyInColor(PageText(page))
  {
    var v := page.view;
    FrameInColor();
    if v.NoView? {
      LinesTogether(PRELUDE, POSTLUDE);
    } else {
      ViewInColor(PRELUDE, TriangleShapes(v, Triangles(v), page.height), WIDTH,
                  LineShapes(v, Lines(v), page.height), POSTLUDE);
    }
    WrittenInColor(PageLines(page));
  }

  lemma {:induction false} ViewInColor(pre: seq<seq<Token>>, first: seq<Shape>, mid: seq<seq<Token>>,
                                       second: seq<Shape>, post: seq<seq<Token>>)
    requires LinesInColor(pre) && LinesInColor(mid) && LinesInColor(post)
    ensures LinesInColor(pre + AllLines(first) + mid + AllLines(second) + post)
  {
    ShapesInColor(first);
    ShapesInColor(second);
    LinesTogether(pre, AllLines(first));
    LinesTogether(pre + AllLines(first), mid);
    LinesTogether(pre + AllLines(first) + mid, AllLines(second));
    LinesTogether(pre + AllLines(first) + mid + AllLines(second), post);
  }

  /** All but a last character R is followed by a G. */
  ghost predicate NearlyInColor(s: string) {
    forall i {:trigger s[i]} :: 0 <= i < |s| - 1 && s[i] == 'R' ==> s[i + 1] == 'G'
  }

  lemma {:induction false} SpaceAfter(s: string)
    requires NearlyInColor(s) && s != ""
    ensures var t := s[..|s| - 1]; s[|s| - 1] == ' ' && t != "" ==> t[|t| - 1] != 'R'
  {
  }

  /** No word before the last is a bare R, and the last one only where the text ends with it. */
  lemma {:induction false} NoBareR(s: string)
    requires NearlyInColor(s)
    ensures var r := Split(s, ' ');
            && NoMark(r[..|r| - 1]) && (r[|r| - 1] == "R" ==> s != "" && s[|s| - 1] == 'R')
    decreases |s|
  {
    if s != "" {
      var t, c := s[..|s| - 1], s[|s| - 1];
      NoBareR(t);
      var r := Split(t, ' ');
      SpaceAfter(s);
      NextPiece(r, c, Split(s, ' '));
    }
  }

  lemma {:induction false} NextPiece(r: seq<string>, c: char, q: seq<string>)
    requires |r| > 0 && NoMark(r[..|r| - 1]) && (c == ' ' ==> r[|r| - 1] != "R")
    requires q == if c == ' ' then r + [""] else ExtendLast(r, [c])
    ensures |q| > 0 && NoMark(q[..|q| - 1]) && (q[|q| - 1] == "R" ==> c == 'R')
  {
    if c == ' ' {
      assert q[..|q| - 1] == r[..|r| - 1] + [r[|r| - 1]];
    } else {
      assert q[..|q| - 1] == r[..|r| - 1];
      var w := r[|r| - 1] + [c];
      assert w[|w| - 1] == c;
    }
  }

  lemma {:induction false} UnlinedInColor(s: string)
    requires OnlyInColor(s)
    ensures OnlyInColor(Unlined(s))
  {
    forall i | 0 <= i < |s| && Unlined(s)[i] == 'R'
      ensures i + 1 < |s| && Unlined(s)[i + 1] == 'G'
    {
      assert s[i] == 'R' && s[i + 1] == 'G';
    }
  }

  lemma {:induction false} NoRefs(s: string)
    requires OnlyInColor(s)
    ensures Refs(s) == []
  {
    UnlinedInColor(s);
    NoBareR(Unlined(s));
    var r := Split(Unlined(s), ' ');
    assert NoMark(r);
    RefsUnmarked([], r);
    assert [] + r == r;
  }

  lemma {:induction false} StreamWords(d: string, content: string)
    requires AllDigits(d) && OnlyInColor(content)
    ensures OnlyInColor("<< /Length " + d + " >>\nstream\n" + content + "endstream\n")
  {
    ColorJoin("<< /Length ", d);
    ColorJoin("<< /Length " + d, " >>\nstream\n");
    ColorJoin("<< /Length " + d + " >>\nstream\n", content);
    ColorJoin("<< /Length " + d + " >>\nstream\n" + content, "endstream\n");
  }

  /** A page's content stream refers to nothing. */
  lemma {:induction false} StreamRefs(page: Page)
    requires Drawable(page.view)
    ensures Refs(StreamText(PageText(page))) == []
  {
    PageInColor(page);
    StreamWords(Digits(|PageText(page)|), PageText(page));
    NoRefs(StreamText(PageText(page)));
  }
}
