/** Lines of words: text put together from words and taken apart again. */
module Words {
  import opened Sequences

  function ExtendLast(r: seq<string>, w: string): (q: seq<string>)
    requires |r| > 0
    ensures |q| == |r|
  {
    r[..|r| - 1] + [r[|r| - 1] + w]
  }

  /** The stretches between separators; one more than there are separators. */
  function Split(s: string, sep: char): (r: seq<string>)
    ensures |r| > 0
  {
    if s == [] then [""]
    else
      var r := Split(s[..|s| - 1], sep);
      if s[|s| - 1] == sep then r + [""] else ExtendLast(r, [s[|s| - 1]])
  }

  function Join(words: seq<string>, sep: char): string {
    if words == [] then ""
    else if |words| == 1 then words[0] else Join(words[..|words| - 1], sep) + [sep] + words[|words| - 1]
  }

  function Sentence(words: seq<string>): string {
    Join(words, ' ') + "\n"
  }

  /** One line, with its line break. */
  ghost predicate OneLine(text: string) {
    text != "" && text[|text| - 1] == '\n' && '\n' !in text[..|text| - 1]
  }

  /** Every line has words, and no word has a separator in it. */
  ghost predicate Clean(lines: seq<seq<string>>) {
    forall i {:trigger lines[i]} :: 0 <= i < |lines| ==> lines[i] != [] && CleanWords(lines[i])
  }

  ghost predicate CleanWords(words: seq<string>) {
    forall j {:trigger words[j]} :: 0 <= j < |words| ==> ' ' !in words[j] && '\n' !in words[j]
  }

  ghost function Text(lines: seq<seq<string>>): string {
    if lines == [] then "" else Text(lines[..|lines| - 1]) + Sentence(lines[|lines| - 1])
  }

  /** A text as lines of words; what follows the last line break is a line as well. */
  ghost function Parse(text: string): seq<seq<string>> {
    ParseLines(Split(text, '\n'))
  }

  ghost function ParseLines(lines: seq<string>): (r: seq<seq<string>>)
    ensures |r| == |lines|
    ensures forall i {:trigger r[i]} :: 0 <= i < |r| ==> r[i] == Split(lines[i], ' ')
  {
    seq(|lines|, i requires 0 <= i < |lines| => Split(lines[i], ' '))
  }

  lemma {:induction false} SplitChar(s: string, c: char, sep: char)
    ensures Split(s + [c], sep)
         == if c == sep then Split(s, sep) + [""] else ExtendLast(Split(s, sep), [c])
  {
    assert (s + [c])[..|s|] == s;
  }

  lemma {:induction false} ExtendTwice(r: seq<string>, a: string, b: string)
    requires |r| > 0
    ensures ExtendLast(ExtendLast(r, a), b) == ExtendLast(r, a + b)
  {
    var last := r[|r| - 1];
    assert last + a + b == last + (a + b);
  }

  lemma {:induction false} ExtendByNone(r: seq<string>)
    requires |r| > 0
    ensures ExtendLast(r, []) == r
  {
    assert r[|r| - 1] + [] == r[|r| - 1];
  }

  lemma {:induction false} SplitWordMore(s: string, v: string, c: char, sep: char)
    requires c != sep && Split(s + v, sep) == ExtendLast(Split(s, sep), v)
    ensures Split(s + (v + [c]), sep) == ExtendLast(Split(s, sep), v + [c])
  {
    SplitChar(s + v, c, sep);
    ExtendTwice(Split(s, sep), v, [c]);
    assert s + (v + [c]) == s + v + [c];
  }

  lemma {:induction false} SplitLastChar(s: string, w: string, sep: char)
    requires w != [] && sep !in w
    requires Split(s + w[..|w| - 1], sep) == ExtendLast(Split(s, sep), w[..|w| - 1])
    ensures Split(s + w, sep) == ExtendLast(Split(s, sep), w)
  {
    var v, c := w[..|w| - 1], w[|w| - 1];
    SplitWordMore(s, v, c, sep);
    assert v + [c] == w;
  }

  /** More characters without a separator extend the last stretch. */
  lemma {:induction false} SplitWord(s: string, w: string, sep: char)
    requires sep !in w
    ensures Split(s + w, sep) == ExtendLast(Split(s, sep), w)
    decreases |w|
  {
    if w == [] {
      assert s + w == s;
      ExtendByNone(Split(s, sep));
    } else {
      SplitWord(s, w[..|w| - 1], sep);
      SplitLastChar(s, w, sep);
    }
  }

  lemma {:induction false} SplitJoin(words: seq<string>, sep: char)
    requires words != []
    requires forall j {:trigger words[j]} :: 0 <= j < |words| ==> sep !in words[j]
    ensures Split(Join(words, sep), sep) == words
    decreases |words|
  {
    var last := words[|words| - 1];
    if |words| == 1 {
      SplitWord([], last, sep);
      assert [] + last == last && [""[..] + last] == words;
    } else {
      var init := words[..|words| - 1];
      SplitJoin(init, sep);
      SplitChar(Join(init, sep), sep, sep);
      SplitWord(Join(init, sep) + [sep], last, sep);
      assert "" + last == last;
      assert init + [last] == words;
    }
  }

  lemma {:induction false} JoinKeepsLine(words: seq<string>)
    requires words != [] && CleanWords(words)
    ensures '\n' !in Join(words, ' ')
    decreases |words|
  {
    if |words| > 1 {
      JoinKeepsLine(words[..|words| - 1]);
    }
  }

  lemma {:induction false} SplitLine(before: string, line: string)
    requires '\n' !in line
    ensures Split(before + (line + "\n"), '\n') == ExtendLast(Split(before, '\n'), line) + [""]
  {
    SplitWord(before, line, '\n');
    SplitChar(before + line, '\n', '\n');
    assert before + (line + "\n") == before + line + ['\n'];
  }

  /** Taking a text apart gives its lines back, and an empty line after the last break. */
  lemma {:induction false} ParseText(lines: seq<seq<string>>)
    requires Clean(lines)
    ensures Parse(Text(lines)) == lines + [[""]]
    decreases |lines|
  {
    if lines == [] {
      assert Split("", '\n') == [""] && Split("", ' ') == [""];
    } else {
      var n := |lines| - 1;
      var before, line := Text(lines[..n]), Join(lines[n], ' ');
      ParseText(lines[..n]);
      JoinKeepsLine(lines[n]);
      SplitJoin(lines[n], ' ');
      SplitLine(before, line);
      ParseOneMore(Split(before, '\n'), line, lines[..n], lines[n]);
      assert lines[..n] + [lines[n]] == lines;
    }
  }

  lemma {:induction false} ParseOneMore(r: seq<string>, line: string, lines: seq<seq<string>>, words: seq<string>)
    requires |r| > 0 && ParseLines(r) == lines + [[""]] && Split(line, ' ') == words
    ensures ParseLines(ExtendLast(r, line) + [""]) == lines + [words] + [[""]]
  {
    var n := |r| - 1;
    assert Split(r[n], ' ') == ParseLines(r)[n] == [""];
    if r[n] != "" {
      SplitNotBlank(r[n]);
    }
    assert r[n] + line == line;
    var s := ExtendLast(r, line) + [""];
    forall i | 0 <= i < |s|
      ensures Split(s[i], ' ') == (lines + [words] + [[""]])[i]
    {
      if i < n {
        assert s[i] == r[i] && ParseLines(r)[i] == lines[i];
      }
    }
  }

  lemma {:induction false} SplitNotBlank(s: string)
    requires s != ""
    ensures |Split(s, ' ')| > 1 || Split(s, ' ')[0] != ""
  {
    var r := Split(s[..|s| - 1], ' ');
    if s[|s| - 1] == ' ' {
      assert |Split(s, ' ')| == |r| + 1;
    } else if |r| == 1 {
      assert Split(s, ' ')[0] == r[0] + [s[|s| - 1]];
    }
  }

  lemma {:induction false} TextMore(lines: seq<seq<string>>, words: seq<string>)
    ensures Text(lines + [words]) == Text(lines) + Sentence(words)
  {
    assert (lines + [words])[..|lines|] == lines;
  }

  lemma {:induction false} TextJoin(a: seq<seq<string>>, b: seq<seq<string>>)
    ensures Text(a + b) == Text(a) + Text(b)
    decreases |b|
  {
    if b == [] {
      assert a + b == a;
    } else {
      var c, words := b[..|b| - 1], b[|b| - 1];
      TextJoin(a, c);
      TextMore(a + c, words);
      TextMore(c, words);
      assert c + [words] == b && a + c + [words] == a + b;
      Assoc(Text(a), Text(c), Sentence(words));
    }
  }
}
