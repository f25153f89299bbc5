/** The PDF generator's text layout: the greedy word wrap that breaks a
    paragraph into lines no wider than a maximum (the font's width measure is a
    parameter), the vertical cursor that moves down one line height per drawn
    line, and the name each generated file gets. */
module PdfLayout {
  import opened Text

  /** The candidate line: the current line and the next word joined by a space,
      or just the word while the line is still empty. */
  function TestLine(line: string, word: string): (t: string)
    ensures line == [] ==> t == word
    ensures line != [] ==> |t| == |line| + 1 + |word| && t[..|line|] == line
  {
    if line != [] then line + " " + word else word
  }

  /** The lines the greedy wrap emits for the words still to place, given the
      line built so far: a word goes onto the current line when the result
      fits, or when the line is empty; otherwise the line is emitted and the
      word starts the next one. A non-empty last line is emitted at the end. */
  function WrapFrom(words: seq<string>, line: string, width: string -> real, maxWidth: real): (lines: seq<string>)
    ensures forall k :: 0 <= k < |lines| ==> lines[k] != []
    ensures line != [] ==> lines != []
    decreases |words|
  {
    if words == [] then (if line != [] then [line] else [])
    else
      var test := TestLine(line, words[0]);
      if width(test) > maxWidth && line != [] then [line] + WrapFrom(words[1..], words[0], width, maxWidth)
      else WrapFrom(words[1..], test, width, maxWidth)
  }

  /** The lines of `text`, split on single spaces. */
  function Wrap(text: string, width: string -> real, maxWidth: real): seq<string> {
    WrapFrom(Split(text, ' '), "", width, maxWidth)
  }

  /** The text before the first space. */
  function FirstWord(s: string): (w: string)
    ensures ' ' !in w
    ensures w <= s
  {
    if s == [] || s[0] == ' ' then [] else [s[0]] + FirstWord(s[1..])
  }

  lemma {:induction false} FirstWordAppend(s: string, t: string)
    ensures FirstWord(s + " " + t) == FirstWord(s)
    decreases |s|
  {
    if s == [] {
      assert (s + " " + t)[0] == ' ';
    } else if s[0] != ' ' {
      assert (s + " " + t)[1..] == s[1..] + " " + t;
      FirstWordAppend(s[1..], t);
    } else {
      assert (s + " " + t)[0] == ' ';
    }
  }

  lemma {:induction false} FirstWordOfWord(w: string)
    requires ' ' !in w
    ensures FirstWord(w) == w
    decreases |w|
  {
    if w != [] {
      FirstWordOfWord(w[1..]);
    }
  }

  /** The first line starts with the first word of the line being built. */
  lemma {:induction false} WrapFromHead(words: seq<string>, line: string, width: string -> real, maxWidth: real)
    requires line != []
    ensures FirstWord(WrapFrom(words, line, width, maxWidth)[0]) == FirstWord(line)
    decreases |words|
  {
    if words != [] {
      var test := TestLine(line, words[0]);
      if !(width(test) > maxWidth) {
        WrapFromHead(words[1..], test, width, maxWidth);
        FirstWordAppend(line, words[0]);
      }
    }
  }

  /** A line wider than the maximum holds a single word: a line only grows by a
      word when the result fits. */
  lemma {:induction false} WrapFromWideIsWord(words: seq<string>, line: string, width: string -> real, maxWidth: real)
    requires forall w :: w in words ==> ' ' !in w
    requires width(line) <= maxWidth || ' ' !in line
    ensures forall l :: l in WrapFrom(words, line, width, maxWidth) ==> width(l) <= maxWidth || ' ' !in l
    decreases |words|
  {
    if words != [] {
      var test := TestLine(line, words[0]);
      assert words[0] in words;
      if width(test) > maxWidth && line != [] {
        WrapFromWideIsWord(words[1..], words[0], width, maxWidth);
      } else {
        WrapFromWideIsWord(words[1..], test, width, maxWidth);
      }
    }
  }

  /** Each line but the last was ended because the first word of the next line
      did not fit on it. */
  predicate Greedy(lines: seq<string>, width: string -> real, maxWidth: real) {
    forall k :: 0 <= k < |lines| - 1 ==> width(lines[k] + " " + FirstWord(lines[k + 1])) > maxWidth
  }

  /** A line is emitted only when the next word would not fit on it: appending
      the first word of the following line makes it wider than the maximum. */
  lemma {:induction false} WrapFromGreedy(words: seq<string>, line: string, width: string -> real, maxWidth: real)
    requires forall w :: w in words ==> w != [] && ' ' !in w
    ensures Greedy(WrapFrom(words, line, width, maxWidth), width, maxWidth)
    decreases |words|
  {
    if words != [] {
      var w := words[0];
      var test := TestLine(line, w);
      assert w in words;
      assert forall v :: v in words[1..] ==> v in words;
      if width(test) > maxWidth && line != [] {
        var rest := WrapFrom(words[1..], w, width, maxWidth);
        WrapFromGreedy(words[1..], w, width, maxWidth);
        WrapFromHead(words[1..], w, width, maxWidth);
        FirstWordOfWord(w);
        var lines := [line] + rest;
        forall k | 0 <= k < |lines| - 1
          ensures width(lines[k] + " " + FirstWord(lines[k + 1])) > maxWidth
        {
          if k > 0 {
            assert lines[k] == rest[k - 1] && lines[k + 1] == rest[k];
          }
        }
      } else {
        assert WrapFrom(words, line, width, maxWidth) == WrapFrom(words[1..], test, width, maxWidth);
        WrapFromGreedy(words[1..], test, width, maxWidth);
      }
    }
  }

  /** `line` followed by a space and `w` is wider than the maximum. */
  predicate TooWide(line: string, w: string, width: string -> real, maxWidth: real) {
    width(line + " " + w) > maxWidth
  }

  /** Some start of `next` (possibly empty) does not fit after `line`. */
  ghost predicate Breaks(line: string, next: string, width: string -> real, maxWidth: real) {
    exists w :: w <= next && TooWide(line, w, width, maxWidth)
  }

  /** Each line but the last was ended because some start of the next line
      (the word that broke it, possibly empty) did not fit on it. */
  ghost predicate Full(lines: seq<string>, width: string -> real, maxWidth: real) {
    forall k :: 0 <= k < |lines| - 1 ==> Breaks(lines[k], lines[k + 1], width, maxWidth)
  }

  /** The line being built starts the first line emitted. */
  lemma {:induction false} WrapFromPrefix(words: seq<string>, line: string, width: string -> real, maxWidth: real)
    requires WrapFrom(words, line, width, maxWidth) != []
    ensures line <= WrapFrom(words, line, width, maxWidth)[0]
    decreases |words|
  {
    if words != [] && line != [] {
      var test := TestLine(line, words[0]);
      if !(width(test) > maxWidth) {
        WrapFromPrefix(words[1..], test, width, maxWidth);
        assert line <= test;
      }
    }
  }

  /** Emitting `line` in front of full lines keeps them full when the word
      that broke it starts the next line. */
  lemma FullCons(line: string, w: string, rest: seq<string>, width: string -> real, maxWidth: real)
    requires TooWide(line, w, width, maxWidth)
    requires rest != [] ==> w <= rest[0]
    requires Full(rest, width, maxWidth)
    ensures Full([line] + rest, width, maxWidth)
  {
    var lines := [line] + rest;
    forall k | 0 <= k < |lines| - 1
      ensures Breaks(lines[k], lines[k + 1], width, maxWidth)
    {
      if k == 0 {
        assert w <= lines[1] && TooWide(lines[0], w, width, maxWidth);
      } else {
        assert lines[k] == rest[k - 1] && lines[k + 1] == rest[k];
      }
    }
  }

  /** For every text, empty words included: a line is emitted only when the
      word that follows it, which starts the next line, does not fit. */
  lemma {:induction false} WrapFromFull(words: seq<string>, line: string, width: string -> real, maxWidth: real)
    ensures Full(WrapFrom(words, line, width, maxWidth), width, maxWidth)
    decreases |words|
  {
    if words != [] {
      var w := words[0];
      var test := TestLine(line, w);
      if width(test) > maxWidth && line != [] {
        var rest := WrapFrom(words[1..], w, width, maxWidth);
        WrapFromFull(words[1..], w, width, maxWidth);
        if rest != [] {
          WrapFromPrefix(words[1..], w, width, maxWidth);
        }
        FullCons(line, w, rest, width, maxWidth);
        assert WrapFrom(words, line, width, maxWidth) == [line] + rest;
      } else {
        WrapFromFull(words[1..], test, width, maxWidth);
      }
    }
  }

  /** The wrap of any text is full in that sense. */
  lemma WrapFull(text: string, width: string -> real, maxWidth: real)
    ensures Full(Wrap(text, width, maxWidth), width, maxWidth)
  {
    WrapFromFull(Split(text, ' '), "", width, maxWidth);
  }

  lemma JoinCons(w: string, rest: seq<string>, sep: string)
    requires rest != []
    ensures Join([w] + rest, sep) == w + sep + Join(rest, sep)
  {
    assert ([w] + rest)[1..] == rest;
  }

  /** What the remaining words and the current line read as, joined by spaces. */
  function Pending(line: string, words: seq<string>): string {
    if line == [] then Join(words, " ")
    else if words == [] then line
    else line + " " + Join(words, " ")
  }

  /** Appending a word to the current line does not change the pending
      text. */
  lemma PendingExtend(line: string, w: string, rest: seq<string>)
    requires w != []
    ensures Pending(TestLine(line, w), rest) == Pending(line, [w] + rest)
  {
    if rest != [] {
      JoinCons(w, rest, " ");
      if line != [] {
        assert (line + " " + w) + " " + Join(rest, " ") == line + " " + (w + " " + Join(rest, " "));
      }
    }
  }

  /** Emitting the current line and starting a new one with the word does not
      change the pending text. */
  lemma PendingBreak(line: string, w: string, rest: seq<string>)
    requires line != [] && w != []
    ensures line + " " + Pending(w, rest) == Pending(line, [w] + rest)
  {
    if rest != [] {
      JoinCons(w, rest, " ");
    }
  }

  /** Without empty words, the wrap only decides where the breaks go: the
      emitted lines joined by spaces are the pending text. */
  lemma {:induction false} WrapFromJoin(words: seq<string>, line: string, width: string -> real, maxWidth: real)
    requires forall w :: w in words ==> w != []
    ensures Join(WrapFrom(words, line, width, maxWidth), " ") == Pending(line, words)
    decreases |words|
  {
    if words != [] {
      var w, rest := words[0], words[1..];
      assert w in words;
      assert forall v :: v in rest ==> v in words;
      assert words == [w] + rest;
      var test := TestLine(line, w);
      if width(test) > maxWidth && line != [] {
        var tail := WrapFrom(rest, w, width, maxWidth);
        WrapFromJoin(rest, w, width, maxWidth);
        JoinCons(line, tail, " ");
        PendingBreak(line, w, rest);
      } else {
        WrapFromJoin(rest, test, width, maxWidth);
        PendingExtend(line, w, rest);
      }
    }
  }

  /** For text that splits into non-empty words (no leading, trailing or
      doubled spaces), joining the wrapped lines with spaces gives the text
      back: every word is used once, in order. */
  lemma WrapJoin(text: string, width: string -> real, maxWidth: real)
    requires forall w :: w in Split(text, ' ') ==> w != []
    ensures Join(Wrap(text, width, maxWidth), " ") == text
  {
    WrapFromJoin(Split(text, ' '), "", width, maxWidth);
  }

  /** Every line of a wrapped text is non-empty, and a line wider than the
      maximum is a single word. */
  lemma WrapLines(text: string, width: string -> real, maxWidth: real)
    ensures forall l :: l in Wrap(text, width, maxWidth) ==> l != []
    ensures forall l :: l in Wrap(text, width, maxWidth) ==> width(l) <= maxWidth || ' ' !in l
  {
    WrapFromWideIsWord(Split(text, ' '), "", width, maxWidth);
  }

  /** A `drawText` call: the line and the baseline it is drawn at. */
  datatype Draw = Draw(line: string, y: real)

  /** The distance the cursor moves down after each line. */
  function LineAdvance(size: real): real {
    size + 4.0
  }

  /** The baseline of the `k`-th line drawn from cursor `y`. */
  function Baseline(y: real, size: real, k: nat): real {
    y - (k as real) * LineAdvance(size)
  }

  lemma BaselineStep(y: real, size: real, k: nat)
    ensures Baseline(y, size, k + 1) == Baseline(y, size, k) - LineAdvance(size)
  {
    assert ((k + 1) as real) * LineAdvance(size) == (k as real) * LineAdvance(size) + LineAdvance(size);
  }

  /** `draws` draws `lines` in order, each a line advance below the previous
      one starting at `y`, and `cursor` is where the next line goes. */
  ghost predicate DrawnFrom(draws: seq<Draw>, lines: seq<string>, cursor: real, y: real, size: real) {
    && |draws| == |lines|
    && (forall k :: 0 <= k < |draws| ==> draws[k] == Draw(lines[k], Baseline(y, size, k)))
    && cursor == Baseline(y, size, |draws|)
  }

  /** One `drawText` call at the cursor, followed by `y -= size + 4`. */
  method DrawLine(draws: seq<Draw>, line: string, cursor: real, size: real, ghost lines: seq<string>, ghost y: real)
    returns (draws': seq<Draw>, cursor': real)
    requires DrawnFrom(draws, lines, cursor, y, size)
    ensures draws' == draws + [Draw(line, cursor)]
    ensures DrawnFrom(draws', lines + [line], cursor', y, size)
  {
    BaselineStep(y, size, |draws|);
    draws' := draws + [Draw(line, cursor)];
    cursor' := cursor - LineAdvance(size);
  }

  /** One word of the loop in `drawWrappedText`. */
  method WrapWord(words: seq<string>, i: nat, line: string, draws: seq<Draw>, cursor: real,
                  size: real, width: string -> real, maxWidth: real,
                  ghost lines: seq<string>, ghost y: real, ghost all: seq<string>)
    returns (line': string, draws': seq<Draw>, cursor': real, ghost lines': seq<string>)
    requires i < |words|
    requires lines + WrapFrom(words[i..], line, width, maxWidth) == all
    requires DrawnFrom(draws, lines, cursor, y, size)
    ensures lines' + WrapFrom(words[i + 1..], line', width, maxWidth) == all
    ensures DrawnFrom(draws', lines', cursor', y, size)
  {
    var word := words[i];
    var test := TestLine(line, word);
    assert words[i..][1..] == words[i + 1..];
    if width(test) > maxWidth && line != [] {
      draws', cursor' := DrawLine(draws, line, cursor, size, lines, y);
      lines' := lines + [line];
      line' := word;
    } else {
      draws', cursor', lines' := draws, cursor, lines;
      line' := test;
    }
  }

  /** `drawWrappedText`: draws the wrapped lines top to bottom, the first at the
      current cursor and each next one a line advance lower, and returns the
      cursor below the last line. */
  method DrawWrappedText(text: string, y: real, size: real, width: string -> real, maxWidth: real)
    returns (draws: seq<Draw>, y': real)
    ensures |draws| == |Wrap(text, width, maxWidth)|
    ensures forall k :: 0 <= k < |draws| ==> draws[k].line == Wrap(text, width, maxWidth)[k]
    ensures forall k :: 0 <= k < |draws| ==> draws[k].y == Baseline(y, size, k)
    ensures y' == Baseline(y, size, |draws|)
  {
    var words := Split(text, ' ');
    ghost var all := WrapFrom(words, "", width, maxWidth);
    ghost var lines: seq<string> := [];
    var line := "";
    draws := [];
    y' := y;
    for i := 0 to |words|
      invariant lines + WrapFrom(words[i..], line, width, maxWidth) == all
      invariant DrawnFrom(draws, lines, y', y, size)
    {
      line, draws, y', lines := WrapWord(words, i, line, draws, y', size, width, maxWidth, lines, y, all);
    }
    if line != [] {
      draws, y' := DrawLine(draws, line, y', size, lines, y);
      lines := lines + [line];
    }
    assert lines == all;
  }

  const Suffix := "-remedies.pdf"

  /** `condition.toLowerCase().replace(/\s+/g, "-").replace(/,/g, "") + "-remedies.pdf"`. */
  function PdfFileName(condition: string): (name: string)
    ensures |name| >= |Suffix| && name[|name| - |Suffix|..] == Suffix
  {
    var stem := RemoveChar(Slug(condition), ',');
    assert (stem + Suffix)[|stem|..] == Suffix;
    stem + Suffix
  }

  lemma SuffixClean()
    ensures NoSpace(Suffix) && NoUpper(Suffix) && ',' !in Suffix
  {
  }

  /** The file name holds no white space, no upper-case letter and no comma. */
  lemma PdfFileNameClean(condition: string)
    ensures var name := PdfFileName(condition);
      NoSpace(name) && NoUpper(name) && ',' !in name
  {
    var stem := RemoveChar(Slug(condition), ',');
    var name := stem + Suffix;
    SuffixClean();
    forall i | 0 <= i < |name| ensures !IsSpace(name[i]) && !('A' <= name[i] <= 'Z') {
      if i < |stem| {
        assert name[i] == stem[i] && stem[i] in stem;
      } else {
        assert name[i] == Suffix[i - |stem|];
      }
    }
  }

  lemma {:induction false} RemoveCharAppend(a: string, b: string, ch: char)
    ensures RemoveChar(a + b, ch) == RemoveChar(a, ch) + RemoveChar(b, ch)
    decreases |a|
  {
    if a == [] {
      assert a + b == b;
    } else {
      assert (a + b)[0] == a[0];
      assert (a + b)[1..] == a[1..] + b;
      RemoveCharAppend(a[1..], b, ch);
    }
  }

  lemma LowerAppend(a: string, b: string)
    ensures Lower(a + b) == Lower(a) + Lower(b)
  {
  }

  /** A single-word condition gives its lower-cased name with the suffix. */
  lemma PdfFileNameOfWord(condition: string)
    requires NoSpace(condition) && ',' !in condition
    ensures PdfFileName(condition) == Lower(condition) + "-remedies.pdf"
  {
    var l := Lower(condition);
    assert ',' !in l by {
      forall i | 0 <= i < |l| ensures l[i] != ',' { assert condition[i] != ','; }
    }
  }

  /** "A, B" names the file "a-b-remedies.pdf": the white space after the comma
      becomes the dash and the comma is dropped. */
  lemma PdfFileNameOfCommaList(a: string, b: string)
    requires a != [] && b != []
    requires NoSpace(a) && NoSpace(b) && ',' !in a && ',' !in b
    ensures PdfFileName(a + ", " + b) == Lower(a) + "-" + Lower(b) + "-remedies.pdf"
  {
    var la, lb := Lower(a), Lower(b);
    assert NoSpace(la) && NoSpace(lb);
    assert ',' !in la by {
      forall i | 0 <= i < |la| ensures la[i] != ',' { assert a[i] != ','; }
    }
    assert ',' !in lb by {
      forall i | 0 <= i < |lb| ensures lb[i] != ',' { assert b[i] != ','; }
    }
    var head := la + ",";
    assert NoSpace(head);
    assert Lower(a + ", " + b) == head + " " + lb by {
      LowerAppend(a + ", ", b);
      LowerAppend(a, ", ");
      assert Lower(", ") == ", ";
    }
    assert Slug(a + ", " + b) == head + "-" + lb by {
      CollapseSpacesSplit(head, " ", lb);
      CollapseSpacesKeeps(head);
      CollapseSpacesKeeps(lb);
    }
    assert RemoveChar(head, ',') == la by {
      RemoveCharAppend(la, ",", ',');
      assert RemoveChar(",", ',') == [];
      assert la + [] == la;
    }
    assert RemoveChar(head + "-", ',') == la + "-" by {
      RemoveCharAppend(head, "-", ',');
      assert RemoveChar("-", ',') == "-";
    }
    assert RemoveChar(head + "-" + lb, ',') == la + "-" + lb by {
      RemoveCharAppend(head + "-", lb, ',');
    }
  }
}
