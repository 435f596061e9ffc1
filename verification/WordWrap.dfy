/**
 Greedy wrapping to a column measured in display cells, where a word too wide for
 any line is cut. Lines are character sequences; a string is as wide as its characters together.
 */
module WordWrap {

  /** Which characters are white space, and how many columns each takes. */
  datatype Font = Font(space: char -> bool, columns: char -> nat)

  predicate Sane(f: Font) {
    f.space(' ') && f.space('\n') && f.columns(' ') == 1
  }

  // ----- cutting text up -----

  function Width(f: Font, s: string): nat {
    if s == "" then 0 else f.columns(s[0]) + Width(f, s[1..])
  }

  /** `split('\n')`. */
  function Paragraphs(text: string): (r: seq<string>)
    ensures r != []
  {
    if text == "" then [""]
    else if text[0] == '\n' then [""] + Paragraphs(text[1..])
    else
      var rest := Paragraphs(text[1..]);
      [[text[0]] + rest[0]] + rest[1..]
  }

  /** `split_whitespace`: the maximal runs of other characters. */
  function Words(f: Font, s: string): (r: seq<string>)
    ensures s != "" && !f.space(s[0]) ==> r != []
  {
    if s == "" then []
    else if f.space(s[0]) then Words(f, s[1..])
    else if |s| == 1 || f.space(s[1]) then [[s[0]]] + Words(f, s[1..])
    else
      var rest := Words(f, s[1..]);
      [[s[0]] + rest[0]] + rest[1..]
  }

  predicate IsWord(f: Font, w: string) {
    w != "" && forall i :: 0 <= i < |w| ==> !f.space(w[i])
  }

  predicate AllWords(f: Font, ws: seq<string>) {
    forall i :: 0 <= i < |ws| ==> IsWord(f, ws[i])
  }

  lemma {:induction false} WordsAreWords(f: Font, s: string)
    ensures AllWords(f, Words(f, s))
  {
    if s != "" {
      WordsAreWords(f, s[1..]);
    }
  }

  // ----- the wrap, as a function -----

  /** Finished lines, and the line still being filled. */
  datatype Filling = Filling(done: seq<string>, line: string)

  /** Cutting an over-wide word, character by character. */
  function Chop(f: Font, width: nat, at: Filling, word: string): Filling
    decreases |word|
  {
    if word == "" then at
    else if at.line != "" && Width(f, at.line) + f.columns(word[0]) > width then
      Chop(f, width, Filling(at.done + [at.line], [word[0]]), word[1..])
    else Chop(f, width, at.(line := at.line + [word[0]]), word[1..])
  }

  /** Where a word goes: on a new line if it does not fit on this one. */
  function Begun(f: Font, width: nat, at: Filling, word: string): Filling {
    if at.line != "" && Width(f, at.line) + 1 + Width(f, word) > width then Filling(at.done + [at.line], "") else at
  }

  /** A word put on the line, after a space if there is something there. */
  function Added(at: Filling, word: string): Filling {
    at.(line := if at.line != "" then at.line + " " + word else word)
  }

  function Put(f: Font, width: nat, at: Filling, word: string): Filling {
    var begun := Begun(f, width, at, word);
    if Width(f, word) > width then Chop(f, width, begun, word) else Added(begun, word)
  }

  function Fill(f: Font, width: nat, at: Filling, words: seq<string>): Filling {
    if words == [] then at
    else Put(f, width, Fill(f, width, at, words[..|words| - 1]), words[|words| - 1])
  }

  function WrapParagraph(f: Font, width: nat, para: string): seq<string> {
    var end := Fill(f, width, Filling([], ""), Words(f, para));
    end.done + [end.line]
  }

  function WrapAll(f: Font, width: nat, paras: seq<string>): seq<string> {
    if paras == [] then []
    else WrapAll(f, width, paras[..|paras| - 1]) + WrapParagraph(f, width, paras[|paras| - 1])
  }

  function AtLeastOne(width: nat): nat {
    if width < 1 then 1 else width
  }

  function Wrapped(f: Font, width: nat, text: string): seq<string> {
    WrapAll(f, AtLeastOne(width), Paragraphs(text))
  }

  // ----- the wrap, as the loops -----

  /** Cuts an over-wide word, character by character. */
  method ChopWord(
      f: Font, columns: nat, out: seq<string>, line: string, word: string,
      ghost before: seq<string>, ghost done: seq<string>)
    returns (out': seq<string>, line': string, ghost done': seq<string>)
    requires out == before + done
    ensures out' == before + done'
    ensures Filling(done', line') == Chop(f, columns, Filling(done, line), word)
  {
    out', line', done' := out, line, done;
    for k := 0 to |word|
      invariant out' == before + done'
      invariant Chop(f, columns, Filling(done', line'), word[k..]) == Chop(f, columns, Filling(done, line), word)
    {
      assert word[k..][1..] == word[k + 1..] && "" + [word[k]] == [word[k]];
      if line' != "" && Width(f, line') + f.columns(word[k]) > columns {
        out' := out' + [line'];
        done' := done' + [line'];
        line' := "";
      }
      line' := line' + [word[k]];
    }
  }

  /** One word onto the lines: on this one if it fits there, on the next if not, cut if it fits on none. */
  method PutWord(
      f: Font, columns: nat, out: seq<string>, line: string, word: string,
      ghost before: seq<string>, ghost done: seq<string>)
    returns (out': seq<string>, line': string, ghost done': seq<string>)
    requires out == before + done
    ensures out' == before + done'
    ensures Filling(done', line') == Put(f, columns, Filling(done, line), word)
  {
    out', line', done' := out, line, done;
    if line != "" && Width(f, line) + 1 + Width(f, word) > columns {
      out', done', line' := out + [line], done + [line], "";
    }
    if Width(f, word) > columns {
      out', line', done' := ChopWord(f, columns, out', line', word, before, done');
    } else {
      if line' != "" {
        line' := line' + " ";
      }
      line' := line' + word;
    }
  }

  lemma OneMoreWord(f: Font, width: nat, words: seq<string>, i: nat)
    requires i < |words|
    ensures Fill(f, width, Filling([], ""), words[..i + 1])
         == Put(f, width, Fill(f, width, Filling([], ""), words[..i]), words[i])
  {
    assert words[..i + 1][..i] == words[..i];
  }

  lemma OneMoreParagraph(f: Font, width: nat, paras: seq<string>, n: nat)
    requires n < |paras|
    ensures WrapAll(f, width, paras[..n + 1]) == WrapAll(f, width, paras[..n]) + WrapParagraph(f, width, paras[n])
  {
    assert paras[..n + 1][..n] == paras[..n];
  }

  method Wrap(f: Font, text: string, width: nat) returns (out: seq<string>)
    ensures out == Wrapped(f, width, text)
  {
    var columns := AtLeastOne(width);
    out := [];
    var paras := Paragraphs(text);
    for n := 0 to |paras|
      invariant out == WrapAll(f, columns, paras[..n])
    {
      ghost var before := out;
      var line := "";
      var words := Words(f, paras[n]);
      for i := 0 to |words|
        invariant var at := Fill(f, columns, Filling([], ""), words[..i]);
                  out == before + at.done && line == at.line
      {
        ghost var done := Fill(f, columns, Filling([], ""), words[..i]).done;
        OneMoreWord(f, columns, words, i);
        out, line, done := PutWord(f, columns, out, line, words[i], before, done);
      }
      assert words[..|words|] == words;
      OneMoreParagraph(f, columns, paras, n);
      out := out + [line];
    }
    assert paras[..|paras|] == paras;
  }

  // ----- widths -----

  lemma {:induction false} WidthAppend(f: Font, a: string, b: string)
    ensures Width(f, a + b) == Width(f, a) + Width(f, b)
  {
    if a == "" {
      assert a + b == b;
    } else {
      assert (a + b)[1..] == a[1..] + b;
      WidthAppend(f, a[1..], b);
    }
  }

  lemma WidthOne(f: Font, c: char)
    ensures Width(f, [c]) == f.columns(c)
  {
    assert [c][1..] == "";
  }

  lemma WidthJoined(f: Font, line: string, word: string)
    requires Sane(f)
    ensures Width(f, line + " " + word) == Width(f, line) + 1 + Width(f, word)
  {
    WidthAppend(f, line, " ");
    WidthAppend(f, line + " ", word);
    WidthOne(f, ' ');
  }

  // ----- every line fits, and wraps to itself -----

  /** Within the column, or a single character too wide for it. */
  predicate Fits(f: Font, width: nat, line: string) {
    Width(f, line) <= width || |line| == 1
  }

  /** A line that wrapping leaves alone, with no newline in it. */
  ghost predicate Settled(f: Font, width: nat, line: string) {
    && Fits(f, width, line)
    && Fill(f, width, Filling([], ""), Words(f, line)) == Filling([], line)
    && '\n' !in line
  }

  ghost predicate AllSettled(f: Font, width: nat, at: Filling) {
    (forall i :: 0 <= i < |at.done| ==> Settled(f, width, at.done[i])) && Settled(f, width, at.line)
  }

  lemma {:induction false} OneWord(f: Font, w: string)
    requires IsWord(f, w)
    ensures Words(f, w) == [w]
  {
    if |w| == 1 {
      assert w[1..] == "" && w == [w[0]];
    } else {
      OneWord(f, w[1..]);
      assert w == [w[0]] + w[1..];
    }
  }

  lemma {:induction false} WordsSnoc(f: Font, line: string, word: string)
    requires Sane(f) && IsWord(f, word)
    ensures Words(f, line + " " + word) == Words(f, line) + [word]
  {
    var s := line + " " + word;
    if line == "" {
      assert s[1..] == word;
      OneWord(f, word);
    } else {
      assert s[1..] == line[1..] + " " + word;
      WordsSnoc(f, line[1..], word);
      if |line| == 1 {
        assert s[1] == ' ' && line[1..] == "";
      }
    }
  }

  /** A run of non-space characters that fits is a line of its own. */
  lemma WordSettles(f: Font, width: nat, w: string)
    requires Sane(f) && IsWord(f, w) && Fits(f, width, w)
    ensures Settled(f, width, w)
  {
    OneWord(f, w);
    var start := Filling([], "");
    assert Words(f, w)[..0] == [];
    assert Fill(f, width, start, []) == start;
    assert Fill(f, width, start, [w]) == Put(f, width, start, w);
    if Width(f, w) > width {
      assert w[1..] == "" && "" + [w[0]] == w;
      assert Chop(f, width, start, w) == Chop(f, width, Filling([], w), w[1..]) == Filling([], w);
    }
  }

  lemma {:induction false} ChopSettles(f: Font, width: nat, at: Filling, word: string)
    requires Sane(f) && AllSettled(f, width, at) && (at.line == "" || IsWord(f, at.line))
    requires forall i :: 0 <= i < |word| ==> !f.space(word[i])
    ensures AllSettled(f, width, Chop(f, width, at, word))
    decreases |word|
  {
    if word != "" {
      var c := [word[0]];
      WidthOne(f, word[0]);
      if at.line != "" && Width(f, at.line) + f.columns(word[0]) > width {
        WordSettles(f, width, c);
        ChopSettles(f, width, Filling(at.done + [at.line], c), word[1..]);
      } else {
        WidthAppend(f, at.line, c);
        assert at.line == "" ==> at.line + c == c;
        WordSettles(f, width, at.line + c);
        ChopSettles(f, width, at.(line := at.line + c), word[1..]);
      }
    }
  }

  lemma EmptySettles(f: Font, width: nat)
    ensures Settled(f, width, "")
  {
  }

  lemma JoinSettles(f: Font, width: nat, line: string, word: string)
    requires Sane(f) && Settled(f, width, line) && line != "" && IsWord(f, word)
    requires Width(f, line) + 1 + Width(f, word) <= width
    ensures Settled(f, width, line + " " + word)
  {
    var s, ws := line + " " + word, Words(f, line);
    WordsSnoc(f, line, word);
    WidthJoined(f, line, word);
    assert (ws + [word])[..|ws|] == ws;
    assert Fill(f, width, Filling([], ""), ws + [word]) == Put(f, width, Filling([], line), word);
  }

  lemma PutSettles(f: Font, width: nat, at: Filling, word: string)
    requires Sane(f) && AllSettled(f, width, at) && IsWord(f, word)
    ensures AllSettled(f, width, Put(f, width, at, word))
  {
    EmptySettles(f, width);
    var breaks := at.line != "" && Width(f, at.line) + 1 + Width(f, word) > width;
    var begun := if breaks then Filling(at.done + [at.line], "") else at;
    assert AllSettled(f, width, begun);
    if Width(f, word) > width {
      ChopSettles(f, width, begun, word);
    } else if begun.line != "" {
      JoinSettles(f, width, begun.line, word);
    } else {
      WordSettles(f, width, word);
    }
  }

  lemma {:induction false} FillSettles(f: Font, width: nat, at: Filling, words: seq<string>)
    requires Sane(f) && AllSettled(f, width, at) && AllWords(f, words)
    ensures AllSettled(f, width, Fill(f, width, at, words))
    decreases |words|
  {
    if words != [] {
      FillSettles(f, width, at, words[..|words| - 1]);
      PutSettles(f, width, Fill(f, width, at, words[..|words| - 1]), words[|words| - 1]);
    }
  }

  lemma {:induction false} WrapAllSettles(f: Font, width: nat, paras: seq<string>)
    requires Sane(f)
    ensures forall i :: 0 <= i < |WrapAll(f, width, paras)| ==> Settled(f, width, WrapAll(f, width, paras)[i])
    ensures |WrapAll(f, width, paras)| >= |paras|
    decreases |paras|
  {
    if paras != [] {
      WrapAllSettles(f, width, paras[..|paras| - 1]);
      var para := paras[|paras| - 1];
      EmptySettles(f, width);
      WordsAreWords(f, para);
      FillSettles(f, width, Filling([], ""), Words(f, para));
    }
  }

  /** Every line of every wrap fits the column, or is one character that cannot. */
  lemma LinesFit(f: Font, width: nat, text: string)
    requires Sane(f)
    ensures forall line :: line in Wrapped(f, width, text) ==> Fits(f, AtLeastOne(width), line)
  {
    WrapAllSettles(f, AtLeastOne(width), Paragraphs(text));
  }

  // ----- wrapping again changes nothing -----

  function Joined(lines: seq<string>): string
    requires lines != []
  {
    if |lines| == 1 then lines[0] else lines[0] + "\n" + Joined(lines[1..])
  }

  lemma {:induction false} FirstParagraph(line: string, rest: string)
    requires '\n' !in line
    ensures Paragraphs(line) == [line]
    ensures Paragraphs(line + "\n" + rest) == [line] + Paragraphs(rest)
  {
    var s := line + "\n" + rest;
    if line == "" {
      assert s[1..] == rest;
    } else {
      assert s[1..] == line[1..] + "\n" + rest;
      FirstParagraph(line[1..], rest);
      assert line == [line[0]] + line[1..];
    }
  }

  lemma {:induction false} JoinedSplits(lines: seq<string>)
    requires lines != [] && forall i :: 0 <= i < |lines| ==> '\n' !in lines[i]
    ensures Paragraphs(Joined(lines)) == lines
    decreases |lines|
  {
    if |lines| == 1 {
      FirstParagraph(lines[0], "");
    } else {
      JoinedSplits(lines[1..]);
      FirstParagraph(lines[0], Joined(lines[1..]));
    }
  }

  lemma {:induction false} SettledLinesStay(f: Font, width: nat, lines: seq<string>)
    requires forall i :: 0 <= i < |lines| ==> Settled(f, width, lines[i])
    ensures WrapAll(f, width, lines) == lines
    decreases |lines|
  {
    if lines != [] {
      var n := |lines| - 1;
      SettledLinesStay(f, width, lines[..n]);
      assert Settled(f, width, lines[n]);
      assert lines == lines[..n] + [lines[n]];
    }
  }

  /** Wrapping the joined lines at the same width gives the same lines. */
  lemma WrapIsIdempotent(f: Font, width: nat, text: string)
    requires Sane(f)
    ensures Wrapped(f, width, text) != []
    ensures Wrapped(f, width, Joined(Wrapped(f, width, text))) == Wrapped(f, width, text)
  {
    var lines := Wrapped(f, width, text);
    WrapAllSettles(f, AtLeastOne(width), Paragraphs(text));
    JoinedSplits(lines);
    SettledLinesStay(f, AtLeastOne(width), lines);
  }

  // ----- no word is lost, added or moved -----

  function Ink(f: Font, s: string): string {
    if s == "" then "" else (if f.space(s[0]) then "" else [s[0]]) + Ink(f, s[1..])
  }

  function InkOf(f: Font, lines: seq<string>): string {
    if lines == [] then "" else InkOf(f, lines[..|lines| - 1]) + Ink(f, lines[|lines| - 1])
  }

  lemma {:induction false} InkAppend(f: Font, a: string, b: string)
    ensures Ink(f, a + b) == Ink(f, a) + Ink(f, b)
  {
    if a == "" {
      assert a + b == b;
    } else {
      assert (a + b)[1..] == a[1..] + b;
      InkAppend(f, a[1..], b);
    }
  }

  lemma {:induction false} InkOfAppend(f: Font, a: seq<string>, b: seq<string>)
    ensures InkOf(f, a + b) == InkOf(f, a) + InkOf(f, b)
    decreases |b|
  {
    if b == [] {
      assert a + b == a;
    } else {
      var n := |b| - 1;
      assert (a + b)[..|a| + n] == a + b[..n];
      InkOfAppend(f, a, b[..n]);
    }
  }

  lemma InkOfOne(f: Font, line: string)
    ensures InkOf(f, [line]) == Ink(f, line)
  {
    assert [line][..0] == [];
  }

  lemma InkOfCons(f: Font, first: string, rest: seq<string>)
    ensures InkOf(f, [first] + rest) == Ink(f, first) + InkOf(f, rest)
  {
    InkOfAppend(f, [first], rest);
    InkOfOne(f, first);
  }

  lemma InkOfFirst(f: Font, s: string)
    requires s != ""
    ensures Ink(f, s) == Ink(f, [s[0]]) + Ink(f, s[1..])
  {
    assert s == [s[0]] + s[1..];
    InkAppend(f, [s[0]], s[1..]);
  }

  lemma Regroup(a: string, b: string, c: string)
    ensures (a + b) + c == a + (b + c)
  {
  }

  /** More characters at the front of the first line come out in front of everything. */
  lemma PrependKeepsInk(f: Font, c: string, first: string, rest: seq<string>)
    ensures InkOf(f, [c + first] + rest) == Ink(f, c) + InkOf(f, [first] + rest)
  {
    InkOfCons(f, c + first, rest);
    InkOfCons(f, first, rest);
    InkAppend(f, c, first);
    Regroup(Ink(f, c), Ink(f, first), InkOf(f, rest));
  }

  lemma {:induction false} WordInk(f: Font, w: string)
    requires forall i :: 0 <= i < |w| ==> !f.space(w[i])
    ensures Ink(f, w) == w
  {
    if w != "" {
      WordInk(f, w[1..]);
    }
  }

  lemma {:induction false} WordsKeepInk(f: Font, s: string)
    ensures InkOf(f, Words(f, s)) == Ink(f, s)
  {
    if s != "" {
      WordsKeepInk(f, s[1..]);
      var rest := Words(f, s[1..]);
      if f.space(s[0]) {
      } else if |s| == 1 || f.space(s[1]) {
        InkOfCons(f, [s[0]], rest);
        InkOfFirst(f, s);
      } else {
        PrependKeepsInk(f, [s[0]], rest[0], rest[1..]);
        assert [rest[0]] + rest[1..] == rest;
        InkOfFirst(f, s);
      }
    }
  }

  function InkAt(f: Font, at: Filling): string {
    InkOf(f, at.done) + Ink(f, at.line)
  }

  lemma BreakKeepsInk(f: Font, at: Filling, line: string)
    ensures InkAt(f, Filling(at.done + [at.line], line)) == InkAt(f, at) + Ink(f, line)
  {
    InkOfAppend(f, at.done, [at.line]);
    InkOfOne(f, at.line);
  }

  lemma {:induction false} ChopKeepsInk(f: Font, width: nat, at: Filling, word: string)
    ensures InkAt(f, Chop(f, width, at, word)) == InkAt(f, at) + Ink(f, word)
    decreases |word|
  {
    if word != "" {
      var c := [word[0]];
      assert word == c + word[1..];
      InkAppend(f, c, word[1..]);
      if at.line != "" && Width(f, at.line) + f.columns(word[0]) > width {
        ChopKeepsInk(f, width, Filling(at.done + [at.line], c), word[1..]);
        BreakKeepsInk(f, at, c);
      } else {
        ChopKeepsInk(f, width, at.(line := at.line + c), word[1..]);
        InkAppend(f, at.line, c);
      }
    }
  }

  lemma SpaceHasNoInk(f: Font, line: string)
    requires Sane(f)
    ensures Ink(f, line + [' ']) == Ink(f, line)
  {
    InkAppend(f, line, [' ']);
    assert [' '][1..] == "";
  }

  lemma JoinKeepsInk(f: Font, line: string, word: string)
    requires Sane(f)
    ensures Ink(f, line + " " + word) == Ink(f, line) + Ink(f, word)
  {
    SpaceHasNoInk(f, line);
    assert line + " " == line + [' '];
    InkAppend(f, line + [' '], word);
  }

  lemma BegunKeepsInk(f: Font, width: nat, at: Filling, word: string)
    ensures InkAt(f, Begun(f, width, at, word)) == InkAt(f, at)
  {
    BreakKeepsInk(f, at, "");
  }

  lemma AddedKeepsInk(f: Font, at: Filling, word: string)
    requires Sane(f)
    ensures InkAt(f, Added(at, word)) == InkAt(f, at) + Ink(f, word)
  {
    if at.line != "" {
      JoinKeepsInk(f, at.line, word);
      Regroup(InkOf(f, at.done), Ink(f, at.line), Ink(f, word));
    }
  }

  lemma PutKeepsInk(f: Font, width: nat, at: Filling, word: string)
    requires Sane(f)
    ensures InkAt(f, Put(f, width, at, word)) == InkAt(f, at) + Ink(f, word)
  {
    var begun := Begun(f, width, at, word);
    BegunKeepsInk(f, width, at, word);
    if Width(f, word) > width {
      ChopKeepsInk(f, width, begun, word);
    } else {
      AddedKeepsInk(f, begun, word);
    }
  }

  lemma {:induction false} FillKeepsInk(f: Font, width: nat, at: Filling, words: seq<string>)
    requires Sane(f)
    ensures InkAt(f, Fill(f, width, at, words)) == InkAt(f, at) + InkOf(f, words)
    decreases |words|
  {
    if words != [] {
      var n := |words| - 1;
      FillKeepsInk(f, width, at, words[..n]);
      PutKeepsInk(f, width, Fill(f, width, at, words[..n]), words[n]);
    }
  }

  lemma {:induction false} WrapAllKeepsInk(f: Font, width: nat, paras: seq<string>)
    requires Sane(f)
    ensures InkOf(f, WrapAll(f, width, paras)) == InkOf(f, paras)
    decreases |paras|
  {
    if paras != [] {
      var n := |paras| - 1;
      WrapAllKeepsInk(f, width, paras[..n]);
      InkOfAppend(f, WrapAll(f, width, paras[..n]), WrapParagraph(f, width, paras[n]));
      FillKeepsInk(f, width, Filling([], ""), Words(f, paras[n]));
      WordsKeepInk(f, paras[n]);
      var end := Fill(f, width, Filling([], ""), Words(f, paras[n]));
      InkOfAppend(f, end.done, [end.line]);
      InkOfOne(f, end.line);
    }
  }

  lemma {:induction false} ParagraphsKeepInk(f: Font, text: string)
    requires Sane(f)
    ensures InkOf(f, Paragraphs(text)) == Ink(f, text)
  {
    if text == "" {
      InkOfOne(f, "");
    } else {
      ParagraphsKeepInk(f, text[1..]);
      var rest := Paragraphs(text[1..]);
      if text[0] == '\n' {
        InkOfCons(f, "", rest);
      } else {
        PrependKeepsInk(f, [text[0]], rest[0], rest[1..]);
        assert [rest[0]] + rest[1..] == rest;
        InkOfFirst(f, text);
      }
    }
  }

  /** The characters that are not white space come out as they went in, in order. */
  lemma TextIsPreserved(f: Font, width: nat, text: string)
    requires Sane(f)
    ensures InkOf(f, Wrapped(f, width, text)) == Ink(f, text)
  {
    WrapAllKeepsInk(f, AtLeastOne(width), Paragraphs(text));
    ParagraphsKeepInk(f, text);
  }

  // ----- no line ends too soon -----

  /** How a piece stands to what is before it on its line: after a space, right after it, or never on its line. */
  datatype Glue = Apart | Tight | Fresh

  /** What may not be broken any further: a word that fits, or one character of a word that does not. */
  datatype Piece = Piece(text: string, glue: Glue)

  function Letters(word: string): seq<Piece> {
    if word == "" then [] else [Piece([word[0]], Tight)] + Letters(word[1..])
  }

  /** A word that fits is one piece; one that does not starts a line and may be cut at any character. */
  function PiecesOf(f: Font, width: nat, word: string): seq<Piece> {
    if word == "" then []
    else if Width(f, word) <= width then [Piece(word, Apart)]
    else [Piece([word[0]], Fresh)] + Letters(word[1..])
  }

  function Pieces(f: Font, width: nat, words: seq<string>): seq<Piece> {
    if words == [] then [] else PiecesOf(f, width, words[0]) + Pieces(f, width, words[1..])
  }

  /** Pieces set side by side on one line. */
  function Line(ps: seq<Piece>): string {
    if ps == [] then ""
    else if |ps| == 1 then ps[0].text
    else
      var n := |ps| - 1;
      Line(ps[..n]) + (if ps[n].glue == Apart then " " else "") + ps[n].text
  }

  function Flat(lines: seq<seq<Piece>>): seq<Piece> {
    if lines == [] then [] else lines[0] + Flat(lines[1..])
  }

  /** Within the column, or a single piece too wide for it; nothing on it has to start another line. */
  predicate IsLine(f: Font, width: nat, ps: seq<Piece>) {
    ps != [] && (|ps| == 1 || Width(f, Line(ps)) <= width) && forall i :: 0 < i < |ps| ==> ps[i].glue != Fresh
  }

  /** Some way to break the pieces into lines. */
  predicate IsBreaking(f: Font, width: nat, ps: seq<Piece>, lines: seq<seq<Piece>>) {
    Flat(lines) == ps && forall i :: 0 <= i < |lines| ==> IsLine(f, width, lines[i])
  }

  /** What a piece takes up on a line already begun. */
  function Room(f: Font, p: Piece): nat {
    (if p.glue == Apart then 1 else 0) + Width(f, p.text)
  }

  predicate Breaks(f: Font, width: nat, n: nat, p: Piece) {
    p.glue == Fresh || n + Room(f, p) > width
  }

  /** Each piece onto the line being filled, `n` wide, if it may and does fit there, and else onto the next. */
  function Greedy(f: Font, width: nat, cur: seq<Piece>, n: nat, ps: seq<Piece>): seq<seq<Piece>>
    decreases |ps|
  {
    if ps == [] then [cur]
    else if cur == [] then Greedy(f, width, [ps[0]], Width(f, ps[0].text), ps[1..])
    else if Breaks(f, width, n, ps[0]) then [cur] + Greedy(f, width, [ps[0]], Width(f, ps[0].text), ps[1..])
    else Greedy(f, width, cur + [ps[0]], n + Room(f, ps[0]), ps[1..])
  }

  function Texts(lines: seq<seq<Piece>>): seq<string> {
    seq(|lines|, i requires 0 <= i < |lines| => Line(lines[i]))
  }

  lemma LineSnoc(ps: seq<Piece>, p: Piece)
    requires ps != []
    ensures Line(ps + [p]) == Line(ps) + (if p.glue == Apart then " " else "") + p.text
  {
    assert (ps + [p])[..|ps|] == ps;
  }

  lemma TextsCons(line: seq<Piece>, lines: seq<seq<Piece>>)
    ensures Texts([line] + lines) == [Line(line)] + Texts(lines)
  {
  }

  /** `at` is what there is once `cur` stands on the line being filled. */
  predicate Holds(at: Filling, cur: seq<Piece>) {
    at.line == Line(cur) && (cur != [] ==> at.line != "")
  }

  /** All lines, those done and those to come. */
  function Laid(f: Font, width: nat, at: Filling, cur: seq<Piece>, ps: seq<Piece>): seq<string> {
    at.done + Texts(Greedy(f, width, cur, Width(f, at.line), ps))
  }

  lemma BreakLays(f: Font, width: nat, at: Filling, cur: seq<Piece>, p: Piece, rest: seq<Piece>)
    requires Holds(at, cur) && cur != [] && Breaks(f, width, Width(f, at.line), p)
    ensures Laid(f, width, at, cur, [p] + rest) == Laid(f, width, Filling(at.done + [at.line], p.text), [p], rest)
  {
    assert ([p] + rest)[1..] == rest;
    TextsCons(cur, Greedy(f, width, [p], Width(f, p.text), rest));
  }

  lemma StayLays(f: Font, width: nat, at: Filling, cur: seq<Piece>, p: Piece, rest: seq<Piece>)
    requires Sane(f) && Holds(at, cur) && cur != [] && !Breaks(f, width, Width(f, at.line), p)
    ensures Laid(f, width, at, cur, [p] + rest) == Laid(f, width, at.(line := Line(cur + [p])), cur + [p], rest)
  {
    assert ([p] + rest)[1..] == rest;
    LineWidth(f, cur, p);
  }

  lemma StartLays(f: Font, width: nat, at: Filling, p: Piece, rest: seq<Piece>)
    requires Holds(at, [])
    ensures Laid(f, width, at, [], [p] + rest) == Laid(f, width, at.(line := p.text), [p], rest)
  {
    assert ([p] + rest)[1..] == rest;
  }

  lemma {:induction false} ChopLays(
      f: Font, width: nat, at: Filling, cur: seq<Piece>, word: string, rest: seq<Piece>)
    returns (after: seq<Piece>)
    requires Sane(f) && Holds(at, cur) && cur != []
    ensures Holds(Chop(f, width, at, word), after) && after != []
    ensures Laid(f, width, at, cur, Letters(word) + rest) == Laid(f, width, Chop(f, width, at, word), after, rest)
    decreases |word|
  {
    if word == "" {
      assert Letters(word) + rest == rest;
      after := cur;
    } else {
      var p := Piece([word[0]], Tight);
      var others := Letters(word[1..]) + rest;
      assert Letters(word) + rest == [p] + others;
      WidthOne(f, word[0]);
      if Breaks(f, width, Width(f, at.line), p) {
        BreakLays(f, width, at, cur, p, others);
        after := ChopLays(f, width, Filling(at.done + [at.line], p.text), [p], word[1..], rest);
      } else {
        StayLays(f, width, at, cur, p, others);
        LineSnoc(cur, p);
        assert at.line + "" == at.line;
        after := ChopLays(f, width, at.(line := at.line + p.text), cur + [p], word[1..], rest);
      }
    }
  }

  lemma PutWholeLays(f: Font, width: nat, at: Filling, cur: seq<Piece>, word: string, rest: seq<Piece>)
    returns (after: seq<Piece>)
    requires Sane(f) && Holds(at, cur) && word != "" && Width(f, word) <= width
    ensures Holds(Put(f, width, at, word), after)
    ensures Laid(f, width, at, cur, [Piece(word, Apart)] + rest) == Laid(f, width, Put(f, width, at, word), after, rest)
  {
    var p := Piece(word, Apart);
    if cur == [] {
      StartLays(f, width, at, p, rest);
      after := [p];
    } else if Breaks(f, width, Width(f, at.line), p) {
      BreakLays(f, width, at, cur, p, rest);
      after := [p];
    } else {
      StayLays(f, width, at, cur, p, rest);
      LineSnoc(cur, p);
      after := cur + [p];
    }
  }

  lemma PutCutLays(f: Font, width: nat, at: Filling, cur: seq<Piece>, word: string, rest: seq<Piece>)
    returns (after: seq<Piece>)
    requires Sane(f) && Holds(at, cur) && word != "" && Width(f, word) > width
    ensures Holds(Put(f, width, at, word), after)
    ensures Laid(f, width, at, cur, PiecesOf(f, width, word) + rest)
         == Laid(f, width, Put(f, width, at, word), after, rest)
  {
    var p := Piece([word[0]], Fresh);
    var others := Letters(word[1..]) + rest;
    var begun := Begun(f, width, at, word);
    assert PiecesOf(f, width, word) + rest == [p] + others;
    assert "" + [word[0]] == [word[0]];
    assert Chop(f, width, begun, word) == Chop(f, width, begun.(line := [word[0]]), word[1..]);
    if cur != [] {
      BreakLays(f, width, at, cur, p, others);
    } else {
      StartLays(f, width, at, p, others);
    }
    after := ChopLays(f, width, begun.(line := [word[0]]), [p], word[1..], rest);
  }

  lemma {:induction false} FillFirst(f: Font, width: nat, at: Filling, words: seq<string>)
    requires words != []
    ensures Fill(f, width, at, words) == Fill(f, width, Put(f, width, at, words[0]), words[1..])
    decreases |words|
  {
    var n := |words| - 1;
    if n > 0 {
      FillFirst(f, width, at, words[..n]);
      assert words[..n][1..] == words[1..][..n - 1];
    }
  }

  /** The fold lays the words' pieces out greedily. */
  lemma {:induction false} FillLays(f: Font, width: nat, at: Filling, cur: seq<Piece>, words: seq<string>)
    requires Sane(f) && Holds(at, cur) && AllWords(f, words)
    ensures var end := Fill(f, width, at, words);
            end.done + [end.line] == Laid(f, width, at, cur, Pieces(f, width, words))
    decreases |words|
  {
    if words != [] {
      FillFirst(f, width, at, words);
      assert IsWord(f, words[0]);
      var rest := Pieces(f, width, words[1..]);
      var after;
      if Width(f, words[0]) <= width {
        after := PutWholeLays(f, width, at, cur, words[0], rest);
      } else {
        after := PutCutLays(f, width, at, cur, words[0], rest);
      }
      FillLays(f, width, Put(f, width, at, words[0]), after, words[1..]);
    }
  }

  lemma LineWidth(f: Font, ps: seq<Piece>, p: Piece)
    requires Sane(f) && ps != []
    ensures Width(f, Line(ps + [p])) == Width(f, Line(ps)) + Room(f, p)
  {
    LineSnoc(ps, p);
    if p.glue == Apart {
      WidthJoined(f, Line(ps), p.text);
    } else {
      assert Line(ps) + "" == Line(ps);
      WidthAppend(f, Line(ps), p.text);
    }
  }

  /** Of two neighbouring lines, the first piece of the second may not or does not fit on the first. */
  predicate NoneTooSoon(f: Font, width: nat, lines: seq<seq<Piece>>) {
    forall i :: 0 < i < |lines| ==>
      lines[i] != [] && Breaks(f, width, Width(f, Line(lines[i - 1])), lines[i][0])
  }

  lemma LineGrows(f: Font, width: nat, line: seq<Piece>, p: Piece)
    requires Sane(f) && IsLine(f, width, line) && !Breaks(f, width, Width(f, Line(line)), p)
    ensures IsLine(f, width, line + [p])
  {
    LineWidth(f, line, p);
  }

  lemma {:induction false} GreedyKeepsPieces(f: Font, width: nat, cur: seq<Piece>, n: nat, ps: seq<Piece>)
    requires cur != []
    ensures Flat(Greedy(f, width, cur, n, ps)) == cur + ps
    decreases |ps|
  {
    if ps == [] {
      assert Flat([cur]) == cur + Flat([]);
    } else {
      var p, rest := ps[0], ps[1..];
      assert ps == [p] + rest;
      if Breaks(f, width, n, p) {
        var others := Greedy(f, width, [p], Width(f, p.text), rest);
        GreedyKeepsPieces(f, width, [p], Width(f, p.text), rest);
        assert ([cur] + others)[1..] == others;
      } else {
        GreedyKeepsPieces(f, width, cur + [p], n + Room(f, p), rest);
        assert (cur + [p]) + rest == cur + ps;
      }
    }
  }

  predicate AllLines(f: Font, width: nat, lines: seq<seq<Piece>>) {
    forall line :: line in lines ==> IsLine(f, width, line)
  }

  lemma {:induction false} GreedyFits(f: Font, width: nat, cur: seq<Piece>, n: nat, ps: seq<Piece>)
    requires Sane(f) && IsLine(f, width, cur) && n == Width(f, Line(cur))
    ensures AllLines(f, width, Greedy(f, width, cur, n, ps))
    decreases |ps|
  {
    if ps != [] {
      var p, rest := ps[0], ps[1..];
      if Breaks(f, width, n, p) {
        GreedyFits(f, width, [p], Width(f, p.text), rest);
      } else {
        LineGrows(f, width, cur, p);
        LineWidth(f, cur, p);
        GreedyFits(f, width, cur + [p], n + Room(f, p), rest);
      }
    }
  }

  lemma {:induction false} GreedyIsNeverTooSoon(f: Font, width: nat, cur: seq<Piece>, n: nat, ps: seq<Piece>)
    requires Sane(f) && cur != [] && n == Width(f, Line(cur))
    ensures var lines := Greedy(f, width, cur, n, ps);
            NoneTooSoon(f, width, lines) && lines != [] && cur <= lines[0]
    decreases |ps|
  {
    if ps != [] {
      var p, rest := ps[0], ps[1..];
      var w := Width(f, p.text);
      if Breaks(f, width, n, p) {
        GreedyIsNeverTooSoon(f, width, [p], w, rest);
        NotTooSoonCons(f, width, cur, Greedy(f, width, [p], w, rest), p);
      } else {
        LineWidth(f, cur, p);
        GreedyIsNeverTooSoon(f, width, cur + [p], n + Room(f, p), rest);
      }
    }
  }

  lemma NotTooSoonCons(f: Font, width: nat, line: seq<Piece>, others: seq<seq<Piece>>, p: Piece)
    requires NoneTooSoon(f, width, others) && others != [] && [p] <= others[0]
    requires Breaks(f, width, Width(f, Line(line)), p)
    ensures NoneTooSoon(f, width, [line] + others)
  {
    assert others[0][0] == p;
    var lines := [line] + others;
    forall i | 0 < i < |lines|
      ensures lines[i] != [] && Breaks(f, width, Width(f, Line(lines[i - 1])), lines[i][0])
    {
      assert lines[i] == others[i - 1] && (i > 1 ==> lines[i - 1] == others[i - 2]);
    }
  }

  /**
   What a paragraph wraps to: its pieces broken into lines within the column, and
   no line ended while what comes next could still go on it.
   */
  lemma WrapIsGreedy(f: Font, width: nat, para: string) returns (lines: seq<seq<Piece>>)
    requires Sane(f) && Words(f, para) != []
    ensures IsBreaking(f, width, Pieces(f, width, Words(f, para)), lines) && NoneTooSoon(f, width, lines)
    ensures |WrapParagraph(f, width, para)| == |lines|
    ensures forall i :: 0 <= i < |lines| ==> WrapParagraph(f, width, para)[i] == Line(lines[i])
  {
    var ps := Pieces(f, width, Words(f, para));
    WordsAreWords(f, para);
    assert IsWord(f, Words(f, para)[0]);
    lines := Greedy(f, width, [], 0, ps);
    FillLays(f, width, Filling([], ""), [], Words(f, para));
    GreedyKeepsPieces(f, width, [ps[0]], Width(f, ps[0].text), ps[1..]);
    GreedyFits(f, width, [ps[0]], Width(f, ps[0].text), ps[1..]);
    GreedyIsNeverTooSoon(f, width, [ps[0]], Width(f, ps[0].text), ps[1..]);
    assert [ps[0]] + ps[1..] == ps;
  }

  // ----- no other breaking uses fewer lines -----

  /** Lines greed uses for `ps` when a line `n` wide is already begun. */
  function CountFrom(f: Font, width: nat, n: nat, ps: seq<Piece>): nat
    decreases |ps|
  {
    if ps == [] then 1
    else if Breaks(f, width, n, ps[0]) then 1 + CountFrom(f, width, Width(f, ps[0].text), ps[1..])
    else CountFrom(f, width, n + Room(f, ps[0]), ps[1..])
  }

  lemma {:induction false} GreedyCounts(f: Font, width: nat, cur: seq<Piece>, n: nat, ps: seq<Piece>)
    requires cur != []
    ensures |Greedy(f, width, cur, n, ps)| == CountFrom(f, width, n, ps)
    decreases |ps|
  {
    if ps != [] {
      if Breaks(f, width, n, ps[0]) {
        GreedyCounts(f, width, [ps[0]], Width(f, ps[0].text), ps[1..]);
      } else {
        GreedyCounts(f, width, cur + [ps[0]], n + Room(f, ps[0]), ps[1..]);
      }
    }
  }

  /**
   Greed is monotone: starting from a wider line never helps, and starting from
   any line at all costs at most one more than starting from any other.
   */
  lemma {:induction false} GreedyMonotone(f: Font, width: nat, a: nat, b: nat, ps: seq<Piece>)
    ensures a <= b ==> CountFrom(f, width, a, ps) <= CountFrom(f, width, b, ps)
    ensures CountFrom(f, width, a, ps) <= 1 + CountFrom(f, width, b, ps)
    decreases |ps|
  {
    if ps != [] {
      var w, room, rest := Width(f, ps[0].text), Room(f, ps[0]), ps[1..];
      GreedyMonotone(f, width, a + room, b + room, rest);
      GreedyMonotone(f, width, a + room, w, rest);
      GreedyMonotone(f, width, w, b + room, rest);
    }
  }

  /** However wide the line begun, one line more at most than starting afresh. */
  lemma OneLineMore(f: Font, width: nat, n: nat, ps: seq<Piece>)
    requires ps != []
    ensures CountFrom(f, width, n, ps) <= 1 + CountFrom(f, width, Width(f, ps[0].text), ps[1..])
  {
    GreedyMonotone(f, width, n + Room(f, ps[0]), Width(f, ps[0].text), ps[1..]);
  }

  /** The width of a line, piece by piece. */
  function Measure(f: Font, ps: seq<Piece>): nat
    requires ps != []
  {
    if |ps| == 1 then Width(f, ps[0].text)
    else Measure(f, ps[..|ps| - 1]) + Room(f, ps[|ps| - 1])
  }

  lemma {:induction false} MeasureIsWidth(f: Font, ps: seq<Piece>)
    requires Sane(f) && ps != []
    ensures Measure(f, ps) == Width(f, Line(ps))
    decreases |ps|
  {
    if |ps| > 1 {
      var n := |ps| - 1;
      MeasureIsWidth(f, ps[..n]);
      assert ps[..n] + [ps[n]] == ps;
      LineWidth(f, ps[..n], ps[n]);
    }
  }

  /** Greed takes a line's worth of pieces onto one line. */
  lemma {:induction false} LineIsTakenWhole(f: Font, width: nat, first: seq<Piece>, rest: seq<Piece>)
    requires first != [] && (|first| == 1 || Measure(f, first) <= width)
    requires forall i :: 0 < i < |first| ==> first[i].glue != Fresh
    ensures CountFrom(f, width, Width(f, first[0].text), first[1..] + rest)
         == CountFrom(f, width, Measure(f, first), rest)
    decreases |first|
  {
    if |first| == 1 {
      assert first[1..] + rest == rest;
    } else {
      var n := |first| - 1;
      var init, last := first[..n], first[n];
      LineIsTakenWhole(f, width, init, [last] + rest);
      assert first[1..] + rest == init[1..] + ([last] + rest);
      CountStays(f, width, Measure(f, init), last, rest);
    }
  }

  lemma CountStays(f: Font, width: nat, n: nat, p: Piece, rest: seq<Piece>)
    requires !Breaks(f, width, n, p)
    ensures CountFrom(f, width, n, [p] + rest) == CountFrom(f, width, n + Room(f, p), rest)
  {
    assert ([p] + rest)[1..] == rest;
  }

  lemma HeadAndTail(first: seq<Piece>, rest: seq<Piece>, ps: seq<Piece>)
    requires first != [] && ps == first + rest
    ensures ps[0] == first[0] && ps[1..] == first[1..] + rest
  {
  }

  lemma OthersBreak(f: Font, width: nat, ps: seq<Piece>, lines: seq<seq<Piece>>)
    requires lines != [] && IsBreaking(f, width, ps, lines)
    ensures IsBreaking(f, width, Flat(lines[1..]), lines[1..])
  {
    forall i | 0 <= i < |lines[1..]|
      ensures IsLine(f, width, lines[1..][i])
    {
      assert lines[1..][i] == lines[i + 1];
    }
  }

  lemma {:induction false} GreedyIsBest(f: Font, width: nat, ps: seq<Piece>, lines: seq<seq<Piece>>)
    requires Sane(f) && ps != [] && IsBreaking(f, width, ps, lines)
    ensures CountFrom(f, width, Width(f, ps[0].text), ps[1..]) <= |lines|
    decreases |lines|
  {
    var rest := Flat(lines[1..]);
    assert IsLine(f, width, lines[0]);
    HeadAndTail(lines[0], rest, ps);
    OthersBreak(f, width, ps, lines);
    MeasureIsWidth(f, lines[0]);
    LineIsTakenWhole(f, width, lines[0], rest);
    if rest != [] {
      GreedyIsBest(f, width, rest, lines[1..]);
      OneLineMore(f, width, Width(f, Line(lines[0])), rest);
    }
  }

  /**
   No other breaking of a paragraph into lines uses fewer of them: words that fit
   are kept whole, and a word that does not starts a line and may be cut anywhere.
   */
  lemma WrapIsOptimal(f: Font, width: nat, para: string, lines: seq<seq<Piece>>)
    requires Sane(f) && Words(f, para) != []
    requires IsBreaking(f, width, Pieces(f, width, Words(f, para)), lines)
    ensures |WrapParagraph(f, width, para)| <= |lines|
  {
    var ps := Pieces(f, width, Words(f, para));
    WordsAreWords(f, para);
    assert IsWord(f, Words(f, para)[0]);
    FillLays(f, width, Filling([], ""), [], Words(f, para));
    GreedyCounts(f, width, [ps[0]], Width(f, ps[0].text), ps[1..]);
    GreedyIsBest(f, width, ps, lines);
  }
}
