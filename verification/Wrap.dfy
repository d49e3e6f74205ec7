/** Highlighted captions: cut a text into runs at the matched names, then wrap the runs greedily, character by
    character. */
module Wrap {
  /** A drawn character and whether it belongs to a highlighted name. */
  datatype Mark = Mark(ch: char, isEntity: bool)

  datatype Match = Match(start: nat, end: nat)

  datatype Chunk = Chunk(text: string, isEntity: bool)

  // ----- tokenizing -----

  /** What the regular expression engine promises: nonempty matches, left to right, disjoint. */
  predicate Scanned(text: string, matches: seq<Match>) {
    && (forall k :: 0 <= k < |matches| ==> matches[k].start < matches[k].end <= |text|)
    && (forall k, l :: 0 <= k < l < |matches| ==> matches[k].end <= matches[l].start)
  }

  predicate Highlighted(matches: seq<Match>, p: nat) {
    exists k :: 0 <= k < |matches| && matches[k].start <= p < matches[k].end
  }

  function MarksOf(chunk: Chunk): (marks: seq<Mark>)
    ensures |marks| == |chunk.text|
  {
    seq(|chunk.text|, k requires 0 <= k < |chunk.text| => Mark(chunk.text[k], chunk.isEntity))
  }

  /** The characters of all runs in order. */
  function Flat(runs: seq<Chunk>): seq<Mark> {
    if runs == [] then [] else Flat(runs[..|runs| - 1]) + MarksOf(runs[|runs| - 1])
  }

  /** The text with every character marked by whether a match covers it. */
  function Marked(text: string, matches: seq<Match>, upTo: nat): (marks: seq<Mark>)
    requires upTo <= |text|
    ensures |marks| == upTo
  {
    seq(upTo, p requires 0 <= p < upTo => Mark(text[p], Highlighted(matches, p)))
  }

  lemma FlatAppend(runs: seq<Chunk>, run: Chunk)
    ensures Flat(runs + [run]) == Flat(runs) + MarksOf(run)
  {
    assert (runs + [run])[..|runs|] == runs;
  }

  lemma NothingFlat(text: string, matches: seq<Match>)
    ensures Flat([]) == Marked(text, matches, 0) == []
  {}

  /** A stretch of the text between two positions is one run when no position in it, or every one, is covered. */
  lemma Stretch(text: string, matches: seq<Match>, from: nat, to: nat, isEntity: bool)
    requires from <= to <= |text|
    requires forall p: nat :: from <= p < to ==> (Highlighted(matches, p) <==> isEntity)
    ensures Marked(text, matches, from) + MarksOf(Chunk(text[from..to], isEntity)) == Marked(text, matches, to)
  {
    hide Highlighted;
  }

  /** `tokenize_highlight`: without terms the whole text is one plain run; otherwise the runs cut at the matches. */
  method TokenizeHighlight(text: string, terms: set<string>, matches: seq<Match>) returns (runs: seq<Chunk>)
    requires Scanned(text, matches) && (terms == {} ==> matches == [])
    ensures Flat(runs) == Marked(text, matches, |text|)
    ensures terms != {} ==> forall r :: r in runs ==> r.text != ""
  {
    hide Highlighted, Marked, MarksOf, Flat;
    NothingFlat(text, matches);
    runs := [];
    if terms == {} {
      assert [] + [Chunk(text, false)] == [Chunk(text, false)] && text[0..|text|] == text;
      FlatAppend([], Chunk(text, false));
      Between(text, matches, 0, 0, |text|);
      Stretch(text, matches, 0, |text|, false);
      return [Chunk(text, false)];
    }
    var pos := 0;
    for k := 0 to |matches|
      invariant pos <= |text| && pos == if k == 0 then 0 else matches[k - 1].end
      invariant Flat(runs) == Marked(text, matches, pos)
      invariant forall r :: r in runs ==> r.text != ""
    {
      var m := matches[k];
      Between(text, matches, k, pos, m.start);
      if m.start > pos {
        Stretch(text, matches, pos, m.start, false);
        FlatAppend(runs, Chunk(text[pos..m.start], false));
        runs := runs + [Chunk(text[pos..m.start], false)];
      }
      Inside(text, matches, k);
      Stretch(text, matches, m.start, m.end, true);
      FlatAppend(runs, Chunk(text[m.start..m.end], true));
      runs := runs + [Chunk(text[m.start..m.end], true)];
      pos := m.end;
    }
    if pos < |text| {
      Between(text, matches, |matches|, pos, |text|);
      assert text[pos..|text|] == text[pos..];
      Stretch(text, matches, pos, |text|, false);
      FlatAppend(runs, Chunk(text[pos..], false));
      runs := runs + [Chunk(text[pos..], false)];
    }
  }

  /** Nothing between the end of one match and the start of the next is covered. */
  lemma Between(text: string, matches: seq<Match>, k: nat, from: nat, to: nat)
    requires Scanned(text, matches) && k <= |matches|
    requires from == if k == 0 then 0 else matches[k - 1].end
    requires to == if k == |matches| then |text| else matches[k].start
    ensures from <= to && forall p: nat :: from <= p < to ==> !Highlighted(matches, p)
  {
    forall p: nat | from <= p < to ensures !Highlighted(matches, p) {
      forall l | 0 <= l < |matches| ensures !(matches[l].start <= p < matches[l].end) {
        if l < k { assert l < k - 1 ==> matches[l].end <= matches[k - 1].start; }
        if l > k { assert matches[k].end <= matches[l].start; }
      }
    }
  }

  lemma Inside(text: string, matches: seq<Match>, k: nat)
    requires Scanned(text, matches) && k < |matches|
    ensures forall p: nat :: matches[k].start <= p < matches[k].end ==> Highlighted(matches, p)
  {}

  // ----- wrapping -----

  type Font = char -> real

  ghost predicate Measures(font: Font) { forall c :: font(c) >= 0.0 }

  function Width(font: Font, line: seq<Mark>): real {
    if line == [] then 0.0 else Width(font, line[..|line| - 1]) + font(line[|line| - 1].ch)
  }

  function Last(lines: seq<seq<Mark>>): seq<Mark>
    requires lines != []
  {
    lines[|lines| - 1]
  }

  /** One character added to a layout: a newline opens an empty line; otherwise `cut` says whether the
      character opens a new line or goes to the end of the last. */
  function Put(lines: seq<seq<Mark>>, m: Mark, cut: bool): (r: seq<seq<Mark>>)
    requires lines != []
    ensures r != []
  {
    if m.ch == '\n' then lines + [[]]
    else if cut then lines + [[m]]
    else lines[..|lines| - 1] + [Last(lines) + [m]]
  }

  /** The layout that breaks, besides the newlines, exactly before the characters chosen. */
  function LayoutBy(marks: seq<Mark>, choices: seq<bool>): (lines: seq<seq<Mark>>)
    requires |choices| == |marks|
    ensures lines != []
  {
    if marks == [] then [[]]
    else Put(LayoutBy(marks[..|marks| - 1], choices[..|marks| - 1]), marks[|marks| - 1], choices[|marks| - 1])
  }

  /** Greedy: a new line exactly when the last one is not empty and has no room. */
  predicate NoRoom(font: Font, maxW: real, line: seq<Mark>, m: Mark) {
    Width(font, line) + font(m.ch) > maxW && line != []
  }

  function Layout(font: Font, maxW: real, marks: seq<Mark>): (lines: seq<seq<Mark>>)
    ensures lines != []
  {
    if marks == [] then [[]]
    else
      var lines := Layout(font, maxW, marks[..|marks| - 1]);
      Put(lines, marks[|marks| - 1], NoRoom(font, maxW, Last(lines), marks[|marks| - 1]))
  }

  /** A line is legal when it fits or cannot be cut. */
  predicate Legal(font: Font, maxW: real, line: seq<Mark>) { Width(font, line) <= maxW || |line| <= 1 }

  predicate AllLegal(font: Font, maxW: real, lines: seq<seq<Mark>>) {
    forall k :: 0 <= k < |lines| ==> Legal(font, maxW, lines[k])
  }

  /** A newline ends its line for good: what comes before it and what comes after it are laid out each on its own. */
  lemma {:induction false} NewlineSplits(marks: seq<Mark>, choices: seq<bool>, k: nat)
    requires |choices| == |marks| && k < |marks| && marks[k].ch == '\n'
    ensures LayoutBy(marks, choices)
            == LayoutBy(marks[..k], choices[..k]) + LayoutBy(marks[k + 1..], choices[k + 1..])
    decreases |marks|
  {
    hide LayoutBy, Put;
    var n := |marks| - 1;
    LayoutStep(marks, choices);
    if k == n {
      NewlineOpens(LayoutBy(marks[..n], choices[..n]), marks[n], choices[n]);
      NothingLaid(marks[k + 1..], choices[k + 1..]);
    } else {
      NewlineSplits(marks[..n], choices[..n], k);
      var tail, tails := marks[k + 1..], choices[k + 1..];
      assert marks[..n][..k] == marks[..k] && choices[..n][..k] == choices[..k];
      assert marks[..n][k + 1..] == tail[..|tail| - 1] && choices[..n][k + 1..] == tails[..|tail| - 1];
      LayoutStep(tail, tails);
      PutLater(LayoutBy(marks[..k], choices[..k]), LayoutBy(tail[..|tail| - 1], tails[..|tail| - 1]), marks[n], choices[n]);
    }
  }

  lemma LayoutStep(marks: seq<Mark>, choices: seq<bool>)
    requires |choices| == |marks| && marks != []
    ensures var n := |marks| - 1;
            LayoutBy(marks, choices) == Put(LayoutBy(marks[..n], choices[..n]), marks[n], choices[n])
  {}

  lemma NewlineOpens(lines: seq<seq<Mark>>, m: Mark, cut: bool)
    requires lines != [] && m.ch == '\n'
    ensures Put(lines, m, cut) == lines + [[]]
  {}

  lemma NothingLaid(marks: seq<Mark>, choices: seq<bool>)
    requires marks == [] && choices == []
    ensures LayoutBy(marks, choices) == [[]]
  {}

  lemma PutLater(a: seq<seq<Mark>>, b: seq<seq<Mark>>, m: Mark, cut: bool)
    requires b != []
    ensures Put(a + b, m, cut) == a + Put(b, m, cut)
  {
    assert (a + b)[..|a + b| - 1] == a + b[..|b| - 1];
  }

  ghost function Breaks(marks: seq<Mark>, choices: seq<bool>): set<nat>
    requires |choices| == |marks|
  {
    set k: nat | k < |marks| && (marks[k].ch == '\n' || choices[k])
  }

  /** One line more than there are newlines and breaks. */
  lemma {:induction false} LinesAreCounted(marks: seq<Mark>, choices: seq<bool>)
    requires |choices| == |marks|
    ensures |LayoutBy(marks, choices)| == |Breaks(marks, choices)| + 1
  {
    hide Breaks;
    BreaksStep(marks, choices);
    if marks != [] { LinesAreCounted(marks[..|marks| - 1], choices[..|marks| - 1]); }
  }

  lemma BreaksStep(marks: seq<Mark>, choices: seq<bool>)
    requires |choices| == |marks|
    ensures marks == [] ==> |Breaks(marks, choices)| == 0
    ensures marks != [] ==>
              var n := |marks| - 1;
              |Breaks(marks, choices)| == |Breaks(marks[..n], choices[..n])| + (if marks[n].ch == '\n' || choices[n] then 1 else 0)
  {
    if marks == [] {
      assert Breaks(marks, choices) == {};
    } else {
      var n := |marks| - 1;
      var was := Breaks(marks[..n], choices[..n]);
      assert n !in was;
      assert Breaks(marks, choices) == if marks[n].ch == '\n' || choices[n] then was + {n} else was;
    }
  }

  function WithoutNewlines(marks: seq<Mark>): seq<Mark> {
    if marks == [] then []
    else WithoutNewlines(marks[..|marks| - 1])
         + (if marks[|marks| - 1].ch == '\n' then [] else [marks[|marks| - 1]])
  }

  function Concat(lines: seq<seq<Mark>>): seq<Mark> {
    if lines == [] then [] else Concat(lines[..|lines| - 1]) + lines[|lines| - 1]
  }

  lemma PutConcat(lines: seq<seq<Mark>>, m: Mark, cut: bool)
    requires lines != []
    ensures Concat(Put(lines, m, cut)) == Concat(lines) + (if m.ch == '\n' then [] else [m])
  {
    var r := Put(lines, m, cut);
    if m.ch == '\n' || cut {
      assert r[..|r| - 1] == lines;
    } else {
      assert r[..|r| - 1] == lines[..|lines| - 1];
    }
  }

  /** Every layout keeps the text: all that is lost are the newlines. */
  lemma {:induction false} LayoutsAreLossless(marks: seq<Mark>, choices: seq<bool>)
    requires |choices| == |marks|
    ensures Concat(LayoutBy(marks, choices)) == WithoutNewlines(marks)
  {
    hide Put;
    if marks == [] {
      var one: seq<seq<Mark>> := [[]];
      assert one[..0] == [];
    } else {
      var n := |marks| - 1;
      LayoutsAreLossless(marks[..n], choices[..n]);
      PutConcat(LayoutBy(marks[..n], choices[..n]), marks[n], choices[n]);
    }
  }

  /** What the greedy layout chose. */
  function GreedyChoices(font: Font, maxW: real, marks: seq<Mark>): (choices: seq<bool>)
    ensures |choices| == |marks|
    ensures LayoutBy(marks, choices) == Layout(font, maxW, marks)
  {
    if marks == [] then []
    else
      var n := |marks| - 1;
      var before := GreedyChoices(font, maxW, marks[..n]);
      var choices := before + [NoRoom(font, maxW, Last(Layout(font, maxW, marks[..n])), marks[n])];
      assert choices[..n] == before;
      choices
  }

  lemma OneWide(font: Font, m: Mark)
    ensures Width(font, [m]) == font(m.ch)
  {
    assert [m][..0] == [];
    assert Width(font, []) == 0.0;
  }

  lemma WidthAppend(font: Font, line: seq<Mark>, m: Mark)
    ensures Width(font, line + [m]) == Width(font, line) + font(m.ch)
  {
    assert (line + [m])[..|line|] == line;
  }

  /** Every line of the greedy layout fits or is a single character. */
  lemma {:induction false} GreedyIsLegal(font: Font, maxW: real, marks: seq<Mark>)
    ensures AllLegal(font, maxW, Layout(font, maxW, marks))
  {
    hide Width;
    if marks != [] {
      var n := |marks| - 1;
      GreedyIsLegal(font, maxW, marks[..n]);
      var lines := Layout(font, maxW, marks[..n]);
      WidthAppend(font, Last(lines), marks[n]);
    }
  }

  // ----- greedy is optimal -----

  /** The last line of any layout is a stretch at the end of the text. */
  lemma {:induction false} LastIsSuffix(marks: seq<Mark>, choices: seq<bool>)
    requires |choices| == |marks|
    ensures var last := Last(LayoutBy(marks, choices)); |last| <= |marks| && last == marks[|marks| - |last|..]
  {
    if marks != [] {
      var n := |marks| - 1;
      LastIsSuffix(marks[..n], choices[..n]);
    }
  }

  lemma {:induction false} WiderSuffix(font: Font, marks: seq<Mark>, a: nat, b: nat)
    requires Measures(font) && a <= b <= |marks|
    ensures Width(font, marks[b..]) <= Width(font, marks[a..])
    decreases |marks|
  {
    if b == |marks| {
      WidthNonNegative(font, marks[a..]);
    } else {
      var n := |marks| - 1;
      WiderSuffix(font, marks[..n], a, b);
      assert marks[a..][..n - a] == marks[..n][a..] && marks[b..][..n - b] == marks[..n][b..];
    }
  }

  lemma {:induction false} WidthNonNegative(font: Font, line: seq<Mark>)
    requires Measures(font)
    ensures Width(font, line) >= 0.0
  {
    if line != [] { WidthNonNegative(font, line[..|line| - 1]); }
  }

  lemma PutShortens(font: Font, maxW: real, lines: seq<seq<Mark>>, m: Mark, cut: bool)
    requires Measures(font) && lines != [] && AllLegal(font, maxW, Put(lines, m, cut))
    ensures AllLegal(font, maxW, lines)
  {
    hide Width;
    var r := Put(lines, m, cut);
    WidthAppend(font, Last(lines), m);
    forall k | 0 <= k < |lines| ensures Legal(font, maxW, lines[k]) {
      if k < |lines| - 1 || m.ch == '\n' || cut {
        assert lines[k] == r[k];
      } else {
        assert r[k] == lines[k] + [m];
        assert Legal(font, maxW, r[k]);
      }
    }
  }

  /** No other breaking into legal lines, with the same newlines, has fewer lines; and one with as many lines has
      at least as much on its last. */
  lemma {:induction false} GreedyIsOptimal(font: Font, maxW: real, marks: seq<Mark>, choices: seq<bool>)
    requires Measures(font) && |choices| == |marks| && AllLegal(font, maxW, LayoutBy(marks, choices))
    ensures var greedy, other := Layout(font, maxW, marks), LayoutBy(marks, choices);
            |greedy| <= |other| && (|greedy| == |other| ==> |Last(greedy)| <= |Last(other)|)
  {
    hide Width, AllLegal, NoRoom;
    if marks != [] {
      var n := |marks| - 1;
      var other := LayoutBy(marks[..n], choices[..n]);
      var greedy := Layout(font, maxW, marks[..n]);
      PutShortens(font, maxW, other, marks[n], choices[n]);
      GreedyIsOptimal(font, maxW, marks[..n], choices[..n]);
      if marks[n].ch != '\n' && NoRoom(font, maxW, Last(greedy), marks[n]) && |greedy| == |other| {
        NoRoomEither(font, maxW, marks, choices);
      }
    }
  }

  /** Where greedy had to break, a layout with as many lines and no less on its last one breaks too. */
  lemma NoRoomEither(font: Font, maxW: real, marks: seq<Mark>, choices: seq<bool>)
    requires Measures(font) && |choices| == |marks| && marks != [] && marks[|marks| - 1].ch != '\n'
    requires AllLegal(font, maxW, LayoutBy(marks, choices))
    requires var n := |marks| - 1;
             var greedy, other := Last(Layout(font, maxW, marks[..n])), Last(LayoutBy(marks[..n], choices[..n]));
             NoRoom(font, maxW, greedy, marks[n]) && |greedy| <= |other|
    ensures choices[|marks| - 1]
  {
    hide Layout, Width, AllLegal;
    var n := |marks| - 1;
    var greedy, other := Last(Layout(font, maxW, marks[..n])), Last(LayoutBy(marks[..n], choices[..n]));
    GreedyChoicesSuffix(font, maxW, marks[..n]);
    LastIsSuffix(marks[..n], choices[..n]);
    WiderSuffix(font, marks[..n], n - |other|, n - |greedy|);
    assert !choices[n] ==> Last(LayoutBy(marks, choices)) == other + [marks[n]];
    LastIsLegal(font, maxW, LayoutBy(marks, choices));
    TooWide(font, maxW, other, marks[n]);
  }

  lemma LastIsLegal(font: Font, maxW: real, lines: seq<seq<Mark>>)
    requires lines != [] && AllLegal(font, maxW, lines)
    ensures Legal(font, maxW, Last(lines))
  {}

  lemma TooWide(font: Font, maxW: real, line: seq<Mark>, m: Mark)
    requires NoRoom(font, maxW, line, m)
    ensures !Legal(font, maxW, line + [m])
  {
    WidthAppend(font, line, m);
  }

  lemma GreedyChoicesSuffix(font: Font, maxW: real, marks: seq<Mark>)
    ensures var last := Last(Layout(font, maxW, marks)); |last| <= |marks| && last == marks[|marks| - |last|..]
  {
    LastIsSuffix(marks, GreedyChoices(font, maxW, marks));
  }

  // ----- the loop -----

  /** `layout_runs` */
  method LayoutRuns(runs: seq<Chunk>, font: Font, maxW: real) returns (lines: seq<seq<Mark>>)
    ensures lines == Layout(font, maxW, Flat(runs))
  {
    hide Width;
    lines := [[]];
    var w := 0.0;
    EmptyWidth(font);
    for k := 0 to |runs|
      invariant lines == Layout(font, maxW, Flat(runs[..k])) && lines != [] && w == Width(font, Last(lines))
    {
      assert runs[..k + 1][..k] == runs[..k];
      lines, w := LayoutRun(runs[k], font, maxW, Flat(runs[..k]), lines, w);
    }
    assert runs[..|runs|] == runs;
  }

  /** The characters of one run. */
  method LayoutRun(run: Chunk, font: Font, maxW: real, ghost before: seq<Mark>, soFar: seq<seq<Mark>>, width: real)
    returns (lines: seq<seq<Mark>>, w: real)
    requires soFar == Layout(font, maxW, before) && soFar != [] && width == Width(font, Last(soFar))
    ensures lines == Layout(font, maxW, before + MarksOf(run)) && lines != [] && w == Width(font, Last(lines))
  {
    hide Width, Layout, MarksOf;
    lines, w := soFar, width;
    ghost var marks := MarksOf(run);
    assert before + marks[..0] == before;
    for i := 0 to |run.text|
      invariant lines == Layout(font, maxW, before + marks[..i]) && lines != [] && w == Width(font, Last(lines))
    {
      var m := Mark(run.text[i], run.isEntity);
      MarkAt(run, i);
      LayoutNext(font, maxW, before, marks, i);
      PutWidth(font, lines, m);
      if m.ch == '\n' {
        lines := lines + [[]];
        w := 0.0;
      } else {
        var cw := font(m.ch);
        if w + cw > maxW && Last(lines) != [] {
          lines := lines + [[]];
          w := 0.0;
        }
        lines := lines[..|lines| - 1] + [Last(lines) + [m]];
        w := w + cw;
      }
    }
    assert marks[..|marks|] == marks;
  }

  lemma MarkAt(run: Chunk, i: nat)
    requires i < |run.text|
    ensures MarksOf(run)[i] == Mark(run.text[i], run.isEntity)
  {}

  lemma PutWidth(font: Font, lines: seq<seq<Mark>>, m: Mark)
    requires lines != []
    ensures Width(font, []) == 0.0 && Width(font, [m]) == 0.0 + font(m.ch)
    ensures Width(font, Last(lines) + [m]) == Width(font, Last(lines)) + font(m.ch)
    ensures (lines + [[]])[..|lines|] == lines && [] + [m] == [m]
  {
    EmptyWidth(font);
    OneWide(font, m);
    WidthAppend(font, Last(lines), m);
  }

  lemma EmptyWidth(font: Font)
    ensures Width(font, []) == 0.0
  {}

  lemma LayoutNext(font: Font, maxW: real, before: seq<Mark>, marks: seq<Mark>, i: nat)
    requires i < |marks|
    ensures var lines := Layout(font, maxW, before + marks[..i]);
            Layout(font, maxW, before + marks[..i + 1])
            == Put(lines, marks[i], NoRoom(font, maxW, Last(lines), marks[i]))
  {
    hide Put, NoRoom;
    var all := before + marks[..i + 1];
    assert all[..|all| - 1] == before + marks[..i];
  }

  /** A caption from text to lines: nothing but newlines is lost, highlights included, every line is legal, and no
      legal layout has fewer lines. */
  method Caption(text: string, terms: set<string>, matches: seq<Match>, font: Font, maxW: real)
    returns (lines: seq<seq<Mark>>)
    requires Scanned(text, matches) && (terms == {} ==> matches == []) && Measures(font)
    ensures Concat(lines) == WithoutNewlines(Marked(text, matches, |text|))
    ensures AllLegal(font, maxW, lines)
    ensures forall choices: seq<bool> :: |choices| == |text| ==>
              var other := LayoutBy(Marked(text, matches, |text|), choices);
              AllLegal(font, maxW, other) ==> |lines| <= |other|
  {
    hide AllLegal, LayoutBy, Layout, Marked, Scanned;
    var runs := TokenizeHighlight(text, terms, matches);
    lines := LayoutRuns(runs, font, maxW);
    ghost var marks := Marked(text, matches, |text|);
    LayoutsAreLossless(marks, GreedyChoices(font, maxW, marks));
    GreedyIsLegal(font, maxW, marks);
    forall choices: seq<bool> | |choices| == |text| && AllLegal(font, maxW, LayoutBy(marks, choices))
      ensures |lines| <= |LayoutBy(marks, choices)|
    {
      GreedyIsOptimal(font, maxW, marks, choices);
    }
  }
}
