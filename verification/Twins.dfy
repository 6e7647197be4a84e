/** The twin rule of scripts/report/scripts_gate_twin.py and its prefilter. */
module Twins {
  import opened Chars
  import opened LineMatch
  import opened StringOrder

  const TWIN_LINES: nat := 40
  const TWIN_RATIO_FLOOR: nat := 20
  const LANGUAGES: seq<string> := [".sh", ".py"]

  datatype Script = Script(rel: string, text: string)

  /** Two files that say the same lines: the figure, and the pair as a pin names it. */
  datatype Twin = Twin(path: string, other: string, figure: nat, pinPath: string)

  // ---- significant lines -----------------------------------------------------

  /** The lines that only close something. */
  const CLOSERS: set<string> := {"fi", "done", "esac", "else", "then", "do", "{", "}", "(", ")", ";;", "EOF", "pass",
                                 "\"\"\"", "'''"}

  /** What the reader of a line goes by: the digits `\d` matches and the closers. */
  datatype Reader = Reader(digit: char -> bool, closers: set<string>)

  predicate IsSignificant(r: Reader, s: string) {
    s != "" && s[0] != '#' && s !in r.closers
  }

  function Significant(r: Reader, lines: seq<string>): seq<string> {
    if lines == [] then []
    else
      var s := Strip(lines[0]);
      (if IsSignificant(r, s) then [Normalize(r.digit, s)] else []) + Significant(r, lines[1..])
  }

  function SignificantLines(r: Reader, f: Script): seq<string> {
    Significant(r, SplitLines(f.text))
  }

  /** The least number of matched lines that makes a twin: 40, or half of a smaller file of 20 lines and more. */
  function TwinThreshold(smaller: nat): (need: nat)
    ensures need <= TWIN_LINES
    ensures need < TWIN_LINES <==> TWIN_RATIO_FLOOR <= smaller < 2 * TWIN_LINES - 1
    ensures need < TWIN_LINES ==> smaller <= 2 * need <= smaller + 1
  {
    if smaller < TWIN_RATIO_FLOOR then TWIN_LINES
    else if (smaller + 1) / 2 < TWIN_LINES then (smaller + 1) / 2 else TWIN_LINES
  }

  lemma {:induction false} SplitLinesAreLines(text: string)
    ensures forall k :: 0 <= k < |SplitLines(text)| ==> OneLine(SplitLines(text)[k])
    decreases |text|
  {
    if text != "" {
      var k := LineLength(text);
      assert k == |text| ==> text[..k] == text;
      if k < |text| {
        SplitLinesAreLines(text[k + BreakWidth(text, k)..]);
      }
    }
  }

  /** A line as the figure reads it: not empty, without a line break, and already normalized. */
  ghost predicate Settled(digit: char -> bool, line: string) {
    line != "" && OneLine(line) && Normalize(digit, line) == line
  }

  ghost predicate AllSettled(digit: char -> bool, lines: seq<string>) {
    forall k :: 0 <= k < |lines| ==> Settled(digit, lines[k])
  }

  lemma {:induction false} StripKeepsOneLine(s: string)
    requires OneLine(s)
    ensures OneLine(LStrip(s)) && OneLine(Strip(s))
  {
    hide IsSpace, IsLineBreak;
    if s != "" && IsSpace(s[0]) {
      StripKeepsOneLine(s[1..]);
    }
  }

  lemma SettledOnceNormalized(digit: char -> bool, s: string)
    requires DigitTable(digit) && s != "" && OneLine(s)
    ensures Settled(digit, Normalize(digit, s))
  {
    FoldKeepsOneLine(digit, false, s);
    FoldIdempotent(digit, false, s);
  }

  lemma {:induction false} SignificantAreSettled(r: Reader, lines: seq<string>)
    requires DigitTable(r.digit)
    requires forall k :: 0 <= k < |lines| ==> OneLine(lines[k])
    ensures AllSettled(r.digit, Significant(r, lines))
  {
    hide Settled, OneLine, DigitTable, Strip, Normalize;
    if lines != [] {
      var s := Strip(lines[0]);
      StripKeepsOneLine(lines[0]);
      if s != "" { SettledOnceNormalized(r.digit, s); }
      SignificantAreSettled(r, lines[1..]);
    }
  }

  lemma ScriptLinesAreSettled(r: Reader, f: Script)
    requires DigitTable(r.digit)
    ensures AllSettled(r.digit, SignificantLines(r, f))
  {
    SplitLinesAreLines(f.text);
    SignificantAreSettled(r, SplitLines(f.text));
  }

  /** Joining settled lines, normalizing the text and splitting it gives the same lines: the count
      over the lists and the figure over the texts see one thing. */
  lemma SettledLinesReadBack(digit: char -> bool, lines: seq<string>)
    requires DigitTable(digit) && AllSettled(digit, lines)
    ensures SplitLines(Normalize(digit, Join(lines))) == lines
  {
    SplitUndoesJoin(lines);
    NormalizeIsLineLocal(digit, Join(lines));
    assert NormalizeAll(digit, lines) == lines;
  }

  /** The figure measured over joined texts is the figure over the lists, and the lists share at least as much. */
  lemma FigureIsBounded(digit: char -> bool, a: seq<string>, b: seq<string>)
    requires DigitTable(digit) && AllSettled(digit, a) && AllSettled(digit, b)
    ensures MatchedLines(digit, Join(a), Join(b)) == MatchedOf(a, b) <= Shared(a, b)
  {
    SettledLinesReadBack(digit, a);
    SettledLinesReadBack(digit, b);
    MatchedIsShared(a, b);
  }

  // ---- the files of one language ---------------------------------------------

  predicate EndsWith(s: string, suffix: string) {
    |suffix| <= |s| && s[|s| - |suffix|..] == suffix
  }

  function OfLanguage(files: seq<Script>, language: string): seq<Script> {
    if files == [] then []
    else (if EndsWith(files[0].rel, language) then [files[0]] else []) + OfLanguage(files[1..], language)
  }

  function Rel(f: Script): string {
    f.rel
  }

  function Group(files: seq<Script>, language: string): seq<Script> {
    SortBy(Rel, OfLanguage(files, language))
  }

  type Table = map<string, seq<string>>

  /** `{f.rel: significant_lines(f) for f in group}`: of equal keys the last one stays. */
  function LinesByRel(r: Reader, group: seq<Script>): (t: Table)
    ensures forall k :: 0 <= k < |group| ==> group[k].rel in t
  {
    if group == [] then map[]
    else
      var f := group[|group| - 1];
      LinesByRel(r, group[..|group| - 1])[f.rel := SignificantLines(r, f)]
  }

  lemma {:induction false} TableIsSettled(r: Reader, group: seq<Script>)
    requires DigitTable(r.digit)
    ensures forall rel :: rel in LinesByRel(r, group) ==> AllSettled(r.digit, LinesByRel(r, group)[rel])
  {
    if group != [] {
      TableIsSettled(r, group[..|group| - 1]);
      ScriptLinesAreSettled(r, group[|group| - 1]);
    }
  }

  // ---- the rule --------------------------------------------------------------

  ghost predicate Covers(lines: Table, group: seq<Script>) {
    forall k :: 0 <= k < |group| ==> group[k].rel in lines
  }

  /** What the rule says of one pair, read off the two lists of lines alone. */
  function TwinOf(lines: Table, f: Script, g: Script): seq<Twin>
    requires f.rel in lines && g.rel in lines
  {
    var a, b := lines[f.rel], lines[g.rel];
    var figure := MatchedOf(a, b);
    if figure >= TwinThreshold(if |b| < |a| then |b| else |a|) then
      [Twin(f.rel, g.rel, figure, f.rel + "+" + g.rel)]
    else []
  }

  /** Every pair of `i` with a later file, from `j` on. */
  function Row(lines: Table, group: seq<Script>, i: nat, j: nat): seq<Twin>
    requires i < |group| && j <= |group| && Covers(lines, group)
    decreases |group| - j
  {
    if j == |group| then [] else TwinOf(lines, group[i], group[j]) + Row(lines, group, i, j + 1)
  }

  function Rows(lines: Table, group: seq<Script>, i: nat): seq<Twin>
    requires i <= |group| && Covers(lines, group)
    decreases |group| - i
  {
    if i == |group| then [] else Row(lines, group, i, i + 1) + Rows(lines, group, i + 1)
  }

  /** The rule without its prefilter: every pair of every language is measured. */
  function Twins(r: Reader, files: seq<Script>, languages: seq<string>): seq<Twin> {
    if languages == [] then []
    else
      var group := Group(files, languages[0]);
      Rows(LinesByRel(r, group), group, 0) + Twins(r, files, languages[1..])
  }

  /** The pairs of file `i` with later ones; a pair under the bound is skipped unmeasured. */
  method TwinsOfFile(digit: char -> bool, lines: Table, group: seq<Script>, i: nat) returns (out: seq<Twin>)
    requires i < |group| && Covers(lines, group)
    requires DigitTable(digit) && forall rel :: rel in lines ==> AllSettled(digit, lines[rel])
    ensures out == Row(lines, group, i, i + 1)
  {
    hide MatchedOf, MatchedLines, Settled, DigitTable, TwinThreshold;
    out := [];
    for j := i + 1 to |group|
      invariant Row(lines, group, i, i + 1) == out + Row(lines, group, i, j)
    {
      var a, b := lines[group[i].rel], lines[group[j].rel];
      FigureIsBounded(digit, a, b);
      var need := TwinThreshold(if |b| < |a| then |b| else |a|);
      if |multiset(a) * multiset(b)| < need {
        continue;
      }
      var matched := MatchedLines(digit, Join(a), Join(b));
      if matched >= need {
        Associates(out, [Twin(group[i].rel, group[j].rel, matched, group[i].rel + "+" + group[j].rel)],
                   Row(lines, group, i, j + 1));
        out := out + [Twin(group[i].rel, group[j].rel, matched, group[i].rel + "+" + group[j].rel)];
      }
    }
  }

  method TableOf(r: Reader, group: seq<Script>) returns (lines: Table)
    ensures lines == LinesByRel(r, group)
  {
    hide SignificantLines;
    lines := map[];
    for k := 0 to |group|
      invariant lines == LinesByRel(r, group[..k])
    {
      assert group[..k + 1][..k] == group[..k];
      lines := lines[group[k].rel := SignificantLines(r, group[k])];
    }
    assert group[..|group|] == group;
  }

  method TwinsOfGroup(r: Reader, group: seq<Script>) returns (out: seq<Twin>)
    requires DigitTable(r.digit)
    ensures out == Rows(LinesByRel(r, group), group, 0)
  {
    hide AllSettled, Row, DigitTable;
    var lines := TableOf(r, group);
    TableIsSettled(r, group);
    hide LinesByRel;
    out := [];
    for i := 0 to |group|
      invariant Rows(lines, group, 0) == out + Rows(lines, group, i)
    {
      var row := TwinsOfFile(r.digit, lines, group, i);
      Associates(out, row, Rows(lines, group, i + 1));
      out := out + row;
    }
  }

  method TwinsOfLanguages(r: Reader, files: seq<Script>, languages: seq<string>) returns (out: seq<Twin>)
    requires DigitTable(r.digit)
    ensures out == Twins(r, files, languages)
  {
    out := [];
    for k := 0 to |languages|
      invariant Twins(r, files, languages) == out + Twins(r, files, languages[k..])
    {
      hide Rows, DigitTable, LinesByRel, Group;
      assert languages[k..][0] == languages[k] && languages[k..][1..] == languages[k + 1..];
      var more := TwinsOfGroup(r, Group(files, languages[k]));
      Associates(out, more, Twins(r, files, languages[k + 1..]));
      out := out + more;
    }
  }

  /** The prefilter loses nothing: the rule yields what the version without it yields. */
  method RuleTwin(digit: char -> bool, files: seq<Script>) returns (out: seq<Twin>)
    requires DigitTable(digit)
    ensures out == Twins(Reader(digit, CLOSERS), files, LANGUAGES)
  {
    out := TwinsOfLanguages(Reader(digit, CLOSERS), files, LANGUAGES);
  }

  /** The files of a language, each as often as it is listed, in the order of their paths: one name for each pair. */
  lemma GroupIsSorted(files: seq<Script>, language: string)
    ensures SortedBy(Rel, Group(files, language))
    ensures multiset(Group(files, language)) == multiset(OfLanguage(files, language))
  {
    SortBySorts(Rel, OfLanguage(files, language));
  }
}
