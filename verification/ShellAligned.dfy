/** Where `clean_shell` keeps positions: one entry for every physical line, no longer than
    it, and at every column the source character or a space. */
module ShellAligned {
  import opened Chars
  import opened ShellText

  /** `entry` can stand in for `line`: a column of the one is a column of the other. */
  predicate Overlay(entry: string, line: string) {
    |entry| <= |line| && forall k :: 0 <= k < |entry| ==> entry[k] == line[k] || entry[k] == ' '
  }

  predicate AllOverlay(entries: seq<string>, lines: seq<string>) {
    |entries| == |lines| && forall k :: 0 <= k < |entries| ==> Overlay(entries[k], lines[k])
  }

  /** The promise of the reader: entry number k is physical line number k. */
  predicate Aligned(text: string, entries: seq<string>) {
    AllOverlay(entries, Lines(text))
  }

  /** The scan reads a here-document opener whose tag sits on a later line. */
  predicate SplitsTag(text: string, s: Scan) {
    && s.i < |text| && s.quote == Bare && OpensHeredoc(text, s)
    && !NoBreak(text, s.i, HeredocOpener(text, s.i).value.end)
  }

  /** The scan skips here-document bodies up to the end of a text whose last line is not terminated. */
  predicate Overruns(text: string, s: Scan) {
    && s.i < |text| && text[s.i] == '\n' && s.quote == Bare && s.pending != []
    && SkipBodies(text, s.i + 1, s.pending).i == |text| && text[|text| - 1] != '\n'
  }

  /** The run from `s` meets one of the two. */
  predicate Trips(text: string, o: Options, s: Scan)
    requires s.i <= |text|
    decreases |text| - s.i
  {
    s.i < |text| &&
    (SplitsTag(text, s) || Overruns(text, s) ||
     (StepAdvances(text, o, s); Trips(text, o, Step(text, o, s))))
  }

  // ---- the invariant of one step ---------------------------------------------

  predicate Grid(text: string, s: Scan) {
    s.i <= |text| && AllOverlay(s.lines + [s.out], LinesTo(text, s.i))
  }

  /** The current entry reaches the current column, unless a comment was dropped from it. */
  predicate Inv(text: string, s: Scan) {
    && Grid(text, s)
    && (s.i == |text| || text[s.i] == '\n' || |s.out| == |LinesTo(text, s.i)[|s.lines|]|)
  }

  predicate Tight(text: string, s: Scan) {
    Grid(text, s) && |s.out| == |LinesTo(text, s.i)[|s.lines|]|
  }

  /** The current entry grows by a stand-in for source text that holds no line break. */
  lemma Grow(text: string, s: Scan, t: Scan, more: string)
    requires Tight(text, s) && s.i <= t.i <= |text|
    requires NoBreak(text, s.i, t.i)
    requires |more| == t.i - s.i && Overlay(more, text[s.i..t.i])
    requires t.lines == s.lines && t.out == s.out + more
    ensures Tight(text, t)
  {
    LinesExtend(text, s.i, t.i);
    var p := LinesTo(text, s.i);
    var last := p[|p| - 1];
    forall k | 0 <= k < |t.out|
      ensures t.out[k] == (last + text[s.i..t.i])[k] || t.out[k] == ' '
    {
      if k >= |s.out| { assert t.out[k] == more[k - |s.out|]; }
    }
    forall k | 0 <= k < |s.lines|
      ensures Overlay(t.lines[k], LinesTo(text, t.i)[k])
    {
      assert Overlay((s.lines + [s.out])[k], p[k]);
    }
  }

  /** The current entry is closed at a line break. */
  lemma Flush(text: string, s: Scan, t: Scan)
    requires Grid(text, s) && s.i < |text| && text[s.i] == '\n'
    requires t.i == s.i + 1 && t.lines == s.lines + [s.out] && t.out == ""
    ensures Tight(text, t)
  {
  }

  /** A dropped comment leaves the current entry short, right before a line break. */
  lemma Drop(text: string, s: Scan, t: Scan)
    requires Tight(text, s) && s.i <= t.i <= |text|
    requires NoBreak(text, s.i, t.i) && (t.i == |text| || text[t.i] == '\n')
    requires t.lines == s.lines && t.out == s.out
    ensures Inv(text, t)
  {
    LinesExtend(text, s.i, t.i);
    forall k | 0 <= k < |s.lines|
      ensures Overlay(t.lines[k], LinesTo(text, t.i)[k])
    {
      assert Overlay((s.lines + [s.out])[k], LinesTo(text, s.i)[k]);
    }
  }

  /** A substitution inside a string, character by character. */
  lemma {:induction false} EmitKeepsGrid(text: string, o: Options, s: Scan, segment: string)
    requires Tight(text, s) && !o.join && s.i + |segment| <= |text|
    requires forall k :: 0 <= k < |segment| ==>
      segment[k] == text[s.i + k] || (segment[k] == ' ' && text[s.i + k] != '\n')
    ensures Tight(text, Emit(o, s, segment).(i := s.i + |segment|))
  {
    if segment == "" {
      assert s.(i := s.i + |segment|) == s;
    } else {
      var shorter := segment[..|segment| - 1];
      EmitKeepsGrid(text, o, s, shorter);
      var a := Emit(o, s, shorter).(i := s.i + |shorter|);
      var b := Emit(o, s, segment).(i := s.i + |segment|);
      var ch := segment[|segment| - 1];
      assert text[a.i..b.i] == [text[a.i]];
      if ch == '\n' {
        Flush(text, a, b);
      } else {
        Grow(text, a, b, [if o.blankStrings then ' ' else ch]);
      }
    }
  }

  predicate AtLineStart(text: string, i: nat)
    requires i <= |text|
  {
    LinesTo(text, i)[|LinesTo(text, i)| - 1] == ""
  }

  /** The lines from `i` up to `j` end with one that has no line break. */
  predicate Unfinished(text: string, i: nat, j: nat) {
    i < |text| && j == |text| && text[|text| - 1] != '\n'
  }

  /** Skipping from the line start `i` to `r.i` finishes `r.count` physical lines, but for an unterminated last one. */
  predicate Counts(text: string, i: nat, r: Skip)
    requires i <= |text| && r.i <= |text|
  {
    var p, q := LinesTo(text, i), LinesTo(text, r.i);
    && p[..|p| - 1] <= q
    && if Unfinished(text, i, r.i) then |q| == |p| + r.count - 1
       else |q| == |p| + r.count && AtLineStart(text, r.i)
  }

  lemma CountsCompose(text: string, i: nat, first: Skip, rest: Skip)
    requires i <= first.i <= rest.i <= |text|
    requires Counts(text, i, first) && Counts(text, first.i, rest)
    requires !Unfinished(text, i, first.i)
    ensures Counts(text, i, Skip(rest.i, first.count + rest.count))
  {
    var p, m := LinesTo(text, i), LinesTo(text, first.i);
    assert p[..|p| - 1] <= m[..|m| - 1];
  }

  /** One body line. */
  lemma BodyLineCounts(text: string, i: nat)
    requires i < |text| && AtLineStart(text, i)
    ensures var end := Find(text, '\n', i);
      Counts(text, i, Skip(if end < |text| then end + 1 else end, 1))
  {
    var end := Find(text, '\n', i);
    LinesExtend(text, i, end);
    var p, m := LinesTo(text, i), LinesTo(text, end);
    assert p[..|p| - 1] == m[..|m| - 1];
    if end < |text| {
      assert LinesTo(text, end + 1) == m + [""];
    } else {
      assert text[end - 1] != '\n';
    }
  }

  lemma {:induction false} SkipBodyCounts(text: string, i: nat, tag: Tag)
    requires i <= |text| && AtLineStart(text, i)
    ensures Counts(text, i, SkipBody(text, i, tag))
    decreases |text| - i
  {
    if i < |text| {
      var end := Find(text, '\n', i);
      var next := if end < |text| then end + 1 else end;
      BodyLineCounts(text, i);
      if !Terminates(text[i..end], tag) {
        if Unfinished(text, i, next) {
        } else {
          SkipBodyCounts(text, next, tag);
          CountsCompose(text, i, Skip(next, 1), SkipBody(text, next, tag));
        }
      }
    }
  }

  lemma {:induction false} NoBodyLeft(text: string, pending: seq<Tag>)
    ensures SkipBodies(text, |text|, pending) == Skip(|text|, 0)
    decreases |pending|
  {
    if pending != [] { NoBodyLeft(text, pending[1..]); }
  }

  lemma {:induction false} SkipBodiesCounts(text: string, i: nat, pending: seq<Tag>)
    requires i <= |text| && AtLineStart(text, i)
    ensures Counts(text, i, SkipBodies(text, i, pending))
    decreases |pending|
  {
    if pending != [] {
      var first := SkipBody(text, i, pending[0]);
      SkipBodyCounts(text, i, pending[0]);
      if Unfinished(text, i, first.i) {
        NoBodyLeft(text, pending[1..]);
      } else {
        SkipBodiesCounts(text, first.i, pending[1..]);
        CountsCompose(text, i, first, SkipBodies(text, first.i, pending[1..]));
      }
    }
  }

  // ---- one step, the whole run -----------------------------------------------

  /** Skipped body lines leave one empty entry each. */
  lemma SkippedKeepsGrid(text: string, t: Scan, skip: Skip, r: Scan)
    requires Tight(text, t) && t.out == "" && t.i <= skip.i <= |text| && Counts(text, t.i, skip)
    requires r.i == skip.i && r.out == "" && r.lines == t.lines + Blanks(skip.count)
    ensures !Unfinished(text, t.i, skip.i) ==> Tight(text, r)
    ensures Unfinished(text, t.i, skip.i) ==> |r.lines| == |LinesTo(text, skip.i)|
  {
    var p, q := LinesTo(text, t.i), LinesTo(text, r.i);
    if !Unfinished(text, t.i, r.i) {
      forall k | 0 <= k < |r.lines|
        ensures Overlay(r.lines[k], q[k])
      {
        if k < |t.lines| {
          assert Overlay((t.lines + [t.out])[k], p[k]);
          assert p[..|p| - 1][k] == q[k];
        }
      }
    }
  }

  /** A line break, and the here-document bodies behind it. */
  lemma BreakLineKeepsGrid(text: string, o: Options, s: Scan)
    requires Grid(text, s) && !o.join && s.i < |text| && text[s.i] == '\n'
    requires !Overruns(text, s)
    ensures Tight(text, BreakLine(text, o, s))
  {
    var t := s.(lines := s.lines + [s.out], out := "", i := s.i + 1, prev := '\n');
    Flush(text, s, t);
    if s.quote == Bare && s.pending != [] {
      var skip := SkipBodies(text, t.i, s.pending);
      assert !Unfinished(text, t.i, skip.i);
      SkipBodiesCounts(text, t.i, s.pending);
      var r := BreakLine(text, o, s);
      assert r.i == skip.i && r.out == "" && r.lines == t.lines + Blanks(skip.count);
      SkippedKeepsGrid(text, t, skip, r);
    }
  }

  /** A body that overruns an unterminated last line leaves one entry too many. */
  lemma OverrunFillsLines(text: string, o: Options, s: Scan)
    requires Grid(text, s) && !o.join && Overruns(text, s)
    ensures var r := BreakLine(text, o, s);
      r.i == |text| && |r.lines| == |Lines(text)|
  {
    var t := s.(lines := s.lines + [s.out], out := "", i := s.i + 1, prev := '\n');
    Flush(text, s, t);
    var skip := SkipBodies(text, t.i, s.pending);
    assert Unfinished(text, t.i, skip.i);
    SkipBodiesCounts(text, t.i, s.pending);
    var r := BreakLine(text, o, s);
    assert r.i == skip.i && r.out == "" && r.lines == t.lines + Blanks(skip.count);
    SkippedKeepsGrid(text, t, skip, r);
  }

  lemma OverrunAddsEntry(text: string, o: Options, s: Scan)
    requires s.i < |text| && text[s.i] == '\n' && !o.join
    requires BreakLine(text, o, s).i == |text|
    ensures |Run(text, o, s)| == |BreakLine(text, o, s).lines| + 1
  {
    var r := BreakLine(text, o, s);
    assert Step(text, o, s) == r;
    assert Run(text, o, r) == r.lines + [r.out];
  }

  lemma QuotedKeepsGrid(text: string, o: Options, s: Scan)
    requires Tight(text, s) && s.i < |text| && s.quote != Bare && text[s.i] != '\n'
    ensures Tight(text, QuotedStep(text, o, s))
  {
    var t := QuotedStep(text, o, s);
    Grow(text, s, t, t.out[|s.out|..]);
  }

  lemma BareKeepsGrid(text: string, o: Options, s: Scan)
    requires Tight(text, s) && s.i < |text| && s.quote == Bare && text[s.i] != '\n'
    requires !SplitsTag(text, s)
    ensures Inv(text, BareStep(text, o, s))
  {
    var t := BareStep(text, o, s);
    if t.out == s.out {
      Drop(text, s, t);
    } else {
      Grow(text, s, t, text[s.i..t.i]);
    }
  }

  lemma SubstitutionKeepsGrid(text: string, o: Options, s: Scan)
    requires Tight(text, s) && s.i < |text| && !o.join
    ensures var end := SkipLoop(text, s.i + 1, 0);
      Tight(text, Emit(o, s, Segment(text, o, s.i, end)).(i := end))
  {
    var end := SkipLoop(text, s.i + 1, 0);
    var segment := Segment(text, o, s.i, end);
    assert forall k :: 0 <= k < |segment| ==> text[s.i..end][k] == text[s.i + k];
    EmitKeepsGrid(text, o, s, segment);
  }

  /** Every step keeps the grid, unless it reads a split tag or overruns an unterminated line. */
  lemma StepKeepsGrid(text: string, o: Options, s: Scan)
    requires Inv(text, s) && !o.join && s.i < |text|
    requires !SplitsTag(text, s) && !Overruns(text, s)
    ensures Inv(text, Step(text, o, s))
  {
    var t := Step(text, o, s);
    if text[s.i] == '\n' {
      BreakLineKeepsGrid(text, o, s);
      assert Tight(text, t);
    } else if s.quote == Double && text[s.i] == '$' && At(text, s.i + 1, '(') {
      SubstitutionKeepsGrid(text, o, s);
      assert Tight(text, t);
    } else if s.quote != Bare {
      QuotedKeepsGrid(text, o, s);
      assert Tight(text, t);
    } else {
      BareKeepsGrid(text, o, s);
      assert Inv(text, t);
    }
  }

  /** A line break inside an entry stays there. */
  predicate HoldsBreak(s: Scan) {
    '\n' in s.out || exists k :: 0 <= k < |s.lines| && '\n' in s.lines[k]
  }

  lemma {:induction false} EmitKeepsBreak(o: Options, s: Scan, segment: string)
    requires HoldsBreak(s)
    ensures HoldsBreak(Emit(o, s, segment))
  {
    if segment != "" {
      var r := Emit(o, s, segment[..|segment| - 1]);
      EmitKeepsBreak(o, s, segment[..|segment| - 1]);
      OutOrLinesGrow(r, EmitChar(o, r, segment[|segment| - 1]));
    }
  }

  lemma OutOrLinesGrow(s: Scan, t: Scan)
    requires HoldsBreak(s)
    requires (t.lines == s.lines && s.out <= t.out) || s.lines + [s.out] <= t.lines
    ensures HoldsBreak(t)
  {
    if '\n' in s.out {
      if s.lines + [s.out] <= t.lines { assert t.lines[|s.lines|] == s.out; }
    } else {
      var k :| 0 <= k < |s.lines| && '\n' in s.lines[k];
      assert t.lines[k] == s.lines[k];
    }
  }

  lemma StepKeepsBreak(text: string, o: Options, s: Scan)
    requires s.i < |text| && HoldsBreak(s)
    ensures HoldsBreak(Step(text, o, s))
  {
    if text[s.i] == '\n' {
      OutOrLinesGrow(s, Step(text, o, s));
    } else if text[s.i] == '\\' && o.join && At(text, s.i + 1, '\n') {
      OutOrLinesGrow(s, Step(text, o, s));
    } else if s.quote == Double && text[s.i] == '$' && At(text, s.i + 1, '(') {
      EmitKeepsBreak(o, s, Segment(text, o, s.i, SkipLoop(text, s.i + 1, 0)));
    } else {
      OutOrLinesGrow(s, Step(text, o, s));
    }
  }

  predicate ShowsBreak(entries: seq<string>) {
    exists k :: 0 <= k < |entries| && '\n' in entries[k]
  }

  lemma {:induction false} BreakShows(text: string, o: Options, s: Scan)
    requires s.i <= |text| && HoldsBreak(s)
    ensures ShowsBreak(Run(text, o, s))
    decreases |text| - s.i
  {
    if s.i == |text| {
      var r := s.lines + [s.out];
      if '\n' in s.out { assert r[|s.lines|] == s.out; }
      else {
        var k :| 0 <= k < |s.lines| && '\n' in s.lines[k];
        assert r[k] == s.lines[k];
      }
    } else {
      var t := Step(text, o, s);
      StepAdvances(text, o, s);
      StepKeepsBreak(text, o, s);
      BreakShows(text, o, t);
      assert Run(text, o, s) == Run(text, o, t);
    }
  }

  lemma BreakIsNotAligned(text: string, entries: seq<string>)
    requires ShowsBreak(entries)
    ensures !Aligned(text, entries)
  {
    LinesHoldNoBreak(text, |text|);
    var k :| 0 <= k < |entries| && '\n' in entries[k];
    var c :| 0 <= c < |entries[k]| && entries[k][c] == '\n';
    assert |entries| == |Lines(text)| ==> !Overlay(entries[k], Lines(text)[k]);
  }

  lemma SplitTagShows(text: string, o: Options, s: Scan)
    requires SplitsTag(text, s) && !o.join
    ensures ShowsBreak(Run(text, o, s))
  {
    var t := BareStep(text, o, s);
    assert Step(text, o, s) == t && s.i < t.i <= |text|;
    var k :| s.i <= k < t.i && text[k] == '\n';
    assert t.out[|s.out| + (k - s.i)] == '\n';
    BreakShows(text, o, t);
  }

  lemma {:induction false} RunAligned(text: string, o: Options, s: Scan)
    requires Inv(text, s) && !o.join
    ensures Aligned(text, Run(text, o, s)) <==> !Trips(text, o, s)
    decreases |text| - s.i
  {
    if s.i == |text| {
    } else if SplitsTag(text, s) {
      SplitTagShows(text, o, s);
      BreakIsNotAligned(text, Run(text, o, s));
    } else if Overruns(text, s) {
      OverrunFillsLines(text, o, s);
      OverrunAddsEntry(text, o, s);
    } else {
      StepAdvances(text, o, s);
      StepKeepsGrid(text, o, s);
      RunAligned(text, o, Step(text, o, s));
    }
  }

  /** Without `join`, the entries line up with the physical lines exactly when the scan reads no
      here-document tag from a later line and skips no unterminated last line as a body. */
  lemma CleanedAligned(text: string, o: Options)
    requires !o.join
    ensures Aligned(text, Cleaned(text, o)) <==> !Trips(text, o, START)
  {
    RunAligned(text, o, START);
  }

  // ---- the two ways to lose the grid -----------------------------------------

  /** `<<`, a line break, then the tag `E` and its terminator: two lines share an entry. */
  lemma SplitTagExample(text: string, o: Options)
    requires |text| == 7 && text[0] == text[1] == '<' && text[2] == text[4] == text[6] == '\n'
    requires text[3] == text[5] == 'E'
    requires !o.join
    ensures !Aligned(text, Cleaned(text, o))
  {
    assert SkipSpaces(text, 3) == 3 && IdentEnd(text, 4) == 4;
    assert HeredocOpener(text, 0) == Some(Opener(4, Tag(text[3..4], false)));
    assert text[0..4][2] == '\n';
    CleanedAligned(text, o);
  }

  /** `<<E` over a last line without a line break: one entry more than there are lines. */
  lemma OverrunExample(text: string, o: Options)
    requires |text| == 5 && text[0] == text[1] == '<' && text[2] == 'E' && text[3] == '\n' && text[4] == 'x'
    requires !o.join
    ensures !Aligned(text, Cleaned(text, o))
  {
    assert SkipSpaces(text, 2) == 2 && IdentEnd(text, 3) == 3;
    assert HeredocOpener(text, 0) == Some(Opener(3, Tag(text[2..3], false)));
    var s := Step(text, o, START);
    assert text[2..3] == "E";
    assert s.i == 3 && s.quote == Bare && s.pending == [Tag("E", false)];
    assert Find(text, '\n', 4) == 5;
    assert SkipBody(text, 4, s.pending[0]).i == 5;
    assert SkipBodies(text, 5, []) == Skip(5, 0);
    assert Overruns(text, s);
    CleanedAligned(text, o);
  }

  // ---- what a caller can see in the text -------------------------------------

  predicate Terminated(text: string) {
    text == "" || text[|text| - 1] == '\n'
  }

  /** No `<<` anywhere in the text takes its tag from a later line. */
  predicate TagsOnOneLine(text: string) {
    forall i :: 0 <= i < |text| && HeredocOpener(text, i).Some? ==> NoBreak(text, i, HeredocOpener(text, i).value.end)
  }

  lemma {:induction false} PlainTextNeverTrips(text: string, o: Options, s: Scan)
    requires Terminated(text) && TagsOnOneLine(text) && s.i <= |text|
    ensures !Trips(text, o, s)
    decreases |text| - s.i
  {
    if s.i < |text| {
      StepAdvances(text, o, s);
      PlainTextNeverTrips(text, o, Step(text, o, s));
    }
  }

  lemma TerminatedTextAligned(text: string, o: Options)
    requires Terminated(text) && TagsOnOneLine(text) && !o.join
    ensures Aligned(text, Cleaned(text, o))
  {
    PlainTextNeverTrips(text, o, START);
    CleanedAligned(text, o);
  }
}
