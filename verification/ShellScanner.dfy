/** The loops of `clean_shell` and its helpers, each proved to compute the function
    of `ShellText` that the lemmas speak about. */
module ShellScanner {
  import opened Chars
  import opened ShellText
  import opened ShellAligned

  method ScanArithmetic(text: string, i: nat) returns (r: nat)
    requires i <= |text|
    ensures r == ArithmeticEnd(text, i, i, 0)
  {
    var depth := 0;
    var j := i;
    while j < |text| && text[j] != '\n'
      invariant i <= j <= |text| && NoBreak(text, i, j)
      invariant ArithmeticEnd(text, i, j, depth) == ArithmeticEnd(text, i, i, 0)
    {
      depth := depth + (if text[j] == '(' then 1 else 0) - (if text[j] == ')' then 1 else 0);
      if depth == 0 {
        return j + 1;
      }
      j := j + 1;
    }
    return i;
  }

  method BlankSingleQuoted(segment: string) returns (out: string)
    ensures out == BlankSingleFrom(QuoteState(Bare, false), segment)
  {
    out := "";
    var st := QuoteState(Bare, false);
    for k := 0 to |segment|
      invariant BlankSingleFrom(QuoteState(Bare, false), segment) == out + BlankSingleFrom(st, segment[k..])
    {
      var ch := segment[k];
      assert segment[k..][1..] == segment[k + 1..];
      out := out + [BlankChar(st, ch)];
      st := NextQuote(st, ch);
    }
    assert segment[|segment|..] == "";
  }

  /** One turn of the loop over a substitution, read off the character. */
  lemma LoopTurn(text: string, j: nat, depth: int)
    requires j < |text|
    ensures var c := text[j];
      && (c == '\\' ==> SkipLoop(text, j, depth) == SkipLoop(text, j + 2, depth))
      && (c == '\'' ==>
            var k := Find(text, '\'', j + 1);
            SkipLoop(text, j, depth) == if k == |text| then |text| else SkipLoop(text, k + 1, depth))
      && (c == '"' ==> SkipLoop(text, j, depth) == SkipLoop(text, SkipQuoted(text, j + 1) + 1, depth))
      && (c == '(' ==> SkipLoop(text, j, depth) == SkipLoop(text, j + 1, depth + 1))
      && (c == ')' ==> SkipLoop(text, j, depth) == if depth == 1 then j + 1 else SkipLoop(text, j + 1, depth - 1))
      && (c !in {'\\', '\'', '"', '(', ')'} ==> SkipLoop(text, j, depth) == SkipLoop(text, j + 1, depth))
  {
    hide Find, SkipQuoted;
  }

  method SkipSubstitution(text: string, i: nat) returns (r: nat)
    requires i < |text|
    ensures r == SkipLoop(text, i + 1, 0)
    decreases |text| - i
  {
    var depth := 0;
    var j := i + 1;
    while j < |text|
      invariant i < j
      invariant SkipLoop(text, j, depth) == SkipLoop(text, i + 1, 0)
      decreases |text| - j
    {
      hide SkipLoop, Find;
      LoopTurn(text, j, depth);
      var c := text[j];
      if c == '\\' {
        j := j + 2;
        continue;
      }
      if c == '\'' {
        j := Find(text, '\'', j + 1);
        if j == |text| {
          return |text|;
        }
      } else if c == '"' {
        ghost var opening := j;
        j := j + 1;
        while j < |text| && text[j] != '"'
          invariant opening < j
          invariant SkipQuoted(text, j) == SkipQuoted(text, opening + 1)
          decreases |text| - j
        {
          if text[j] == '\\' {
            j := j + 1;
          } else if text[j] == '$' && At(text, j + 1, '(') {
            j := SkipSubstitution(text, j);
            j := j - 1;
          }
          j := j + 1;
        }
      } else if c == '(' {
        depth := depth + 1;
      } else if c == ')' {
        depth := depth - 1;
        if depth == 0 {
          return j + 1;
        }
      }
      j := j + 1;
    }
    return |text|;
  }

  /** Where the line after the one at `i` starts. */
  function NextLine(text: string, i: nat): (r: nat)
    requires i <= |text|
    ensures i <= r <= |text| && (i < |text| ==> i < r)
  {
    var end := Find(text, '\n', i);
    if end < |text| then end + 1 else end
  }

  /** One line of a body. */
  lemma BodyLine(text: string, i: nat, tag: Tag)
    requires i < |text|
    ensures var r := SkipBody(text, NextLine(text, i), tag);
      SkipBody(text, i, tag)
        == if Terminates(text[i..Find(text, '\n', i)], tag) then Skip(NextLine(text, i), 1) else Skip(r.i, r.count + 1)
  {
  }

  lemma OneMoreBlank(before: seq<string>, n: nat)
    ensures before + Blanks(n + 1) == before + Blanks(n) + [""]
  {
  }

  /** Skips one here-document body, one empty entry for each line. */
  method SkipHeredoc(text: string, start: nat, tag: Tag, before: seq<string>) returns (i: nat, lines: seq<string>)
    requires start <= |text|
    ensures var skip := SkipBody(text, start, tag);
      i == skip.i && lines == before + Blanks(skip.count)
  {
    i, lines := start, before;
    ghost var skip := SkipBody(text, start, tag);
    ghost var done := 0;
    while i < |text|
      invariant i <= |text| && lines == before + Blanks(done)
      invariant SkipBody(text, i, tag).i == skip.i && done + SkipBody(text, i, tag).count == skip.count
    {
      hide SkipBody, Terminates, Blanks, NextLine;
      BodyLine(text, i, tag);
      OneMoreBlank(before, done);
      var end := Find(text, '\n', i);
      var terminates := Terminates(text[i..end], tag);
      i := NextLine(text, i);
      lines := lines + [""];
      done := done + 1;
      if terminates {
        return;
      }
    }
  }

  /** Skips the bodies of the pending here-documents in turn. */
  method SkipHeredocs(text: string, start: nat, pending: seq<Tag>, before: seq<string>)
    returns (i: nat, lines: seq<string>)
    requires start <= |text|
    ensures var skip := SkipBodies(text, start, pending);
      i == skip.i && lines == before + Blanks(skip.count)
  {
    i, lines := start, before;
    ghost var whole := SkipBodies(text, start, pending);
    for t := 0 to |pending|
      invariant i <= |text|
      invariant var rest := SkipBodies(text, i, pending[t..]);
        whole.i == rest.i && before + Blanks(whole.count) == lines + Blanks(rest.count)
    {
      assert pending[t..][1..] == pending[t + 1..];
      ghost var first := SkipBody(text, i, pending[t]);
      ghost var rest := SkipBodies(text, first.i, pending[t + 1..]);
      assert Blanks(first.count + rest.count) == Blanks(first.count) + Blanks(rest.count);
      i, lines := SkipHeredoc(text, i, pending[t], lines);
    }
  }

  method EmitSegment(o: Options, segment: string, before: string, entries: seq<string>, ghost s: Scan)
    returns (entry: string, closed: seq<string>)
    requires s.out == before && s.lines == entries
    ensures s.(out := entry, lines := closed) == Emit(o, s, segment)
  {
    entry, closed := before, entries;
    for k := 0 to |segment|
      invariant s.(out := entry, lines := closed) == Emit(o, s, segment[..k])
    {
      assert segment[..k + 1][..k] == segment[..k];
      var ch := segment[k];
      if ch != '\n' {
        entry := entry + [if o.blankStrings then ' ' else ch];
      } else if o.join {
        entry := entry + " ";
      } else {
        closed := closed + [entry];
        entry := "";
      }
    }
    assert segment[..|segment|] == segment;
  }

  /** The turn of the scan inside quotes. */
  method ScanQuoted(text: string, o: Options, s: Scan) returns (next: nat, mode: Quote, entry: string)
    requires s.i < |text| && s.quote != Bare
    ensures s.(i := next, quote := mode, out := entry) == QuotedStep(text, o, s)
  {
    next, mode, entry := s.i, s.quote, s.out;
    var c := text[next];
    if mode == Double && c == '\\' && next + 1 < |text| && text[next + 1] != '\n' {
      entry := entry + if o.blankStrings then "  " else text[next..next + 2];
      next := next + 2;
    } else if c == Mark(mode) {
      entry := entry + [c];
      mode := Bare;
      next := next + 1;
    } else {
      entry := entry + [if o.blankStrings || (o.blankSingle && mode == Single) then ' ' else c];
      next := next + 1;
    }
  }

  /** The turn of the scan outside quotes. */
  method ScanBare(text: string, o: Options, s: Scan)
    returns (next: nat, mode: Quote, last: char, waiting: seq<Tag>, entry: string)
    requires s.i < |text| && s.quote == Bare
    ensures Scan(next, mode, last, waiting, entry, s.lines) == BareStep(text, o, s)
  {
    next, mode, last, waiting, entry := s.i, Bare, s.prev, s.pending, s.out;
    var c := text[next];
    if c == '\\' && next + 1 < |text| && text[next + 1] != '\n' {
      entry := entry + text[next..next + 2];
      next := next + 2;
      last := 'x';
      return;
    }
    if c == '\'' || c == '"' {
      mode := if c == '"' then Double else Single;
      entry := entry + [c];
      next := next + 1;
      last := c;
      return;
    }
    if c == '#' && CommentMayFollow(last) {
      while next < |text| && text[next] != '\n'
        invariant s.i <= next <= |text|
        invariant Find(text, '\n', next) == Find(text, '\n', s.i)
      {
        next := next + 1;
      }
      return;
    }
    if StartsAt(text, next, "((") {
      var end := ScanArithmetic(text, next);
      if end > next {
        entry := entry + text[next..end];
        last := ')';
        next := end;
        return;
      }
    }
    if StartsAt(text, next, "<<") && !StartsAt(text, next, "<<<") {
      var found := HeredocOpener(text, next);
      if found.Some? {
        waiting := waiting + [found.value.tag];
        entry := entry + text[next..found.value.end];
        next := found.value.end;
        last := 'x';
        return;
      }
    }
    entry := entry + [c];
    last := c;
    next := next + 1;
  }

  /** The turn of the scan at a line break that ends an entry. */
  method ScanBreak(text: string, o: Options, s: Scan) returns (next: nat, waiting: seq<Tag>, entries: seq<string>)
    requires s.i < |text|
    ensures s.(i := next, prev := '\n', pending := waiting, out := "", lines := entries) == BreakLine(text, o, s)
  {
    next, waiting, entries := s.i + 1, s.pending, s.lines + [s.out];
    if s.quote == Bare && waiting != [] {
      var skipped;
      next, skipped := SkipHeredocs(text, next, waiting, if o.join then [] else entries);
      entries := if o.join then entries else skipped;
      waiting := [];
    }
  }

  method CleanShell(text: string, o: Options) returns (lines: seq<string>)
    ensures lines == Cleaned(text, o)
    ensures !o.join ==> (Aligned(text, lines) <==> !Trips(text, o, START))
  {
    lines := [];
    var out := "";
    var i := 0;
    var quote := Bare;
    var prev := '\n';
    var pending: seq<Tag> := [];
    while i < |text|
      invariant i <= |text|
      invariant Run(text, o, Scan(i, quote, prev, pending, out, lines)) == Cleaned(text, o)
      decreases |text| - i
    {
      var s := Scan(i, quote, prev, pending, out, lines);
      StepAdvances(text, o, s);
      var c := text[i];
      if c == '\n' {
        if quote != Bare && o.join {
          out := out + " ";
          i := i + 1;
          continue;
        }
        i, pending, lines := ScanBreak(text, o, s);
        out := "";
        prev := '\n';
      } else if c == '\\' && o.join && At(text, i + 1, '\n') {
        out := out + " ";
        i := i + 2;
      } else if quote == Double && c == '$' && At(text, i + 1, '(') {
        var end := SkipSubstitution(text, i);
        var segment := if o.join then JoinLines(text[i..end]) else text[i..end];
        if o.blankSingle {
          segment := BlankSingleQuoted(segment);
        }
        out, lines := EmitSegment(o, segment, out, lines, s);
        i := end;
      } else if quote != Bare {
        i, quote, out := ScanQuoted(text, o, s);
      } else {
        i, quote, prev, pending, out := ScanBare(text, o, s);
      }
      assert Scan(i, quote, prev, pending, out, lines) == Step(text, o, s);
    }
    lines := lines + [out];
    CleanedAlignedIf(text, o);
  }

  lemma CleanedAlignedIf(text: string, o: Options)
    ensures !o.join ==> (Aligned(text, Cleaned(text, o)) <==> !Trips(text, o, START))
  {
    if !o.join { CleanedAligned(text, o); }
  }
}
