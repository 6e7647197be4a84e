/** Blanked code scanned again: nothing more is blanked, and the literals stand where they stood. */
module RustCodeStable {
  import opened Chars
  import opened RustSpans
  import opened RustCode

  /** `code` is `text` with some characters turned to spaces. */
  predicate Faded(code: string, text: string) {
    |code| == |text| && forall k :: 0 <= k < |text| ==> code[k] == text[k] || code[k] == ' '
  }

  predicate Kept(code: string, text: string, i: nat, j: nat)
    requires |code| == |text|
  {
    forall k :: i <= k < j && k < |text| ==> code[k] == text[k]
  }

  predicate Empty(code: string, i: nat, j: nat) {
    forall k :: i <= k < j && k < |code| ==> code[k] == ' ' || code[k] == '\n'
  }

  // ---- each scan finds the same end in the code ------------------------------

  lemma BlankIsPlain(code: string, i: nat)
    requires i < |code| && (code[i] == ' ' || code[i] == '\n')
    ensures Next(code, i) == Token(i + 1, None)
  {
    hide CommentEnd, StringEnd, CharEnd, RawStart, RawToken, Find;
  }

  lemma {:induction false} BlankRun(code: string, i: nat, j: nat)
    requires i <= j <= |code| && Empty(code, i, j)
    ensures Spans(code, i) == Spans(code, j)
    decreases j - i
  {
    hide Next;
    if i < j {
      BlankIsPlain(code, i);
      BlankRun(code, i + 1, j);
      assert [] + Spans(code, i + 1) == Spans(code, i + 1);
    }
  }

  lemma {:induction false} StringEndOverBlank(code: string, j: nat, end: nat)
    requires j <= end <= |code| && Empty(code, j, end) && (end < |code| ==> code[end] == '"')
    ensures StringEnd(code, j) == end
    decreases end - j
  {
    if j < end { StringEndOverBlank(code, j + 1, end); }
  }

  lemma {:induction false} HashesAre(code: string, i: nat, r: nat)
    requires i <= r <= |code| && (forall k :: i <= k < r ==> code[k] == '#') && (r < |code| ==> code[r] != '#')
    ensures Hashes(code, i) == r
    decreases r - i
  {
    if i < r { HashesAre(code, i + 1, r); }
  }

  lemma {:induction false} FindCloseIs(code: string, hashes: nat, j: nat, r: nat)
    requires j <= r <= |code| && (r < |code| ==> ClosesRaw(code, hashes, r))
    requires forall k :: j <= k < r ==> !ClosesRaw(code, hashes, k)
    ensures FindClose(code, hashes, j) == r
    decreases r - j
  {
    if j < r { FindCloseIs(code, hashes, j + 1, r); }
  }

  lemma CharEndStays(code: string, text: string, i: nat)
    requires Faded(code, text) && i < |text| && Kept(code, text, i, CharEnd(text, i))
    requires At(text, i + 1, '\\') ==> At(code, i + 1, '\\')
    ensures CharEnd(code, i) == CharEnd(text, i)
  {
    if At(text, i + 1, '\\') && i + 3 <= |text| {
      FindIs(code, '\'', i + 3, Find(text, '\'', i + 3));
    }
  }

  /** A raw literal that opens in the code opens in the text. */
  lemma RawStartWasOne(code: string, text: string, i: nat)
    requires Faded(code, text) && i < |text| && code[i] == text[i] && RawStart(code, i)
    ensures RawStart(text, i)
  {
    var mark := RawMark(code, i) + 1;
    HashesAre(text, mark, Hashes(code, mark));
  }

  lemma HashesStay(code: string, text: string, mark: nat)
    requires |code| == |text| && mark <= |text| && At(text, Hashes(text, mark), '"')
    requires Kept(code, text, mark, Hashes(text, mark) + 1)
    ensures Hashes(code, mark) == Hashes(text, mark)
  {
    HashesAre(code, mark, Hashes(text, mark));
  }

  lemma CloseStays(code: string, text: string, hashes: nat, body: nat)
    requires |code| == |text| && body <= |text|
    requires var end := FindClose(text, hashes, body);
      Empty(code, body, end) && Kept(code, text, end, if end == |text| then end else end + 1 + hashes)
    ensures FindClose(code, hashes, body) == FindClose(text, hashes, body)
  {
    FindCloseIs(code, hashes, body, FindClose(text, hashes, body));
  }

  /** Where the body of the raw literal at `i` starts. */
  function RawBody(text: string, i: nat): nat
    requires RawStart(text, i)
  {
    Hashes(text, RawMark(text, i) + 1) + 1
  }

  lemma RawStartStays(code: string, text: string, i: nat)
    requires |code| == |text| && RawStart(text, i) && Kept(code, text, i, RawBody(text, i))
    ensures RawStart(code, i) && RawMark(code, i) == RawMark(text, i) && RawBody(code, i) == RawBody(text, i)
  {
    var mark := RawMark(text, i) + 1;
    var body := RawBody(text, i);
    assert code[i] == text[i] && code[mark - 1] == text[mark - 1] && code[body - 1] == text[body - 1];
    HashesStay(code, text, mark);
  }

  lemma RawTokenStays(code: string, text: string, i: nat)
    requires |code| == |text| && RawStart(text, i)
    requires var t := RawToken(text, i);
      Kept(code, text, i, t.span.value.from) && Empty(code, t.span.value.from, t.span.value.to)
      && Kept(code, text, t.span.value.to, t.next)
    ensures RawStart(code, i) && RawToken(code, i) == RawToken(text, i)
  {
    hide Kept, Empty, FindClose, Hashes, RawMark;
    RawStartStays(code, text, i);
    CloseStays(code, text, RawBody(text, i) - 2 - RawMark(text, i), RawBody(text, i));
  }

  // ---- one step --------------------------------------------------------------

  /** The character before a raw mark is not a word character that was blanked. */
  predicate Edge(code: string, text: string, i: nat)
    requires |code| == |text|
  {
    0 < i < |text| && (text[i] == 'r' || text[i] == 'b') && code[i - 1] != text[i - 1] ==> !IsIdentChar(text[i - 1])
  }

  /** The code over one token: its span blank, the rest of it as in the text. */
  predicate ShadesToken(code: string, text: string, i: nat, t: Token)
    requires |code| == |text| && Fits(text, i, t)
  {
    match t.span
    case None => Kept(code, text, i, t.next)
    case Some(s) => Kept(code, text, i, s.from) && Empty(code, s.from, s.to) && Kept(code, text, s.to, t.next)
  }

  lemma FirstIsKept(code: string, text: string, i: nat)
    requires Faded(code, text) && i < |text| && ShadesToken(code, text, i, Next(text, i))
    requires !(Next(text, i).span.Some? && Next(text, i).span.value.Comment?)
    ensures code[i] == text[i]
  {
    hide StringEnd, CharEnd, CommentEnd, Find, FindClose;
  }

  lemma RawStays(code: string, text: string, i: nat)
    requires Faded(code, text) && i < |text| && ShadesToken(code, text, i, Next(text, i))
    requires (text[i] == 'r' || text[i] == 'b') && !AfterWord(text, i) && RawStart(text, i)
    ensures RawStart(code, i) && RawToken(code, i) == RawToken(text, i) == Next(text, i)
  {
    hide StringEnd, CharEnd, CommentEnd, Find, FindClose, RawStart;
    assert Next(text, i) == RawToken(text, i);
    RawTokenStays(code, text, i);
  }

  /** A token that is no comment is read alike from the code. */
  lemma TokenStays(code: string, text: string, i: nat)
    requires Faded(code, text) && i < |text| && ShadesToken(code, text, i, Next(text, i)) && Edge(code, text, i)
    requires !(Next(text, i).span.Some? && Next(text, i).span.value.Comment?)
    requires At(text, i, '\'') && At(text, i + 1, '\\') ==> At(code, i + 1, '\\')
    ensures Next(code, i) == Next(text, i)
  {
    hide StringEnd, CharEnd, CommentEnd, RawStart, RawToken, Find;
    FirstIsKept(code, text, i);
    if text[i] == '"' {
      StringEndOverBlank(code, i + 1, StringEnd(text, i + 1));
    } else if text[i] == '\'' {
      CharEndStays(code, text, i);
    } else if text[i] == 'r' || text[i] == 'b' {
      if AfterWord(text, i) {
        assert code[i - 1] == text[i - 1];
      } else if RawStart(text, i) {
        RawStays(code, text, i);
      } else if RawStart(code, i) {
        RawStartWasOne(code, text, i);
      }
    }
  }

  /** No comment and no literal starts at a backslash. */
  lemma BackslashIsPlain(text: string, i: nat)
    requires At(text, i, '\\')
    ensures Next(text, i) == Token(i + 1, None)
  {
  }

  lemma EdgeMoves(code: string, text: string, i: nat)
    requires Faded(code, text) && i < |text| && ShadesToken(code, text, i, Next(text, i))
    ensures Edge(code, text, Next(text, i).next)
  {
    hide StringEnd, CharEnd, RawStart, Find;
  }

  /** What the shading of all spans says about the token at `i`. */
  lemma ShadeOfToken(code: string, text: string, done: seq<Span>, i: nat)
    requires i < |text| && IsShaded(code, text, done + Spans(text, i))
    requires forall j :: 0 <= j < |done| ==> done[j].to <= i
    ensures ShadesToken(code, text, i, Next(text, i))
  {
    hide Next, Spans, Inside, InOrder;
    var t := Next(text, i);
    var rest := Spans(text, t.next);
    SpansSplit(text, i);
    SpansAreInOrder(text, t.next);
    forall k | i <= k < t.next
      ensures code[k] == if t.span.Some? && Covers(t.span.value, k) && text[k] != '\n' then ' ' else text[k]
    {
      InsideConcat(done, Spans(text, i), k);
      InsideConcat(Own(t), rest, k);
      NotInside(done, k, i);
      NotYet(rest, k, t.next, |text|);
      if t.span.Some? { InsideOne(t.span.value, k); }
      NothingInside(k);
    }
  }

  lemma SpansSplit(text: string, i: nat)
    requires i < |text|
    ensures Spans(text, i) == Own(Next(text, i)) + Spans(text, Next(text, i).next)
  {
  }

  lemma NothingInside(k: int)
    ensures !Inside([], k)
  {
  }

  lemma NotInside(spans: seq<Span>, k: int, i: int)
    requires i <= k && forall j :: 0 <= j < |spans| ==> spans[j].to <= i
    ensures !Inside(spans, k)
  {
  }

  lemma NotYet(spans: seq<Span>, k: int, i: nat, n: nat)
    requires k < i && InOrder(spans, i, n)
    ensures !Inside(spans, k)
  {
  }

  lemma {:induction false} SpansOfCode(code: string, text: string, done: seq<Span>, i: nat)
    requires i <= |text| && IsShaded(code, text, done + Spans(text, i)) && Edge(code, text, i)
    requires forall j :: 0 <= j < |done| ==> done[j].to <= i
    ensures Spans(code, i) == Bodies(Spans(text, i))
    decreases |text| - i
  {
    if i < |text| {
      hide Next, Spans, IsShaded, Edge, Bodies, ShadesToken;
      var t := Next(text, i);
      var rest := Spans(text, t.next);
      assert Faded(code, text) by { ShadedIsFaded(code, text, done + Spans(text, i)); }
      SpansSplit(text, i);
      assert done + (Own(t) + rest) == (done + Own(t)) + rest;
      ShadeOfToken(code, text, done, i);
      EdgeMoves(code, text, i);
      SpansOfCode(code, text, done + Own(t), t.next);
      BodiesOfConcat(Own(t), rest);
      if t.span.Some? && t.span.value.Comment? {
        CommentIsWhole(text, i);
        BlankRun(code, i, t.next) by { WholeIsEmpty(code, text, i, t); }
        BodiesOfOne(t.span.value);
        assert [] + Bodies(rest) == Bodies(rest);
      } else {
        if At(text, i, '\'') && At(text, i + 1, '\\') { BackslashStays(code, text, done, i); }
        TokenStays(code, text, i);
        SpansSplit(code, i);
        BodiesOfOwn(t);
      }
    } else {
      assert Bodies([]) == [];
    }
  }

  lemma ShadedIsFaded(code: string, text: string, spans: seq<Span>)
    requires IsShaded(code, text, spans)
    ensures Faded(code, text)
  {
    hide Inside;
  }

  lemma CommentIsWhole(text: string, i: nat)
    requires i < |text| && Next(text, i).span.Some? && Next(text, i).span.value.Comment?
    ensures Next(text, i).span.value == Comment(i, Next(text, i).next)
  {
  }

  lemma WholeIsEmpty(code: string, text: string, i: nat, t: Token)
    requires |code| == |text| && Fits(text, i, t) && t.span == Some(Comment(i, t.next)) && ShadesToken(code, text, i, t)
    ensures Empty(code, i, t.next)
  {
  }

  lemma BodiesOfOne(s: Span)
    ensures Bodies([s]) == if s.Literal? then [s] else []
  {
    assert [s][1..] == [];
  }

  lemma BodiesOfOwn(t: Token)
    requires !(t.span.Some? && t.span.value.Comment?)
    ensures Bodies(Own(t)) == Own(t)
  {
    if t.span.Some? { BodiesOfOne(t.span.value); }
  }

  /** The backslash of an escaped character is never blanked. */
  lemma BackslashStays(code: string, text: string, done: seq<Span>, i: nat)
    requires i < |text| && IsShaded(code, text, done + Spans(text, i))
    requires forall j :: 0 <= j < |done| ==> done[j].to <= i
    requires At(text, i, '\'') && At(text, i + 1, '\\')
    ensures At(code, i + 1, '\\')
  {
    hide Spans, IsShaded, RawStart, CommentEnd, StringEnd, Find;
    ShadeOfToken(code, text, done, i);
    ShadedIsFaded(code, text, done + Spans(text, i));
    assert Next(text, i) == Token(CharEnd(text, i), None);
    if CharEnd(text, i) == i + 1 {
      SpansSplit(text, i);
      assert [] + Spans(text, i + 1) == Spans(text, i + 1);
      ShadeOfToken(code, text, done, i + 1);
      BackslashIsPlain(text, i + 1);
    }
  }

  /** Scanning the code again blanks nothing more, and finds the same literal bodies. */
  lemma CodeIsStable(text: string)
    ensures Code(Code(text)) == Code(text)
    ensures Spans(Code(text), 0) == Bodies(Spans(text, 0))
  {
    hide Spans, Inside;
    var spans, code := Spans(text, 0), Code(text);
    assert [] + spans == spans;
    SpansOfCode(code, text, [], 0);
    SpansAreInOrder(text, 0);
    forall k | 0 <= k < |text|
      ensures Shade(code, Bodies(spans), k) == code[k]
    {
      if Inside(Bodies(spans), k) { BodiesAreInside(spans, k); }
    }
    assert Code(code) == code;
  }

  lemma BodiesAreInside(spans: seq<Span>, k: int)
    requires Inside(Bodies(spans), k)
    ensures Inside(spans, k)
  {
    var j :| 0 <= j < |Bodies(spans)| && Covers(Bodies(spans)[j], k);
    var s := Bodies(spans)[j];
    assert s in spans;
    var h :| 0 <= h < |spans| && spans[h] == s;
    assert Covers(spans[h], k);
  }
}
