/** `rust_code_and_literals` (scripts/report/scripts_gate_external.py): comments and string bodies
    blanked, every string literal with its offset. */
module RustCode {
  import opened Chars
  import opened RustArms
  import opened RustSpans

  /** `text.startswith` of a two-character mark. */
  predicate PairAt(text: string, i: nat, a: char, b: char) {
    i + 1 < |text| && text[i] == a && text[i + 1] == b
  }

  /** `block_comment_end` from `j` with `depth` comments open. */
  function CommentEnd(text: string, j: nat, depth: nat): (r: nat)
    requires j <= |text|
    ensures j <= r <= |text|
    ensures r == |text| || depth == 0 || (r >= j + 2 && PairAt(text, r - 2, '*', '/'))
    decreases |text| - j
  {
    if j == |text| || depth == 0 then j
    else if PairAt(text, j, '/', '*') then CommentEnd(text, j + 2, depth + 1)
    else if PairAt(text, j, '*', '/') then
      if depth == 1 then j + 2 else CommentEnd(text, j + 2, depth - 1)
    else CommentEnd(text, j + 1, depth)
  }

  /** Where the string body that reaches `j` ends: at its quote or at the end of the text. */
  function StringEnd(text: string, j: nat): (r: nat)
    requires j <= |text|
    ensures j <= r <= |text|
    ensures r < |text| ==> text[r] == '"'
    decreases |text| - j
  {
    if j == |text| || text[j] == '"' then j
    else if text[j] == '\\' && j + 2 > |text| then |text|
    else StringEnd(text, if text[j] == '\\' then j + 2 else j + 1)
  }

  /** The index past the `#`s that start at `i`. */
  function Hashes(text: string, i: nat): (r: nat)
    requires i <= |text|
    ensures i <= r <= |text|
    ensures forall k :: i <= k < r ==> text[k] == '#'
    ensures r < |text| ==> text[r] != '#'
    decreases |text| - i
  {
    if i < |text| && text[i] == '#' then Hashes(text, i + 1) else i
  }

  predicate ClosesRaw(text: string, hashes: nat, j: nat) {
    j + 1 + hashes <= |text| && text[j] == '"' && forall k :: j < k <= j + hashes ==> text[k] == '#'
  }

  /** `text.find(close, j)` for a quote and `hashes` of `#`, or the length of the text. */
  function FindClose(text: string, hashes: nat, j: nat): (r: nat)
    requires j <= |text|
    ensures j <= r <= |text|
    ensures r < |text| ==> ClosesRaw(text, hashes, r)
    ensures forall k :: j <= k < r ==> !ClosesRaw(text, hashes, k)
    decreases |text| - j
  {
    if j == |text| || ClosesRaw(text, hashes, j) then j else FindClose(text, hashes, j + 1)
  }

  /** `skip_char_literal`. */
  function CharEnd(text: string, i: nat): (r: nat)
    requires i < |text|
    ensures i < r <= |text|
  {
    if At(text, i + 1, '\\') then
      if i + 3 > |text| || Find(text, '\'', i + 3) == |text| then i + 1 else Find(text, '\'', i + 3) + 1
    else if At(text, i + 2, '\'') then i + 3
    else i + 1
  }

  /** Where the `r` of `b?r` stands. */
  function RawMark(text: string, i: nat): nat
    requires i < |text|
  {
    if text[i] == 'b' then i + 1 else i
  }

  /** `b?r(#*)"` matches at `i`. */
  predicate RawStart(text: string, i: nat) {
    && i < |text|
    && At(text, RawMark(text, i), 'r')
    && At(text, Hashes(text, RawMark(text, i) + 1), '"')
  }

  predicate AfterWord(text: string, i: nat) {
    0 < i <= |text| && IsIdentChar(text[i - 1])
  }

  /** One step of the scan: where it goes on, and the span it blanks, if any. */
  datatype Token = Token(next: nat, span: Option<Span>)

  function RawToken(text: string, i: nat): (t: Token)
    requires RawStart(text, i)
    ensures Fits(text, i, t)
  {
    var mark := RawMark(text, i) + 1;
    var body := Hashes(text, mark) + 1;
    var end := FindClose(text, body - 1 - mark, body);
    Token(if end == |text| then |text| else end + body - mark, Some(Literal(body, end)))
  }

  predicate Fits(text: string, i: nat, t: Token) {
    && i < t.next <= |text|
    && (t.span.Some? ==> i <= t.span.value.from <= t.span.value.to <= t.next)
  }

  function Next(text: string, i: nat): (t: Token)
    requires i < |text|
    ensures Fits(text, i, t)
  {
    if PairAt(text, i, '/', '/') then
      var end := Find(text, '\n', i);
      Token(end, Some(Comment(i, end)))
    else if PairAt(text, i, '/', '*') then
      var end := CommentEnd(text, i + 2, 1);
      Token(end, Some(Comment(i, end)))
    else if text[i] == '"' then
      var end := StringEnd(text, i + 1);
      Token(if end == |text| then end else end + 1, Some(Literal(i + 1, end)))
    else if text[i] == '\'' then Token(CharEnd(text, i), None)
    else if (text[i] == 'r' || text[i] == 'b') && !AfterWord(text, i) && RawStart(text, i) then RawToken(text, i)
    else Token(i + 1, None)
  }

  function Own(t: Token): seq<Span> {
    match t.span
    case None => []
    case Some(s) => [s]
  }

  /** Every comment and literal body from `i` on. */
  function Spans(text: string, i: nat): (r: seq<Span>)
    requires i <= |text|
    decreases |text| - i
  {
    if i == |text| then [] else Own(Next(text, i)) + Spans(text, Next(text, i).next)
  }

  function Code(text: string): string {
    Shaded(text, Spans(text, 0))
  }

  /** The literal bodies among some spans, in their order. */
  function Bodies(spans: seq<Span>): (r: seq<Span>)
    ensures forall j :: 0 <= j < |r| ==> r[j].Literal? && r[j] in spans
  {
    if spans == [] then [] else (if spans[0].Literal? then [spans[0]] else []) + Bodies(spans[1..])
  }

  datatype Entry = Entry(offset: nat, body: string)

  function EntryOf(text: string, s: Span): Entry
    requires s.from <= s.to <= |text|
  {
    Entry(s.from, text[s.from..s.to])
  }

  predicate Within(spans: seq<Span>, n: nat) {
    forall j :: 0 <= j < |spans| ==> spans[j].from <= spans[j].to <= n
  }

  function Entries(text: string, spans: seq<Span>): (r: seq<Entry>)
    requires Within(spans, |text|)
    ensures |r| == |spans| && forall j :: 0 <= j < |r| ==> r[j] == EntryOf(text, spans[j])
  {
    if spans == [] then [] else [EntryOf(text, spans[0])] + Entries(text, spans[1..])
  }

  // ---- order, and where a span stands ----------------------------------------

  /** Spans are disjoint and in increasing order. */
  lemma {:induction false} SpansAreInOrder(text: string, i: nat)
    requires i <= |text|
    ensures InOrder(Spans(text, i), i, |text|)
    decreases |text| - i
  {
    if i < |text| {
      hide Next;
      var t := Next(text, i);
      SpansAreInOrder(text, t.next);
      if t.span.Some? { InOrderGrows(t.span.value, Spans(text, t.next), i, t.next, |text|); }
    }
  }

  /** A comment starts with its mark; a literal body stands right behind a quote. */
  predicate WellPlaced(text: string, s: Span) {
    match s
    case Comment(from, _) => PairAt(text, from, '/', '/') || PairAt(text, from, '/', '*')
    case Literal(from, _) => 0 < from <= |text| && text[from - 1] == '"'
  }

  lemma {:induction false} SpansAreWellPlaced(text: string, i: nat)
    requires i <= |text|
    ensures forall j :: 0 <= j < |Spans(text, i)| ==> WellPlaced(text, Spans(text, i)[j])
    decreases |text| - i
  {
    if i < |text| {
      var t := Next(text, i);
      SpansAreWellPlaced(text, t.next);
      assert t.span.Some? ==> WellPlaced(text, t.span.value);
      hide Next, WellPlaced;
    }
  }

  lemma {:induction false} BodiesStayInOrder(spans: seq<Span>, i: nat, n: nat)
    requires InOrder(spans, i, n)
    ensures InOrder(Bodies(spans), i, n)
  {
    if spans != [] {
      var rest := spans[1..];
      assert InOrder(rest, spans[0].to, n) by {
        forall j | 0 <= j < |rest| ensures spans[0].to <= rest[j].from {
          InOrderIsApart(spans, i, n, 0, j + 1);
        }
        assert forall j :: 0 <= j < |rest| ==> rest[j] == spans[j + 1];
      }
      BodiesStayInOrder(rest, spans[0].to, n);
      if spans[0].Literal? {
        InOrderGrows(spans[0], Bodies(rest), i, spans[0].to, n);
      }
    }
  }

  // ---- the scanner -----------------------------------------------------------

  method BlockCommentEnd(text: string, start: nat) returns (j: nat)
    requires start + 2 <= |text|
    ensures j == CommentEnd(text, start + 2, 1)
  {
    var depth: nat;
    depth, j := 1, start + 2;
    while j < |text| && depth != 0
      invariant start + 2 <= j <= |text| && CommentEnd(text, start + 2, 1) == CommentEnd(text, j, depth)
    {
      if PairAt(text, j, '/', '*') {
        depth, j := depth + 1, j + 2;
      } else if PairAt(text, j, '*', '/') {
        depth, j := depth - 1, j + 2;
      } else {
        j := j + 1;
      }
    }
  }

  /** The loop of `take_string`: an escape steps over the character behind it, at most to the end. */
  method QuoteEnd(text: string, quote: nat) returns (j: nat)
    requires quote < |text|
    ensures j == StringEnd(text, quote + 1)
  {
    j := quote + 1;
    while j < |text| && text[j] != '"'
      invariant quote + 1 <= j <= |text| + 1
      invariant StringEnd(text, quote + 1) == StringEnd(text, if j > |text| then |text| else j)
      decreases |text| - j
    {
      j := j + if text[j] == '\\' then 2 else 1;
    }
    if j > |text| { j := |text|; }
  }

  lemma SpansStep(text: string, i: nat, done: seq<Span>)
    requires i < |text| && Spans(text, 0) == done + Spans(text, i)
    ensures Spans(text, 0) == done + Own(Next(text, i)) + Spans(text, Next(text, i).next)
  {
    hide Next, Own;
    var rest := Spans(text, Next(text, i).next);
    assert done + (Own(Next(text, i)) + rest) == done + Own(Next(text, i)) + rest;
  }

  lemma {:induction false} BodiesOfConcat(a: seq<Span>, b: seq<Span>)
    ensures Bodies(a + b) == Bodies(a) + Bodies(b)
  {
    if a == [] {
      assert a + b == b;
    } else {
      BodiesOfConcat(a[1..], b);
      assert (a + b)[1..] == a[1..] + b && (a + b)[0] == a[0];
      Associates(if a[0].Literal? then [a[0]] else [], Bodies(a[1..]), Bodies(b));
    }
  }

  /** One round of the scan, up to the token it found. */
  method ReadToken(text: string, i: nat) returns (t: Token)
    requires i < |text|
    ensures t == Next(text, i)
  {
    hide Find, CommentEnd, StringEnd, CharEnd, RawToken;
    t := Token(i + 1, None);
    if PairAt(text, i, '/', '/') {
      var end := Find(text, '\n', i);
      t := Token(end, Some(Comment(i, end)));
    } else if PairAt(text, i, '/', '*') {
      var end := BlockCommentEnd(text, i);
      t := Token(end, Some(Comment(i, end)));
    } else if text[i] == '"' {
      var end := QuoteEnd(text, i);
      t := Token(if end + 1 < |text| then end + 1 else |text|, Some(Literal(i + 1, end)));
    } else if text[i] == '\'' {
      t := Token(CharEnd(text, i), None);
    } else if (text[i] == 'r' || text[i] == 'b') && !AfterWord(text, i) {
      if RawStart(text, i) { t := RawToken(text, i); }
    }
  }

  /** The whole scan: the code is the text with exactly the spans blanked, and the literals are the
      bodies at their offsets. */
  method RustCodeAndLiterals(text: string) returns (code: string, literals: seq<Entry>)
    ensures code == Code(text)
    ensures Within(Bodies(Spans(text, 0)), |text|)
    ensures literals == Entries(text, Bodies(Spans(text, 0)))
  {
    var chars := new char[|text|](k requires 0 <= k < |text| => text[k]);
    literals := [];
    ghost var done: seq<Span> := [];
    var i := 0;
    while i < |text|
      invariant i <= |text| && Spans(text, 0) == done + Spans(text, i)
      invariant IsShaded(chars[..], text, done)
      invariant Within(Bodies(done), |text|) && literals == Entries(text, Bodies(done))
      decreases |text| - i
    {
      hide Spans, IsShaded, Bodies, Entries, Within;
      var t := ReadToken(text, i);
      hide Next;
      SpansStep(text, i, done);
      TokenDone(text, done, t);
      if t.span.Some? {
        BlankSpan(chars, text, done, t.span.value);
        if t.span.value.Literal? { literals := literals + [EntryOf(text, t.span.value)]; }
      }
      done := done + Own(t);
      i := t.next;
    }
    assert done + [] == done;
    code := chars[..];
  }

  lemma TokenDone(text: string, done: seq<Span>, t: Token)
    requires Within(Bodies(done), |text|) && (t.span.Some? ==> t.span.value.from <= t.span.value.to <= |text|)
    ensures Within(Bodies(done + Own(t)), |text|)
    ensures Entries(text, Bodies(done + Own(t))) == Entries(text, Bodies(done))
      + if t.span.Some? && t.span.value.Literal? then [EntryOf(text, t.span.value)] else []
    ensures t.span == None ==> done + Own(t) == done
  {
    BodiesOfConcat(done, Own(t));
    if t.span.Some? {
      assert [t.span.value][1..] == [];
    }
    hide EntryOf;
    assert Entries(text, Bodies(done + Own(t))) == Entries(text, Bodies(done))
      + (if t.span.Some? && t.span.value.Literal? then [EntryOf(text, t.span.value)] else []);
  }

  /** What the two results hold: the length and the line breaks of the source, spaces only in comments and
      literal bodies, and every literal the slice at its offset, one behind the other. */
  lemma FaithfulOverlay(text: string)
    ensures |Code(text)| == |text|
    ensures forall k :: 0 <= k < |text| ==>
      Code(text)[k] == if Inside(Spans(text, 0), k) && text[k] != '\n' then ' ' else text[k]
    ensures forall p :: 0 <= p <= |text| ==> LineOf(Code(text), p) == LineOf(text, p)
    ensures InOrder(Bodies(Spans(text, 0)), 0, |text|)
    ensures forall j :: 0 <= j < |Spans(text, 0)| ==> WellPlaced(text, Spans(text, 0)[j])
  {
    SpansAreInOrder(text, 0);
    SpansAreWellPlaced(text, 0);
    BodiesStayInOrder(Spans(text, 0), 0, |text|);
    hide Spans, Inside, InOrder, WellPlaced;
    forall p | 0 <= p <= |text|
      ensures LineOf(Code(text), p) == LineOf(text, p)
    {
      LinesStay(Code(text), text, Spans(text, 0), p);
    }
  }
}
