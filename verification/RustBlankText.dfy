/** `blank_text` (scripts/report/rust_scan.py): comments and literals blanked in place, and a refusal
    where one of them does not end. */
module RustBlankText {
  import opened Chars
  import opened RustArms
  import opened RustSpans
  import opened RustCode

  datatype ScanError = UnterminatedComment | UnterminatedRawString | UnterminatedString

  /** Where the comment with `depth` levels open at `j` is closed, if it is. */
  function CommentClose(text: string, j: nat, depth: nat): (r: Option<nat>)
    requires j <= |text|
    ensures r.Some? ==> j <= r.value <= |text|
    decreases |text| - j
  {
    if depth == 0 then Some(j)
    else if j == |text| then None
    else if PairAt(text, j, '/', '*') then CommentClose(text, j + 2, depth + 1)
    else if PairAt(text, j, '*', '/') then CommentClose(text, j + 2, depth - 1)
    else CommentClose(text, j + 1, depth)
  }

  /** `r(#*)"` matches at `i`. */
  predicate RawAt(text: string, i: nat) {
    i < |text| && text[i] == 'r' && At(text, Hashes(text, i + 1), '"')
  }

  /** The length of a char literal at `i`, or zero: one character that is no quote or backslash, or a
      backslash and anything but a line break. */
  function CharLength(text: string, i: nat): nat
    requires i < |text|
  {
    if At(text, i + 1, '\\') then
      if At(text, i + 3, '\'') && text[i + 2] != '\n' then 4 else 0
    else if At(text, i + 2, '\'') && text[i + 1] != '\'' then 3
    else 0
  }

  function RawPiece(text: string, i: nat): (r: Result<Token, ScanError>)
    requires RawAt(text, i)
    ensures r.Ok? ==> Fits(text, i, r.value)
  {
    var body := Hashes(text, i + 1) + 1;
    var hashes := body - 2 - i;
    var end := FindClose(text, hashes, body);
    if end == |text| then Err(UnterminatedRawString) else Ok(Token(end + 1 + hashes, Some(Literal(body, end))))
  }

  function StringPiece(text: string, i: nat): (r: Result<Token, ScanError>)
    requires At(text, i, '"')
    ensures r.Ok? ==> Fits(text, i, r.value)
  {
    var end := StringEnd(text, i + 1);
    if end == |text| then Err(UnterminatedString) else Ok(Token(end + 1, Some(Literal(i + 1, end))))
  }

  function CommentPiece(text: string, i: nat): (r: Result<Token, ScanError>)
    requires PairAt(text, i, '/', '*')
    ensures r.Ok? ==> Fits(text, i, r.value)
  {
    match CommentClose(text, i + 2, 1)
    case None => Err(UnterminatedComment)
    case Some(end) => Ok(Token(end, Some(Comment(i, end))))
  }

  function Piece(text: string, i: nat): (r: Result<Token, ScanError>)
    requires i < |text|
    ensures r.Ok? ==> Fits(text, i, r.value)
  {
    if PairAt(text, i, '/', '/') then Ok(Token(Find(text, '\n', i), Some(Comment(i, Find(text, '\n', i)))))
    else if PairAt(text, i, '/', '*') then CommentPiece(text, i)
    else if text[i] == 'r' && (At(text, i + 1, '#') || At(text, i + 1, '"')) then
      if RawAt(text, i) then RawPiece(text, i) else Ok(Token(i + 1, None))
    else if text[i] == '"' then StringPiece(text, i)
    else if text[i] == '\'' && CharLength(text, i) > 0 then
      Ok(Token(i + CharLength(text, i), Some(Literal(i + 1, i + CharLength(text, i) - 1))))
    else Ok(Token(i + 1, None))
  }

  /** The spans from `i` on, or the first refusal. */
  function Pieces(text: string, i: nat): Result<seq<Span>, ScanError>
    requires i <= |text|
    decreases |text| - i
  {
    if i == |text| then Ok([])
    else
      match Piece(text, i)
      case Err(e) => Err(e)
      case Ok(t) => Prefixed(Own(t), Pieces(text, t.next))
  }

  function Blanked(text: string): Result<string, ScanError> {
    match Pieces(text, 0)
    case Err(e) => Err(e)
    case Ok(spans) => Ok(Shaded(text, spans))
  }

  /** The comment loop: levels are counted until none is open or the text ends. */
  method CommentLoop(text: string, start: nat) returns (end: Option<nat>)
    requires start + 2 <= |text|
    ensures end == CommentClose(text, start + 2, 1)
  {
    var depth: nat, j := 1, start + 2;
    while j < |text| && depth != 0
      invariant start + 2 <= j <= |text| && CommentClose(text, start + 2, 1) == CommentClose(text, j, depth)
    {
      if PairAt(text, j, '/', '*') {
        depth, j := depth + 1, j + 2;
      } else if PairAt(text, j, '*', '/') {
        depth, j := depth - 1, j + 2;
      } else {
        j := j + 1;
      }
    }
    end := if depth != 0 then None else Some(j);
  }

  lemma PiecesStep(text: string, i: nat, done: seq<Span>)
    requires i < |text| && Pieces(text, 0) == Prefixed(done, Pieces(text, i))
    ensures Piece(text, i).Err? ==> Pieces(text, 0) == Err(Piece(text, i).error)
    ensures Piece(text, i).Ok? ==>
      Pieces(text, 0) == Prefixed(done + Own(Piece(text, i).value), Pieces(text, Piece(text, i).value.next))
  {
    hide Piece, Own;
    if Piece(text, i).Ok? {
      var t := Piece(text, i).value;
      PrefixedTwice(done, Own(t), Pieces(text, t.next));
    }
  }

  /** One round of the scan, up to the piece it found. */
  method ReadPiece(text: string, i: nat) returns (r: Result<Token, ScanError>)
    requires i < |text|
    ensures r == Piece(text, i)
  {
    r := Ok(Token(i + 1, None));
    if PairAt(text, i, '/', '/') {
      var j := Find(text, '\n', i);
      r := Ok(Token(j, Some(Comment(i, j))));
    } else if PairAt(text, i, '/', '*') {
      var end := CommentLoop(text, i);
      r := if end == None then Err(UnterminatedComment) else Ok(Token(end.value, Some(Comment(i, end.value))));
    } else if text[i] == 'r' && (At(text, i + 1, '#') || At(text, i + 1, '"')) {
      if RawAt(text, i) { r := RawPiece(text, i); }
    } else if text[i] == '"' {
      var j := QuoteEnd(text, i);
      r := if j == |text| then Err(UnterminatedString) else Ok(Token(j + 1, Some(Literal(i + 1, j))));
    } else if text[i] == '\'' {
      var length := CharLength(text, i);
      if length > 0 { r := Ok(Token(i + length, Some(Literal(i + 1, i + length - 1)))); }
    }
  }

  method BlankText(src: string) returns (out: Result<string, ScanError>)
    ensures out == Blanked(src)
  {
    hide IsShaded, Piece;
    var chars := new char[|src|](k requires 0 <= k < |src| => src[k]);
    ghost var done: seq<Span> := [];
    assert IsShaded(chars[..], src, done) by { NothingShaded(src, chars[..]); }
    PrefixedEnds([], Pieces(src, 0));
    var i := 0;
    while i < |src|
      invariant i <= |src| && Pieces(src, 0) == Prefixed(done, Pieces(src, i))
      invariant IsShaded(chars[..], src, done)
      decreases |src| - i
    {
      hide Pieces, Prefixed;
      var piece := ReadPiece(src, i);
      PiecesStep(src, i, done);
      match piece {
        case Err(e) => return Err(e);
        case Ok(t) =>
          if t.span.Some? { BlankSpan(chars, src, done, t.span.value); } else { assert done + Own(t) == done; }
          done := done + Own(t);
          i := t.next;
      }
    }
    assert done + [] == done;
    ShadedIsUnique(src, done, chars[..]);
    out := Ok(chars[..]);
  }

  lemma NothingShaded(text: string, code: string)
    requires code == text
    ensures IsShaded(code, text, [])
  {
  }

  lemma ShadedIsUnique(text: string, spans: seq<Span>, code: string)
    requires IsShaded(code, text, spans)
    ensures code == Shaded(text, spans)
  {
  }

  lemma {:induction false} PiecesAreInOrder(text: string, i: nat)
    requires i <= |text| && Pieces(text, i).Ok?
    ensures InOrder(Pieces(text, i).value, i, |text|)
    decreases |text| - i
  {
    if i < |text| {
      hide Piece, InOrder;
      var t := Piece(text, i).value;
      PiecesAreInOrder(text, t.next);
      var rest := Pieces(text, t.next).value;
      if t.span.Some? {
        InOrderGrows(t.span.value, rest, i, t.next, |text|);
      } else {
        assert [] + rest == rest;
        LaterIsInOrder(rest, i, t.next, |text|);
      }
    } else {
      assert InOrder([], i, |text|);
    }
  }

  lemma LaterIsInOrder(spans: seq<Span>, i: nat, next: nat, n: nat)
    requires i <= next && InOrder(spans, next, n)
    ensures InOrder(spans, i, n)
  {
  }

  /** A text that is not refused keeps its length, its line breaks and so its line numbers, and loses
      nothing outside its comments and literals. */
  lemma BlankedKeepsLines(text: string)
    requires Blanked(text).Ok?
    ensures var out, spans := Blanked(text).value, Pieces(text, 0).value;
      && |out| == |text| && InOrder(spans, 0, |text|)
      && (forall k :: 0 <= k < |text| ==> out[k] == if Inside(spans, k) && text[k] != '\n' then ' ' else text[k])
      && (forall p :: 0 <= p <= |text| ==> LineOf(out, p) == LineOf(text, p))
  {
    var out, spans := Blanked(text).value, Pieces(text, 0).value;
    PiecesAreInOrder(text, 0);
    hide Pieces, Inside, InOrder;
    forall p | 0 <= p <= |text|
      ensures LineOf(out, p) == LineOf(text, p)
    {
      LinesStay(out, text, spans, p);
    }
  }
}
