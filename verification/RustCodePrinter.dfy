/** A printer for Rust text whose comments and literals `rust_code_and_literals` finds again
    (scripts/report/scripts_gate_external.py). */
module RustCodePrinter {
  import opened Chars
  import opened RustSpans
  import opened RustCode

  // ---- tokens ----------------------------------------------------------------

  /** The inside of a block comment: characters, and comments of its own. */
  datatype Nest = End | Text(c: char, rest: Nest) | Inner(inner: Nest, rest: Nest)

  /** One character of a string body. */
  datatype Letter = Bare(c: char) | Slash(c: char)

  datatype Tok =
    | Plain(c: char)
    | LineComment(s: string)
    | BlockComment(n: Nest)
    | Str(q: seq<Letter>)
    | RawStr(byte: bool, hashes: nat, body: string)
    | CharOf(c: char)
    | EscapedChar(c: char, rest: string)
    | Tick

  function PrintNest(n: Nest): string {
    match n
    case End => []
    case Text(c, rest) => [c] + PrintNest(rest)
    case Inner(inner, rest) => ['/', '*'] + (PrintNest(inner) + (['*', '/'] + PrintNest(rest)))
  }

  function PrintLetters(q: seq<Letter>): string {
    if q == [] then []
    else (match q[0] case Bare(c) => [c] case Slash(c) => ['\\', c]) + PrintLetters(q[1..])
  }

  function Marks(n: nat): (r: string)
    ensures |r| == n && forall k :: 0 <= k < n ==> r[k] == '#'
  {
    seq(n, _ => '#')
  }

  function Prefix(byte: bool): string {
    if byte then ['b', 'r'] else ['r']
  }

  /** What stands in front of the body of a token's literal. */
  function Lead(t: Tok): string {
    match t
    case Str(_) => ['"']
    case RawStr(byte, hashes, _) => Prefix(byte) + (Marks(hashes) + ['"'])
    case _ => []
  }

  function PrintTok(t: Tok): string {
    match t
    case Plain(c) => [c]
    case LineComment(s) => ['/', '/'] + s
    case BlockComment(n) => ['/', '*'] + (PrintNest(n) + ['*', '/'])
    case Str(q) => Lead(t) + (PrintLetters(q) + ['"'])
    case RawStr(_, hashes, body) => Lead(t) + (body + (['"'] + Marks(hashes)))
    case CharOf(c) => ['\'', c, '\'']
    case EscapedChar(c, rest) => ['\'', '\\', c] + (rest + ['\''])
    case Tick => ['\'']
  }

  function Print(toks: seq<Tok>): string {
    if toks == [] then [] else PrintTok(toks[0]) + Print(toks[1..])
  }

  // ---- where each token ends -------------------------------------------------

  /** No character of the comment opens or closes one together with what follows it. */
  predicate NestFits(code: string, j: nat, n: Nest)
    decreases n
  {
    match n
    case End => true
    case Text(_, rest) => !PairAt(code, j, '/', '*') && !PairAt(code, j, '*', '/') && NestFits(code, j + 1, rest)
    case Inner(inner, rest) => NestFits(code, j + 2, inner) && NestFits(code, j + 4 + |PrintNest(inner)|, rest)
  }

  predicate IsLetters(q: seq<Letter>) {
    forall k :: 0 <= k < |q| && q[k].Bare? ==> q[k].c != '"' && q[k].c != '\\'
  }

  /** No raw string with these marks closes from `from` up to `to`. */
  predicate NoClose(code: string, hashes: nat, from: nat, to: nat) {
    forall k :: from <= k < to ==> !ClosesRaw(code, hashes, k)
  }

  /** The token printed at `i` is the one meant: nothing around it makes it another. */
  predicate TokFits(code: string, i: nat, t: Tok) {
    var e := i + |PrintTok(t)|;
    match t
    case Plain(c) =>
      && c != '"' && c != '\'' && !PairAt(code, i, '/', '/') && !PairAt(code, i, '/', '*')
      && (c == 'r' || c == 'b' ==> AfterWord(code, i) || !RawStart(code, i))
    case LineComment(s) => '\n' !in s && (e < |code| ==> code[e] == '\n')
    case BlockComment(n) => NestFits(code, i + 2, n)
    case Str(q) => IsLetters(q)
    case RawStr(_, hashes, body) =>
      !AfterWord(code, i) && NoClose(code, hashes, i + |Lead(t)|, i + |Lead(t)| + |body|)
    case CharOf(c) => c != '\\'
    case EscapedChar(_, rest) => '\'' !in rest
    case Tick => !At(code, i + 1, '\\') && !At(code, i + 2, '\'')
  }

  predicate AllFit(code: string, i: nat, toks: seq<Tok>)
    decreases |toks|
  {
    toks == [] || (TokFits(code, i, toks[0]) && AllFit(code, i + |PrintTok(toks[0])|, toks[1..]))
  }

  // ---- what is to be found ---------------------------------------------------

  /** The body of a token's literal. */
  function BodyOf(t: Tok): string {
    match t
    case Str(q) => PrintLetters(q)
    case RawStr(_, _, body) => body
    case _ => []
  }

  predicate HoldsLiteral(t: Tok) {
    t.Str? || t.RawStr?
  }

  /** The span of a token printed at `i`. */
  function SpanOf(t: Tok, i: nat): Option<Span> {
    if t.LineComment? || t.BlockComment? then Some(Comment(i, i + |PrintTok(t)|))
    else if HoldsLiteral(t) then Some(Literal(i + |Lead(t)|, i + |Lead(t)| + |BodyOf(t)|))
    else None
  }

  function Placed(toks: seq<Tok>, i: nat): seq<Span>
    decreases |toks|
  {
    if toks == [] then []
    else
      var rest := Placed(toks[1..], i + |PrintTok(toks[0])|);
      match SpanOf(toks[0], i)
      case None => rest
      case Some(s) => [s] + rest
  }

  /** The literals with their offsets. */
  function Literals(toks: seq<Tok>, i: nat): seq<Entry>
    decreases |toks|
  {
    if toks == [] then []
    else
      (if HoldsLiteral(toks[0]) then [Entry(i + |Lead(toks[0])|, BodyOf(toks[0]))] else [])
      + Literals(toks[1..], i + |PrintTok(toks[0])|)
  }

  // ---- one token -------------------------------------------------------------

  lemma {:induction false} NestPasses(code: string, j: nat, n: Nest, depth: nat)
    requires depth >= 1 && Reads(code, j, PrintNest(n)) && NestFits(code, j, n)
    ensures j + |PrintNest(n)| <= |code| && CommentEnd(code, j, depth) == CommentEnd(code, j + |PrintNest(n)|, depth)
    decreases n
  {
    hide *;
    match n {
      case End => NothingPasses(code, j, depth);
      case Text(c, rest) =>
        TextStep(code, j, c, rest, depth);
        NestPasses(code, j + 1, rest, depth);
      case Inner(inner, rest) =>
        InnerReads(code, j, inner, rest);
        NestPasses(code, j + 2, inner, depth + 1);
        NestPasses(code, j + 4 + |PrintNest(inner)|, rest, depth);
        InnerStep(code, j, j + 2 + |PrintNest(inner)|, depth);
    }
  }

  lemma NothingPasses(code: string, j: nat, depth: nat)
    requires Reads(code, j, PrintNest(End))
    ensures j + |PrintNest(End)| <= |code|
    ensures CommentEnd(code, j, depth) == CommentEnd(code, j + |PrintNest(End)|, depth)
  {
    hide CommentEnd;
  }

  lemma InnerStep(code: string, j: nat, k: nat, depth: nat)
    requires depth >= 1 && PairAt(code, j, '/', '*') && PairAt(code, k, '*', '/')
    requires CommentEnd(code, j + 2, depth + 1) == CommentEnd(code, k, depth + 1)
    ensures CommentEnd(code, j, depth) == CommentEnd(code, k + 2, depth)
  {
    Opens(code, j, depth);
    Closes(code, k, depth + 1);
    hide CommentEnd;
  }

  lemma TextStep(code: string, j: nat, c: char, rest: Nest, depth: nat)
    requires depth >= 1 && Reads(code, j, PrintNest(Text(c, rest))) && NestFits(code, j, Text(c, rest))
    ensures Reads(code, j + 1, PrintNest(rest)) && NestFits(code, j + 1, rest)
    ensures |PrintNest(Text(c, rest))| == 1 + |PrintNest(rest)|
    ensures j < |code| && CommentEnd(code, j, depth) == CommentEnd(code, j + 1, depth)
  {
    hide CommentEnd;
    ReadsSplit(code, j, [c], PrintNest(rest));
    TextPasses(code, j, c, depth);
  }

  lemma InnerReads(code: string, j: nat, inner: Nest, rest: Nest)
    requires Reads(code, j, PrintNest(Inner(inner, rest))) && NestFits(code, j, Inner(inner, rest))
    ensures var k := j + 2 + |PrintNest(inner)|;
      && PairAt(code, j, '/', '*') && Reads(code, j + 2, PrintNest(inner)) && NestFits(code, j + 2, inner)
      && PairAt(code, k, '*', '/') && Reads(code, k + 2, PrintNest(rest)) && NestFits(code, k + 2, rest)
      && k + 2 <= |code| && |PrintNest(Inner(inner, rest))| == 4 + |PrintNest(inner)| + |PrintNest(rest)|
  {
    var p, q := PrintNest(inner), PrintNest(rest);
    assert Reads(code, j, ['/', '*'] + (p + (['*', '/'] + q)));
    assert NestFits(code, j + 2, inner) && NestFits(code, j + 4 + |p|, rest);
    hide NestFits, Reads, PairAt;
    InnerParts(code, j, p, q);
  }

  lemma InnerParts(code: string, j: nat, p: string, q: string)
    requires Reads(code, j, ['/', '*'] + (p + (['*', '/'] + q)))
    ensures PairAt(code, j, '/', '*') && Reads(code, j + 2, p)
    ensures PairAt(code, j + 2 + |p|, '*', '/') && Reads(code, j + 4 + |p|, q) && j + 4 + |p| <= |code|
  {
    ReadsSplit(code, j, ['/', '*'], p + (['*', '/'] + q));
    ReadsSplit(code, j + 2, p, ['*', '/'] + q);
    ReadsSplit(code, j + 2 + |p|, ['*', '/'], q);
    PairRead(code, j, '/', '*');
    PairRead(code, j + 2 + |p|, '*', '/');
  }

  lemma PairRead(code: string, j: nat, a: char, b: char)
    requires Reads(code, j, [a, b])
    ensures PairAt(code, j, a, b)
  {
    assert code[j + 0] == [a, b][0] && code[j + 1] == [a, b][1];
  }

  lemma TextPasses(code: string, j: nat, c: char, depth: nat)
    requires Reads(code, j, [c]) && depth >= 1 && !PairAt(code, j, '/', '*') && !PairAt(code, j, '*', '/')
    ensures j < |code| && CommentEnd(code, j, depth) == CommentEnd(code, j + 1, depth)
  {
  }

  lemma Opens(code: string, j: nat, depth: nat)
    requires PairAt(code, j, '/', '*') && depth >= 1
    ensures CommentEnd(code, j, depth) == CommentEnd(code, j + 2, depth + 1)
  {
  }

  lemma Closes(code: string, j: nat, depth: nat)
    requires PairAt(code, j, '*', '/') && depth >= 1
    ensures CommentEnd(code, j, depth) == if depth == 1 then j + 2 else CommentEnd(code, j + 2, depth - 1)
  {
  }

  lemma CommentParts(code: string, i: nat, p: string)
    requires Reads(code, i, ['/', '*'] + (p + ['*', '/']))
    ensures PairAt(code, i, '/', '*') && Reads(code, i + 2, p) && PairAt(code, i + 2 + |p|, '*', '/')
  {
    ReadsSplit(code, i, ['/', '*'], p + ['*', '/']);
    ReadsSplit(code, i + 2, p, ['*', '/']);
    PairRead(code, i, '/', '*');
    PairRead(code, i + 2 + |p|, '*', '/');
  }

  lemma CommentReads(code: string, i: nat, n: Nest)
    requires Reads(code, i, PrintTok(BlockComment(n))) && NestFits(code, i + 2, n)
    ensures i < |code| && Next(code, i) == Token(i + |PrintTok(BlockComment(n))|, SpanOf(BlockComment(n), i))
  {
    CommentParts(code, i, PrintNest(n));
    hide NestFits, PrintNest, CommentEnd, Reads;
    NestPasses(code, i + 2, n, 1);
    Closes(code, i + 2 + |PrintNest(n)|, 1);
  }

  lemma {:induction false} LettersRead(code: string, j: nat, q: seq<Letter>)
    requires IsLetters(q) && Reads(code, j, PrintLetters(q) + ['"'])
    ensures StringEnd(code, j) == j + |PrintLetters(q)|
    decreases |q|
  {
    if q == [] {
      assert code[j + 0] == (PrintLetters(q) + ['"'])[0];
    } else {
      var own := match q[0] case Bare(c) => [c] case Slash(c) => ['\\', c];
      Associates(own, PrintLetters(q[1..]), ['"']);
      ReadsSplit(code, j, own, PrintLetters(q[1..]) + ['"']);
      assert code[j + 0] == own[0];
      assert forall k :: 0 <= k < |q[1..]| ==> q[1..][k] == q[k + 1];
      LettersRead(code, j + |own|, q[1..]);
    }
  }

  lemma HashesAre(code: string, i: nat, n: nat)
    requires Reads(code, i, Marks(n) + ['"'])
    ensures Hashes(code, i) == i + n && At(code, i + n, '"')
  {
    ReadsSplit(code, i, Marks(n), ['"']);
    assert code[i + n + 0] == ['"'][0];
    forall k | i <= k < i + n
      ensures code[k] == '#'
    {
      assert code[i + (k - i)] == Marks(n)[k - i];
    }
  }

  /** The parts of a raw string, each at its place. */
  lemma RawParts(code: string, i: nat, byte: bool, hashes: nat, body: string)
    requires Reads(code, i, PrintTok(RawStr(byte, hashes, body)))
    ensures var mark := i + |Prefix(byte)|;
      var b := mark + hashes + 1;
      && Reads(code, i, Prefix(byte)) && Reads(code, mark, Marks(hashes) + ['"'])
      && Reads(code, b, body) && Reads(code, b + |body|, ['"'] + Marks(hashes))
  {
    var t := RawStr(byte, hashes, body);
    var close := ['"'] + Marks(hashes);
    ReadsSplit(code, i, Lead(t), body + close);
    ReadsSplit(code, i, Prefix(byte), Marks(hashes) + ['"']);
    ReadsSplit(code, i + |Lead(t)|, body, close);
  }

  lemma RawStarts(code: string, i: nat, byte: bool, hashes: nat)
    requires Reads(code, i, Prefix(byte)) && Reads(code, i + |Prefix(byte)|, Marks(hashes) + ['"'])
    ensures RawStart(code, i) && (code[i] == 'r' || code[i] == 'b')
    ensures var mark := i + |Prefix(byte)|;
      RawMark(code, i) + 1 == mark <= |code| && Hashes(code, mark) == mark + hashes
  {
    assert code[i + 0] == Prefix(byte)[0] && (byte ==> code[i + 1] == Prefix(byte)[1]);
    HashesAre(code, i + |Prefix(byte)|, hashes);
    hide Hashes;
  }

  lemma RawTokenIs(code: string, i: nat, mark: nat, b: nat, e: nat)
    requires RawStart(code, i) && RawMark(code, i) + 1 == mark && Hashes(code, mark) == b - 1 && mark < b <= e < |code|
    requires FindClose(code, b - 1 - mark, b) == e
    ensures RawToken(code, i) == Token(e + b - mark, Some(Literal(b, e)))
  {
    hide FindClose, Hashes, RawMark;
  }

  lemma RawCloses(code: string, b: nat, hashes: nat, body: string)
    requires Reads(code, b + |body|, ['"'] + Marks(hashes)) && NoClose(code, hashes, b, b + |body|)
    ensures b + |body| < |code| && FindClose(code, hashes, b) == b + |body|
  {
    CloseReads(code, b + |body|, hashes);
    FirstClose(code, hashes, b, b + |body|);
  }

  lemma RawReads(code: string, i: nat, byte: bool, hashes: nat, body: string)
    requires Reads(code, i, PrintTok(RawStr(byte, hashes, body)))
    requires var b := i + |Prefix(byte)| + hashes + 1; NoClose(code, hashes, b, b + |body|)
    ensures var b := i + |Prefix(byte)| + hashes + 1;
      && RawStart(code, i) && (code[i] == 'r' || code[i] == 'b')
      && RawToken(code, i) == Token(b + |body| + 1 + hashes, Some(Literal(b, b + |body|)))
  {
    hide *;
    var mark := i + |Prefix(byte)|;
    var b := mark + hashes + 1;
    RawParts(code, i, byte, hashes, body);
    RawStarts(code, i, byte, hashes);
    RawCloses(code, b, hashes, body);
    RawTokenIs(code, i, mark, b, b + |body|);
  }

  lemma CloseReads(code: string, j: nat, hashes: nat)
    requires Reads(code, j, ['"'] + Marks(hashes))
    ensures ClosesRaw(code, hashes, j)
  {
    ReadsSplit(code, j, ['"'], Marks(hashes));
    assert code[j + 0] == ['"'][0];
    forall k | j < k <= j + hashes
      ensures code[k] == '#'
    {
      assert code[j + 1 + (k - j - 1)] == Marks(hashes)[k - j - 1];
    }
  }

  lemma FirstClose(code: string, hashes: nat, from: nat, e: nat)
    requires from <= e < |code| && ClosesRaw(code, hashes, e) && NoClose(code, hashes, from, e)
    ensures FindClose(code, hashes, from) == e
  {
  }

  lemma StringReads(code: string, i: nat, q: seq<Letter>)
    requires IsLetters(q) && Reads(code, i, PrintTok(Str(q)))
    ensures i < |code| && Next(code, i) == Token(i + |PrintTok(Str(q))|, SpanOf(Str(q), i))
  {
    ReadsSplit(code, i, ['"'], PrintLetters(q) + ['"']);
    assert code[i + 0] == ['"'][0];
    LettersRead(code, i + 1, q);
    hide StringEnd, PrintLetters;
  }

  lemma LineReads(code: string, i: nat, s: string)
    requires Reads(code, i, PrintTok(LineComment(s))) && TokFits(code, i, LineComment(s))
    ensures i < |code| && Next(code, i) == Token(i + |PrintTok(LineComment(s))|, SpanOf(LineComment(s), i))
  {
    hide Find;
    var text := ['/', '/'] + s;
    ReadsSplit(code, i, ['/', '/'], s);
    PairRead(code, i, '/', '/');
    forall k | i <= k < i + 2 + |s|
      ensures code[k] != '\n'
    {
      assert code[i + (k - i)] == text[k - i];
      if k >= i + 2 { assert text[k - i] == s[k - i - 2]; }
    }
    FindIs(code, '\n', i, i + 2 + |s|);
  }

  lemma EscapedReads(code: string, i: nat, c: char, rest: string)
    requires Reads(code, i, PrintTok(EscapedChar(c, rest))) && '\'' !in rest
    ensures At(code, i, '\'') && CharEnd(code, i) == i + 4 + |rest|
  {
    var head := ['\'', '\\', c];
    ReadsSplit(code, i, head, rest + ['\'']);
    ReadsSplit(code, i + 3, rest, ['\'']);
    assert code[i + 0] == head[0] && code[i + 1] == head[1] && code[i + 3 + |rest| + 0] == ['\''][0];
    forall k | i + 3 <= k < i + 3 + |rest|
      ensures code[k] != '\''
    {
      assert code[i + 3 + (k - i - 3)] == rest[k - i - 3];
    }
    FindIs(code, '\'', i + 3, i + 3 + |rest|);
  }

  lemma CharReads(code: string, i: nat, t: Tok)
    requires (t.CharOf? || t.EscapedChar? || t.Tick?) && Reads(code, i, PrintTok(t)) && TokFits(code, i, t)
    ensures i < |code| && Next(code, i) == Token(i + |PrintTok(t)|, None)
  {
    hide Find, RawStart;
    match t {
      case EscapedChar(c, rest) => EscapedReads(code, i, c, rest);
      case CharOf(c) =>
        var text := ['\'', c, '\''];
        assert code[i + 0] == text[0] && code[i + 1] == text[1] && code[i + 2] == text[2];
      case Tick => assert code[i + 0] == ['\''][0];
    }
  }

  lemma RawIsNext(code: string, i: nat)
    requires RawStart(code, i) && (code[i] == 'r' || code[i] == 'b') && !AfterWord(code, i)
    ensures Next(code, i) == RawToken(code, i)
  {
    hide RawStart, RawToken, AfterWord;
  }

  lemma RawNext(code: string, i: nat, t: Tok)
    requires t.RawStr? && Reads(code, i, PrintTok(t)) && TokFits(code, i, t)
    ensures i < |code| && Next(code, i) == Token(i + |PrintTok(t)|, SpanOf(t, i))
  {
    hide RawStart, RawToken, NoClose, AfterWord, Reads, Next;
    RawReads(code, i, t.byte, t.hashes, t.body);
    RawIsNext(code, i);
  }

  /** The scan at a printed token is done with it where it ends, with its span. */
  lemma TokReads(code: string, i: nat, t: Tok)
    requires Reads(code, i, PrintTok(t)) && TokFits(code, i, t)
    ensures i < |code| && Next(code, i) == Token(i + |PrintTok(t)|, SpanOf(t, i))
  {
    match t {
      case Plain(c) =>
        assert code[i + 0] == [c][0];
        hide RawStart, AfterWord;
      case LineComment(s) => LineReads(code, i, s);
      case BlockComment(n) =>
        hide Next;
        CommentReads(code, i, n);
      case Str(q) =>
        hide Next;
        StringReads(code, i, q);
      case RawStr(_, _, _) =>
        hide Next;
        RawNext(code, i, t);
      case _ =>
        hide Next;
        CharReads(code, i, t);
    }
  }

  // ---- the whole text --------------------------------------------------------

  /** The comments and literals the scan finds are exactly the printed ones. */
  lemma {:induction false} PrintedSpans(code: string, i: nat, toks: seq<Tok>)
    requires AllFit(code, i, toks) && Reads(code, i, Print(toks)) && i + |Print(toks)| == |code|
    ensures Spans(code, i) == Placed(toks, i)
    decreases |toks|
  {
    hide TokFits, PrintTok, SpanOf, Next;
    if toks != [] {
      ReadsSplit(code, i, PrintTok(toks[0]), Print(toks[1..]));
      TokReads(code, i, toks[0]);
      PrintedSpans(code, i + |PrintTok(toks[0])|, toks[1..]);
    }
  }

  // ---- the text with its comments and bodies blanked -------------------------

  /** Spaces for everything but line breaks. */
  function Spaces(s: string): (r: string)
    ensures |r| == |s| && forall k :: 0 <= k < |s| ==> r[k] == if s[k] != '\n' then ' ' else s[k]
  {
    seq(|s|, k requires 0 <= k < |s| => if s[k] != '\n' then ' ' else s[k])
  }

  /** What is printed behind the body of a token's literal. */
  function Close(t: Tok): string {
    match t
    case Str(_) => ['"']
    case RawStr(_, hashes, _) => ['"'] + Marks(hashes)
    case _ => []
  }

  function BlankTok(t: Tok): string {
    if t.LineComment? || t.BlockComment? then Spaces(PrintTok(t))
    else if HoldsLiteral(t) then Lead(t) + (Spaces(BodyOf(t)) + Close(t))
    else PrintTok(t)
  }

  function PrintCode(toks: seq<Tok>): string {
    if toks == [] then [] else BlankTok(toks[0]) + PrintCode(toks[1..])
  }

  lemma LiteralParts(t: Tok)
    requires HoldsLiteral(t)
    ensures PrintTok(t) == Lead(t) + (BodyOf(t) + Close(t)) && |BlankTok(t)| == |PrintTok(t)|
  {
  }

  lemma BlankTokSize(t: Tok)
    ensures |BlankTok(t)| == |PrintTok(t)| > 0
  {
    if HoldsLiteral(t) { LiteralParts(t); }
  }

  lemma PartsShade(lead: string, body: string, close: string, k: nat)
    requires k < |lead + (body + close)|
    ensures (lead + (Spaces(body) + close))[k]
         == if |lead| <= k < |lead| + |body| && body[k - |lead|] != '\n' then ' ' else (lead + (body + close))[k]
  {
  }

  lemma PartsAt(lead: string, body: string, close: string, k: nat)
    requires |lead| <= k < |lead| + |body|
    ensures (lead + (body + close))[k] == body[k - |lead|]
  {
  }

  predicate IsIn(span: Option<Span>, k: int) {
    span.Some? && Covers(span.value, k)
  }

  lemma TokShade(t: Tok, k: nat, i: nat)
    requires k < |PrintTok(t)|
    ensures |BlankTok(t)| == |PrintTok(t)|
    ensures BlankTok(t)[k]
         == if IsIn(SpanOf(t, i), i + k) && PrintTok(t)[k] != '\n' then ' ' else PrintTok(t)[k]
  {
    if HoldsLiteral(t) {
      LiteralParts(t);
      hide PrintTok, Lead, BodyOf, Close, Spaces;
      PartsShade(Lead(t), BodyOf(t), Close(t), k);
      if |Lead(t)| <= k < |Lead(t)| + |BodyOf(t)| { PartsAt(Lead(t), BodyOf(t), Close(t), k); }
    } else {
      hide PrintTok, Spaces;
    }
  }

  /** A span of the token, and spans behind it. */
  lemma ShadeSplits(own: Option<Span>, rest: seq<Span>, i: nat, e: nat, n: nat, k: nat)
    requires i <= e <= n && InOrder(rest, e, n) && (own.Some? ==> i <= own.value.from <= own.value.to <= e)
    ensures var all := (match own case None => rest case Some(s) => [s] + rest);
      && (k < e ==> (Inside(all, k) <==> IsIn(own, k)))
      && (k >= e ==> (Inside(all, k) <==> Inside(rest, k)))
  {
    match own {
      case None => 
      case Some(s) =>
        InsideConcat([s], rest, k);
        InsideOne(s, k);
    }
  }

  lemma {:induction false} ShadedPrint(code: string, i: nat, toks: seq<Tok>, k: nat)
    requires AllFit(code, i, toks) && Reads(code, i, Print(toks)) && i + |Print(toks)| == |code| && k < |Print(toks)|
    ensures |PrintCode(toks)| == |Print(toks)|
    ensures PrintCode(toks)[k] == Shade(code, Placed(toks, i), i + k)
    decreases |toks|
  {
    hide TokFits, PrintTok, BlankTok, SpanOf, Next, Inside, InOrder, Spans;
    var t, rest := toks[0], toks[1..];
    var e := i + |PrintTok(t)|;
    ReadsSplit(code, i, PrintTok(t), Print(rest));
    TokReads(code, i, t);
    BlankTokSize(t);
    SizeOfCode(rest);
    PrintedSpans(code, e, rest);
    SpansAreInOrder(code, e);
    ShadeSplits(SpanOf(t, i), Placed(rest, e), i, e, |code|, i + k);
    assert code[i + k] == Print(toks)[k];
    if i + k < e {
      TokShade(t, k, i);
    } else {
      ShadedPrint(code, e, rest, i + k - e);
    }
  }

  lemma {:induction false} SizeOfCode(toks: seq<Tok>)
    ensures |PrintCode(toks)| == |Print(toks)|
  {
    if toks != [] {
      BlankTokSize(toks[0]);
      SizeOfCode(toks[1..]);
    }
  }

  lemma EntriesOfMore(code: string, own: Span, more: seq<Span>)
    requires Within(Bodies(more), |code|) && own.from <= own.to <= |code|
    ensures Within(Bodies([own] + more), |code|)
    ensures Entries(code, Bodies([own] + more))
         == (if own.Literal? then [EntryOf(code, own)] else []) + Entries(code, Bodies(more))
  {
    hide EntryOf;
    assert ([own] + more)[1..] == more;
    if own.Literal? {
      assert Bodies([own] + more) == [own] + Bodies(more);
      assert ([own] + Bodies(more))[1..] == Bodies(more);
    } else {
      assert [] + Bodies(more) == Bodies(more);
      assert [] + Entries(code, Bodies(more)) == Entries(code, Bodies(more));
    }
  }

  lemma {:induction false} PrintedEntries(code: string, i: nat, toks: seq<Tok>)
    requires AllFit(code, i, toks) && Reads(code, i, Print(toks)) && i + |Print(toks)| == |code|
    ensures Within(Bodies(Placed(toks, i)), |code|) && Entries(code, Bodies(Placed(toks, i))) == Literals(toks, i)
    decreases |toks|
  {
    hide TokFits, PrintTok, Lead, BodyOf, Reads, Bodies, Entries, Within;
    if toks == [] {
      NoEntries(code);
    } else {
      var t, rest := toks[0], toks[1..];
      var e := i + |PrintTok(t)|;
      ReadsSplit(code, i, PrintTok(t), Print(rest));
      PrintedEntries(code, e, rest);
      SpanIsInside(code, i, t);
      if SpanOf(t, i).Some? {
        EntriesOfMore(code, SpanOf(t, i).value, Placed(rest, e));
      }
    }
  }

  lemma NoEntries(code: string)
    ensures Within(Bodies([]), |code|) && Entries(code, Bodies([])) == []
  {
  }

  lemma SpanIsInside(code: string, i: nat, t: Tok)
    requires Reads(code, i, PrintTok(t))
    ensures SpanOf(t, i).Some? ==> SpanOf(t, i).value.from <= SpanOf(t, i).value.to <= |code|
    ensures SpanOf(t, i).Some? && SpanOf(t, i).value.Literal? <==> HoldsLiteral(t)
    ensures HoldsLiteral(t) ==> EntryOf(code, SpanOf(t, i).value) == Entry(i + |Lead(t)|, BodyOf(t))
  {
    hide PrintTok, Lead, BodyOf, Close, Reads, BlankTok, HoldsLiteral;
    if HoldsLiteral(t) {
      LiteralParts(t);
      MiddleReads(code, i, Lead(t), BodyOf(t), Close(t));
      assert HoldsLiteral(t) ==> !t.LineComment? && !t.BlockComment? by { LiteralIsNoComment(t); }
    } else {
      ReadsInside(code, i, PrintTok(t));
    }
  }

  lemma LiteralIsNoComment(t: Tok)
    requires HoldsLiteral(t)
    ensures !t.LineComment? && !t.BlockComment?
  {
  }

  lemma ReadsInside(code: string, i: nat, word: string)
    requires Reads(code, i, word)
    ensures i + |word| <= |code|
  {
  }

  lemma MiddleReads(code: string, i: nat, lead: string, body: string, close: string)
    requires Reads(code, i, lead + (body + close))
    ensures var b := i + |lead|; b + |body| <= |code| && code[b..b + |body|] == body
  {
    ReadsSplit(code, i, lead, body + close);
    ReadsSplit(code, i + |lead|, body, close);
  }

  /** Printed text is read back: the scan finds exactly its comments and literals, blanks exactly the comments and
      the literal bodies, and lists every body at its offset. */
  lemma PrintedTextReadsBack(toks: seq<Tok>)
    requires AllFit(Print(toks), 0, toks)
    ensures var text := Print(toks);
      && Spans(text, 0) == Placed(toks, 0) && Code(text) == PrintCode(toks)
      && Within(Bodies(Spans(text, 0)), |text|) && Entries(text, Bodies(Spans(text, 0))) == Literals(toks, 0)
  {
    hide AllFit, Print, PrintCode, Placed, Spans, Inside, Bodies, Entries, Literals;
    var text := Print(toks);
    PrintedSpans(text, 0, toks);
    PrintedEntries(text, 0, toks);
    SizeOfCode(toks);
    forall k | 0 <= k < |text|
      ensures Code(text)[k] == PrintCode(toks)[k]
    {
      ShadedPrint(text, 0, toks, k);
    }
  }
}
