/** `skip_substitution` against a grammar: whatever is nested inside a well-formed
    `$( ... )`, the scan stops right behind its own closing parenthesis. */
module ShellNesting {
  import opened Chars
  import opened ShellText

  /** The inside of a substitution. */
  datatype Body =
    | End
    | Plain(c: char, rest: Body)
    | Escape(c: char, rest: Body)
    | InSingle(s: string, rest: Body)
    | InDouble(q: Quoted, rest: Body)
    | Group(inner: Body, rest: Body)
  {
    predicate WellFormed() {
      match this
      case End => true
      case Plain(c, rest) => c !in "\\'\"()" && rest.WellFormed()
      case Escape(_, rest) => rest.WellFormed()
      case InSingle(s, rest) => '\'' !in s && rest.WellFormed()
      case InDouble(q, rest) => q.WellFormed() && rest.WellFormed()
      case Group(inner, rest) => inner.WellFormed() && rest.WellFormed()
    }

    function Print(): string {
      match this
      case End => ""
      case Plain(c, rest) => [c] + rest.Print()
      case Escape(c, rest) => ['\\', c] + rest.Print()
      case InSingle(s, rest) => "'" + s + "'" + rest.Print()
      case InDouble(q, rest) => "\"" + q.Print() + "\"" + rest.Print()
      case Group(inner, rest) => "(" + inner.Print() + ")" + rest.Print()
    }
  }

  /** The inside of a double-quoted string, which may hold substitutions again. */
  datatype Quoted =
    | Close
    | Char(c: char, rest: Quoted)
    | QuotedEscape(c: char, rest: Quoted)
    | Nested(inner: Body, rest: Quoted)
  {
    predicate WellFormed() {
      match this
      case Close => true
      case Char(c, rest) => c !in "\\\"" && (c == '$' ==> !(rest.Char? && rest.c == '(')) && rest.WellFormed()
      case QuotedEscape(_, rest) => rest.WellFormed()
      case Nested(inner, rest) => inner.WellFormed() && rest.WellFormed()
    }

    function Print(): string {
      match this
      case Close => ""
      case Char(c, rest) => [c] + rest.Print()
      case QuotedEscape(c, rest) => ['\\', c] + rest.Print()
      case Nested(inner, rest) => "$(" + inner.Print() + ")" + rest.Print()
    }
  }

  /** Inside a substitution, the scan goes from `j` to `k` without closing it or changing its depth. */
  ghost predicate Passes(text: string, j: nat, k: nat) {
    forall depth: nat :: depth >= 1 ==> SkipLoop(text, j, depth) == SkipLoop(text, k, depth)
  }

  lemma PassesTrans(text: string, j: nat, k: nat, l: nat)
    requires Passes(text, j, k) && Passes(text, k, l)
    ensures Passes(text, j, l)
  {
    forall depth: nat | depth >= 1
      ensures SkipLoop(text, j, depth) == SkipLoop(text, l, depth)
    {
      assert SkipLoop(text, j, depth) == SkipLoop(text, k, depth);
    }
  }

  lemma SinglePasses(text: string, j: nat, s: string, rest: string)
    requires Reads(text, j, "'" + s + "'" + rest) && '\'' !in s
    ensures Passes(text, j, j + 2 + |s|) && Reads(text, j + 2 + |s|, rest)
  {
    ReadsSplit(text, j, "'" + s + "'", rest);
    ReadsSplit(text, j, "'" + s, "'");
    ReadsSplit(text, j, "'", s);
    assert text[j + 0] == "'"[0] && text[(j + 1 + |s|) + 0] == "'"[0];
    assert forall k :: j + 1 <= k < j + 1 + |s| ==> text[k] == s[k - j - 1];
    assert Find(text, '\'', j + 1) == j + 1 + |s|;
  }

  lemma PlainPasses(text: string, j: nat, c: char, rest: string)
    requires Reads(text, j, [c] + rest) && c !in "\\'\"()"
    ensures Passes(text, j, j + 1) && Reads(text, j + 1, rest)
  {
    ReadsSplit(text, j, [c], rest);
    assert text[j + 0] == [c][0];
  }

  lemma EscapePasses(text: string, j: nat, c: char, rest: string)
    requires Reads(text, j, ['\\', c] + rest)
    ensures Passes(text, j, j + 2) && Reads(text, j + 2, rest)
  {
    ReadsSplit(text, j, ['\\', c], rest);
    assert text[j + 0] == ['\\', c][0];
  }

  lemma {:induction false} LoopPasses(text: string, j: nat, b: Body)
    requires b.WellFormed() && Reads(text, j, b.Print())
    ensures Passes(text, j, j + |b.Print()|)
    decreases b, 0
  {
    match b
    case End =>
    case Plain(c, rest) =>
      PlainPasses(text, j, c, rest.Print());
      RestPasses(text, j, j + 1, rest);
    case Escape(c, rest) =>
      EscapePasses(text, j, c, rest.Print());
      RestPasses(text, j, j + 2, rest);
    case InSingle(s, rest) =>
      SinglePasses(text, j, s, rest.Print());
      RestPasses(text, j, j + 2 + |s|, rest);
    case InDouble(q, rest) =>
      DoublePasses(text, j, q, rest.Print());
      RestPasses(text, j, j + 2 + |q.Print()|, rest);
    case Group(inner, rest) =>
      GroupPasses(text, j, inner, rest.Print());
      RestPasses(text, j, j + 2 + |inner.Print()|, rest);
  }

  lemma {:induction false} RestPasses(text: string, j: nat, k: nat, rest: Body)
    requires rest.WellFormed() && Passes(text, j, k) && Reads(text, k, rest.Print())
    ensures Passes(text, j, k + |rest.Print()|)
    decreases rest, 1
  {
    LoopPasses(text, k, rest);
    PassesTrans(text, j, k, k + |rest.Print()|);
  }

  lemma {:induction false} DoublePasses(text: string, j: nat, q: Quoted, rest: string)
    requires q.WellFormed() && Reads(text, j, "\"" + q.Print() + "\"" + rest)
    ensures Passes(text, j, j + 2 + |q.Print()|) && Reads(text, j + 2 + |q.Print()|, rest)
    decreases q, 1
  {
    var p := q.Print();
    ReadsSplit(text, j, "\"" + p + "\"", rest);
    ReadsSplit(text, j, "\"" + p, "\"");
    ReadsSplit(text, j, "\"", p);
    assert text[j] == "\""[0] && text[j + 1 + |p|] == "\""[0];
    QuotedPasses(text, j + 1, q);
  }

  lemma {:induction false} GroupPasses(text: string, j: nat, inner: Body, rest: string)
    requires inner.WellFormed() && Reads(text, j, "(" + inner.Print() + ")" + rest)
    ensures Passes(text, j, j + 2 + |inner.Print()|) && Reads(text, j + 2 + |inner.Print()|, rest)
    ensures At(text, j, '(') && SkipLoop(text, j, 0) == j + 2 + |inner.Print()|
    decreases inner, 1
  {
    var p := inner.Print();
    ReadsSplit(text, j, "(" + p + ")", rest);
    ReadsSplit(text, j, "(" + p, ")");
    ReadsSplit(text, j, "(", p);
    assert text[j] == "("[0] && text[j + 1 + |p|] == ")"[0];
    LoopPasses(text, j + 1, inner);
    assert SkipLoop(text, j + 1, 1) == SkipLoop(text, j + 1 + |p|, 1);
    forall depth: nat | depth >= 1
      ensures SkipLoop(text, j, depth) == SkipLoop(text, j + 2 + |p|, depth)
    {
      assert SkipLoop(text, j + 1, depth + 1) == SkipLoop(text, j + 1 + |p|, depth + 1);
    }
  }

  lemma {:induction false} QuotedPasses(text: string, j: nat, q: Quoted)
    requires q.WellFormed() && Reads(text, j, q.Print()) && At(text, j + |q.Print()|, '"')
    ensures SkipQuoted(text, j) == j + |q.Print()|
    decreases q, 0
  {
    match q
    case Close =>
    case Char(c, rest) =>
      QuotedCharPasses(text, j, c, rest);
      hide SkipQuoted, Reads;
      QuotedPasses(text, j + 1, rest);
    case QuotedEscape(c, rest) =>
      QuotedEscapePasses(text, j, c, rest.Print());
      hide SkipQuoted, Reads;
      QuotedPasses(text, j + 2, rest);
    case Nested(inner, rest) =>
      NestedPasses(text, j, inner, rest.Print());
      hide SkipQuoted, Reads;
      QuotedPasses(text, j + 3 + |inner.Print()|, rest);
  }

  lemma {:induction false} NestedPasses(text: string, j: nat, inner: Body, rest: string)
    requires inner.WellFormed() && Reads(text, j, "$(" + inner.Print() + ")" + rest)
    ensures Reads(text, j + 3 + |inner.Print()|, rest)
    ensures SkipQuoted(text, j) == SkipQuoted(text, j + 3 + |inner.Print()|)
    decreases inner, 3
  {
    ReadsSplit(text, j, "$(" + inner.Print() + ")", rest);
    SubstitutionEnds(text, j, inner);
  }

  lemma QuotedEscapePasses(text: string, j: nat, c: char, rest: string)
    requires Reads(text, j, ['\\', c] + rest)
    ensures Reads(text, j + 2, rest) && SkipQuoted(text, j) == SkipQuoted(text, j + 2)
  {
    ReadsSplit(text, j, ['\\', c], rest);
    assert text[j + 0] == ['\\', c][0];
  }

  lemma QuotedCharPasses(text: string, j: nat, c: char, rest: Quoted)
    requires Char(c, rest).WellFormed() && Reads(text, j, [c] + rest.Print())
    requires At(text, j + 1 + |rest.Print()|, '"')
    ensures Reads(text, j + 1, rest.Print()) && SkipQuoted(text, j) == SkipQuoted(text, j + 1)
  {
    ReadsSplit(text, j, [c], rest.Print());
    assert text[j + 0] == [c][0];
    NextIsNoParenthesis(text, j + 1, rest);
  }

  /** Behind a character of a string comes an opening parenthesis only when the string holds one there. */
  lemma NextIsNoParenthesis(text: string, j: nat, q: Quoted)
    requires Reads(text, j, q.Print()) && At(text, j + |q.Print()|, '"')
    ensures At(text, j, '(') ==> q.Char? && q.c == '('
  {
    var p := q.Print();
    assert p != "" ==> text[j + 0] == p[0];
  }

  /** From the `$` of `$(` + body + `)`, the scan ends right behind the closing parenthesis. */
  lemma {:induction false} SubstitutionEnds(text: string, i: nat, b: Body)
    requires b.WellFormed() && Reads(text, i, "$(" + b.Print() + ")")
    ensures At(text, i, '$') && At(text, i + 1, '(')
    ensures SkipLoop(text, i + 1, 0) == i + 3 + |b.Print()|
    decreases b, 2
  {
    assert "$(" + b.Print() + ")" == "$" + ("(" + b.Print() + ")" + "");
    ReadsSplit(text, i, "$", "(" + b.Print() + ")" + "");
    assert text[i] == "$"[0];
    GroupPasses(text, i + 1, b, "");
  }
}
