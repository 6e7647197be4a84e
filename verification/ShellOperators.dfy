/** `split_operators` (scripts/report/scripts_gate_recall.py): a command line between its control operators. */
module ShellOperators {
  import opened Chars
  import opened ShellText
  import opened ShellScanner
  import opened ShellNesting

  /** What is still to come: the rest of the current segment, then operators and segments in turn. */
  datatype Tail = Tail(head: string, segments: seq<string>, operators: seq<string>)

  function Push(text: string, t: Tail): Tail {
    t.(head := text + t.head)
  }

  function Cut(operator: string, t: Tail): Tail {
    Tail("", [t.head] + t.segments, [operator] + t.operators)
  }

  predicate IsDigit(c: char) {
    '0' <= c <= '9'
  }

  predicate IsAngle(c: char) {
    c == '<' || c == '>'
  }

  function DigitsEnd(code: string, i: nat): (r: nat)
    requires i <= |code|
    ensures i <= r <= |code|
    decreases |code| - i
  {
    if i < |code| && IsDigit(code[i]) then DigitsEnd(code, i + 1) else i
  }

  function AnglesEnd(code: string, i: nat): (r: nat)
    requires i <= |code|
    ensures i <= r <= |code|
    ensures r > i ==> IsAngle(code[i])
    decreases |code| - i
  {
    if i < |code| && IsAngle(code[i]) then AnglesEnd(code, i + 1) else i
  }

  /** Where the redirection at `i` ends, or `i` when there is none: `\d*[<>]+&\d*-?` or `&>>?`. */
  function RedirectEnd(code: string, i: nat): (r: nat)
    requires i < |code|
    ensures i <= r <= |code|
  {
    var digits := DigitsEnd(code, i);
    var angles := AnglesEnd(code, digits);
    if angles > digits && At(code, angles, '&') then
      var e := DigitsEnd(code, angles + 1);
      if At(code, e, '-') then e + 1 else e
    else if code[i] == '&' && At(code, i + 1, '>') then
      if At(code, i + 2, '>') then i + 3 else i + 2
    else i
  }

  predicate IsControl(c: char) {
    c == ';' || c == '|' || c == '&' || c == '(' || c == ')'
  }

  /** Where the operator at `i` ends, or `i` when there is none. */
  function OperatorEnd(code: string, i: nat): (r: nat)
    requires i < |code|
    ensures i <= r <= |code|
  {
    if (code[i] == '&' && At(code, i + 1, '&')) || (code[i] == '|' && At(code, i + 1, '|')) then i + 2
    else if IsControl(code[i]) then i + 1
    else i
  }

  predicate IsEscape(code: string, i: nat, quote: Quote) {
    i + 1 < |code| && code[i] == '\\' && quote != Single
  }

  /** The reader from `i` on, inside a quote or not. */
  function From(code: string, i: nat, quote: Quote): Tail
    requires i <= |code|
    decreases |code| - i
  {
    if i == |code| then Tail("", [], [])
    else if IsEscape(code, i, quote) then Push(code[i..i + 2], From(code, i + 2, quote))
    else if quote != Bare then Push([code[i]], From(code, i + 1, if code[i] == Mark(quote) then Bare else quote))
    else if code[i] == '\'' then Push([code[i]], From(code, i + 1, Single))
    else if code[i] == '"' then Push([code[i]], From(code, i + 1, Double))
    else if code[i] == '$' && At(code, i + 1, '(') then
      var end := SkipLoop(code, i + 1, 0);
      Push(code[i..end], From(code, end, Bare))
    else if RedirectEnd(code, i) > i then Push(code[i..RedirectEnd(code, i)], From(code, RedirectEnd(code, i), Bare))
    else if OperatorEnd(code, i) > i then Cut(code[i..OperatorEnd(code, i)], From(code, OperatorEnd(code, i), Bare))
    else Push([code[i]], From(code, i + 1, Bare))
  }

  // ---- the loop --------------------------------------------------------------

  /** Segments and operators read so far, with what is still to come. */
  function Whole(segments: seq<string>, operators: seq<string>, t: Tail): (seq<string>, seq<string>)
    requires segments != []
  {
    (segments[..|segments| - 1] + [segments[|segments| - 1] + t.head] + t.segments, operators + t.operators)
  }

  lemma PushWhole(segments: seq<string>, operators: seq<string>, text: string, t: Tail)
    requires segments != []
    ensures Whole(segments, operators, Push(text, t))
         == Whole(segments[|segments| - 1 := segments[|segments| - 1] + text], operators, t)
  {
    Associates(segments[|segments| - 1], text, t.head);
  }

  lemma CutWhole(segments: seq<string>, operators: seq<string>, operator: string, t: Tail)
    requires segments != []
    ensures Whole(segments, operators, Cut(operator, t)) == Whole(segments + [""], operators + [operator], t)
  {
    var last := segments[|segments| - 1];
    assert last + "" == last && "" + t.head == t.head;
    assert segments == segments[..|segments| - 1] + [last];
    Associates(segments, [t.head], t.segments);
    Associates(operators, [operator], t.operators);
  }

  method SplitOperators(code: string) returns (segments: seq<string>, operators: seq<string>)
    ensures segments != [] && (segments, operators) == Whole([""], [], From(code, 0, Bare))
  {
    hide SkipLoop, RedirectEnd, OperatorEnd, Whole;
    segments, operators := [""], [];
    var i, quote := 0, Bare;
    while i < |code|
      invariant i <= |code| && segments != []
      invariant Whole([""], [], From(code, 0, Bare)) == Whole(segments, operators, From(code, i, quote))
      decreases |code| - i
    {
      var c := code[i];
      var end, next := i + 1, quote;
      if IsEscape(code, i, quote) {
        end := i + 2;
      } else if quote != Bare {
        next := if c == Mark(quote) then Bare else quote;
      } else if c == '\'' {
        next := Single;
      } else if c == '"' {
        next := Double;
      } else if c == '$' && At(code, i + 1, '(') {
        end := SkipSubstitution(code, i);
      } else {
        var redirect := RedirectEnd(code, i);
        var operator := OperatorEnd(code, i);
        if redirect > i {
          end := redirect;
        } else if operator > i {
          CutWhole(segments, operators, code[i..operator], From(code, operator, Bare));
          segments, operators := segments + [""], operators + [code[i..operator]];
          i := operator;
          continue;
        }
      }
      assert code[i..i + 1] == [c];
      PushWhole(segments, operators, code[i..end], From(code, end, next));
      segments := segments[|segments| - 1 := segments[|segments| - 1] + code[i..end]];
      i, quote := end, next;
    }
    WholeEnds(segments, operators);
  }

  lemma WholeEnds(segments: seq<string>, operators: seq<string>)
    requires segments != []
    ensures Whole(segments, operators, Tail("", [], [])) == (segments, operators)
  {
    var last := segments[|segments| - 1];
    assert last + "" == last;
    assert segments[..|segments| - 1] + [last] + [] == segments;
    assert operators + [] == operators;
  }

  // ---- nothing is lost -------------------------------------------------------

  /** The text of what is still to come. */
  function TextOf(head: string, segments: seq<string>, operators: seq<string>): string
    requires |segments| == |operators|
    decreases |segments|
  {
    if segments == [] then head else head + (operators[0] + TextOf(segments[0], segments[1..], operators[1..]))
  }

  /** Segments and operators in turn give back the command line, and `operators[k]` follows `segments[k]`. */
  lemma {:induction false} NothingLost(code: string, i: nat, quote: Quote)
    requires i <= |code|
    ensures var t := From(code, i, quote);
      |t.segments| == |t.operators| && TextOf(t.head, t.segments, t.operators) == code[i..]
    decreases |code| - i, 0
  {
    if i == |code| {
    } else if IsEscape(code, i, quote) {
      Pushed(code, i, i + 2, quote);
    } else if quote != Bare {
      Pushed(code, i, i + 1, if code[i] == Mark(quote) then Bare else quote);
    } else if code[i] == '\'' {
      Pushed(code, i, i + 1, Single);
    } else if code[i] == '"' {
      Pushed(code, i, i + 1, Double);
    } else if code[i] == '$' && At(code, i + 1, '(') {
      Pushed(code, i, SkipLoop(code, i + 1, 0), Bare);
    } else if RedirectEnd(code, i) > i {
      Pushed(code, i, RedirectEnd(code, i), Bare);
    } else if OperatorEnd(code, i) > i {
      var end := OperatorEnd(code, i);
      NothingLost(code, end, Bare);
      var t := From(code, end, Bare);
      assert ([t.head] + t.segments)[1..] == t.segments && ([code[i..end]] + t.operators)[1..] == t.operators;
      assert code[i..] == code[i..end] + code[end..];
      assert "" + code[i..] == code[i..];
    } else {
      Pushed(code, i, i + 1, Bare);
    }
  }

  lemma {:induction false} Pushed(code: string, i: nat, end: nat, quote: Quote)
    requires i < end <= |code|
    ensures var t := Push(code[i..end], From(code, end, quote));
      |t.segments| == |t.operators| && TextOf(t.head, t.segments, t.operators) == code[i..]
    ensures end == i + 1 ==> code[i..end] == [code[i]]
    decreases |code| - end, 1
  {
    NothingLost(code, end, quote);
    var t := From(code, end, quote);
    assert code[i..] == code[i..end] + code[end..];
    if t.segments != [] {
      Associates(code[i..end], t.head, t.operators[0] + TextOf(t.segments[0], t.segments[1..], t.operators[1..]));
    }
  }

  // ---- printed command lines -------------------------------------------------

  /** One character of a double-quoted text. */
  datatype Inner = Raw(c: char) | Slash(c: char)

  function PrintLetter(q: Inner): string {
    match q
    case Raw(c) => [c]
    case Slash(c) => ['\\', c]
  }

  function PrintInner(q: seq<Inner>): string {
    if q == [] then "" else PrintLetter(q[0]) + PrintInner(q[1..])
  }

  predicate IsInner(q: seq<Inner>) {
    forall k :: 0 <= k < |q| && q[k].Raw? ==> q[k].c != '"' && q[k].c != '\\'
  }

  /** A part of a segment. A redirection that names a descriptor starts with its arrows; the digits before them
      are literals of their own. */
  datatype Atom =
    | Literal(c: char)
    | Escaped(c: char)
    | Quoted1(s: string)
    | Quoted2(q: seq<Inner>)
    | Substitution(b: Body)
    | Duplicate(arrows: string, to: string, closes: bool)
    | Both(appends: bool)

  predicate AllAngles(s: string) {
    forall k :: 0 <= k < |s| ==> IsAngle(s[k])
  }

  predicate AllDigits(s: string) {
    forall k :: 0 <= k < |s| ==> IsDigit(s[k])
  }

  predicate ValidAtom(a: Atom) {
    match a
    case Literal(c) => !IsControl(c) && c != '\'' && c != '"'
    case Escaped(_) => true
    case Quoted1(s) => '\'' !in s
    case Quoted2(q) => IsInner(q)
    case Substitution(b) => b.WellFormed()
    case Duplicate(arrows, to, _) =>
      arrows != "" && AllAngles(arrows) && AllDigits(to)
    case Both(_) => true
  }

  function Dash(closes: bool): string {
    if closes then ['-'] else []
  }

  function PrintAtom(a: Atom): string {
    match a
    case Literal(c) => [c]
    case Escaped(c) => ['\\', c]
    case Quoted1(s) => ['\''] + (s + ['\''])
    case Quoted2(q) => ['"'] + (PrintInner(q) + ['"'])
    case Substitution(b) => "$(" + b.Print() + ")"
    case Duplicate(arrows, to, closes) => arrows + (['&'] + (to + Dash(closes)))
    case Both(appends) => if appends then ['&', '>', '>'] else ['&', '>']
  }

  /** The text from `e` on leaves the atom before it what it is: nothing there belongs to it. */
  predicate Ends(a: Atom, code: string, e: nat) {
    match a
    case Literal(c) =>
      && (c == '\\' ==> e >= |code|) && (c == '$' ==> !At(code, e, '(')) && (IsAngle(c) ==> !At(code, e, '&'))
    case Duplicate(_, _, closes) => closes || !(At(code, e, '-') || (e < |code| && IsDigit(code[e])))
    case Both(appends) => appends || !At(code, e, '>')
    case _ => true
  }

  function PrintAtoms(atoms: seq<Atom>): string {
    if atoms == [] then "" else PrintAtom(atoms[0]) + PrintAtoms(atoms[1..])
  }

  /** Atoms printed at `i`, each ending where it is meant to. */
  predicate AtomsFit(code: string, i: nat, atoms: seq<Atom>)
    decreases |atoms|
  {
    atoms == [] ||
    (var e := i + |PrintAtom(atoms[0])|;
     ValidAtom(atoms[0]) && Ends(atoms[0], code, e) && AtomsFit(code, e, atoms[1..]))
  }

  predicate IsOperator(s: string) {
    s == "&&" || s == "||" || (|s| == 1 && IsControl(s[0]))
  }

  /** What follows at `e` neither doubles the operator nor makes it a redirection. */
  predicate Stands(operator: string, code: string, e: nat) {
    && (operator == ['&'] ==> !At(code, e, '&') && !At(code, e, '>'))
    && (operator == ['|'] ==> !At(code, e, '|'))
  }

  lemma PushPush(a: string, b: string, t: Tail)
    ensures Push(a, Push(b, t)) == Push(a + b, t)
  {
    Associates(a, b, t.head);
  }

  lemma {:induction false} SingleReads(code: string, i: nat, s: string)
    requires '\'' !in s && Reads(code, i, s + ['\''])
    ensures From(code, i, Single) == Push(s + ['\''], From(code, i + |s| + 1, Bare))
    decreases |s|
  {
    hide SkipLoop, RedirectEnd, OperatorEnd;
    var text := s + ['\''];
    assert code[i + 0] == text[0];
    if s == "" {
      assert text == ['\''];
    } else {
      assert text == [s[0]] + (s[1..] + ['\'']);
      ReadsSplit(code, i, [s[0]], s[1..] + ['\'']);
      SingleReads(code, i + 1, s[1..]);
      PushPush([s[0]], s[1..] + ['\''], From(code, i + |s| + 1, Bare));
    }
  }

  lemma InnerReads(code: string, i: nat, q: Inner)
    requires (q.Raw? ==> q.c != '"' && q.c != '\\') && Reads(code, i, PrintLetter(q))
    ensures i + |PrintLetter(q)| <= |code|
    ensures From(code, i, Double) == Push(PrintLetter(q), From(code, i + |PrintLetter(q)|, Double))
  {
    hide SkipLoop, RedirectEnd, OperatorEnd;
    var own := PrintLetter(q);
    assert code[i + 0] == own[0] && (|own| == 2 ==> code[i + 1] == own[1]);
    assert code[i..i + |own|] == own;
  }

  lemma QuoteCloses(code: string, i: nat)
    requires Reads(code, i, PrintInner([]) + ['"'])
    ensures i < |code| && From(code, i, Double) == Push(PrintInner([]) + ['"'], From(code, i + 1, Bare))
  {
    hide SkipLoop, RedirectEnd, OperatorEnd;
    assert PrintInner([]) + ['"'] == ['"'];
    assert code[i + 0] == ['"'][0];
  }

  lemma InnerStep(q: seq<Inner>)
    requires q != [] && IsInner(q)
    ensures PrintInner(q) + ['"'] == PrintLetter(q[0]) + (PrintInner(q[1..]) + ['"'])
    ensures |PrintInner(q)| == |PrintLetter(q[0])| + |PrintInner(q[1..])| && IsInner(q[1..])
    ensures q[0].Raw? ==> q[0].c != '"' && q[0].c != '\\'
  {
    Associates(PrintLetter(q[0]), PrintInner(q[1..]), ['"']);
    assert forall k :: 0 <= k < |q[1..]| ==> q[1..][k] == q[k + 1];
  }

  lemma {:induction false} DoubleReads(code: string, i: nat, q: seq<Inner>)
    requires IsInner(q) && Reads(code, i, PrintInner(q) + ['"'])
    ensures i + |PrintInner(q)| < |code|
    ensures From(code, i, Double) == Push(PrintInner(q) + ['"'], From(code, i + |PrintInner(q)| + 1, Bare))
    decreases |q|
  {
    hide *;
    ReadsBefore(code, i, PrintInner(q), '"');
    if q == [] {
      QuoteCloses(code, i);
      NothingPrinted();
    } else {
      InnerStep(q);
      LetterThenRest(code, i, q[0], PrintInner(q[1..]) + ['"']);
      DoubleReads(code, i + |PrintLetter(q[0])|, q[1..]);
      PushPush(PrintLetter(q[0]), PrintInner(q[1..]) + ['"'], From(code, i + |PrintInner(q)| + 1, Bare));
    }
  }

  lemma LetterThenRest(code: string, i: nat, q: Inner, rest: string)
    requires (q.Raw? ==> q.c != '"' && q.c != '\\') && Reads(code, i, PrintLetter(q) + rest)
    ensures Reads(code, i + |PrintLetter(q)|, rest) && i + |PrintLetter(q)| <= |code|
    ensures From(code, i, Double) == Push(PrintLetter(q), From(code, i + |PrintLetter(q)|, Double))
  {
    hide From, PrintLetter;
    ReadsSplit(code, i, PrintLetter(q), rest);
    InnerReads(code, i, q);
  }

  lemma ReadsBefore(code: string, i: nat, s: string, c: char)
    requires Reads(code, i, s + [c])
    ensures i + |s| < |code|
  {
  }

  lemma NothingPrinted()
    ensures PrintInner([]) == ""
  {
  }

  lemma LiteralReads(code: string, i: nat, c: char)
    requires ValidAtom(Literal(c)) && Reads(code, i, [c]) && Ends(Literal(c), code, i + 1)
    ensures From(code, i, Bare) == Push([c], From(code, i + 1, Bare))
  {
    hide SkipLoop, RedirectEnd;
    assert code[i + 0] == [c][0];
    assert code[i..i + 1] == [c];
    if IsDigit(c) || IsAngle(c) {
      RunGoesOn(code, i);
      if RedirectEnd(code, i) > i { RestOfRedirect(code, i); }
    } else {
      NoRedirect(code, i);
    }
  }

  lemma NoRedirect(code: string, i: nat)
    requires i < |code| && !IsDigit(code[i]) && !IsAngle(code[i]) && code[i] != '&'
    ensures RedirectEnd(code, i) == i
  {
  }

  lemma {:induction false} DigitsAre(code: string, i: nat, s: string)
    requires Reads(code, i, s) && AllDigits(s)
    requires i + |s| < |code| ==> !IsDigit(code[i + |s|])
    ensures DigitsEnd(code, i) == i + |s|
    decreases |s|
  {
    if s != "" {
      ReadsSplit(code, i, [s[0]], s[1..]) by { assert s == [s[0]] + s[1..]; }
      assert code[i + 0] == s[0];
      DigitsAre(code, i + 1, s[1..]);
    }
  }

  lemma {:induction false} AnglesAre(code: string, i: nat, s: string)
    requires Reads(code, i, s) && AllAngles(s)
    requires i + |s| < |code| ==> !IsAngle(code[i + |s|])
    ensures AnglesEnd(code, i) == i + |s|
    decreases |s|
  {
    if s != "" {
      ReadsSplit(code, i, [s[0]], s[1..]) by { assert s == [s[0]] + s[1..]; }
      assert code[i + 0] == s[0];
      AnglesAre(code, i + 1, s[1..]);
    }
  }

  /** A redirection that starts with a digit or an arrow is one without it too. */
  lemma RunGoesOn(code: string, i: nat)
    requires i < |code| && (IsDigit(code[i]) || IsAngle(code[i])) && (IsAngle(code[i]) ==> !At(code, i + 1, '&'))
    ensures RedirectEnd(code, i) > i ==>
      && i + 1 < |code| && (IsDigit(code[i + 1]) || IsAngle(code[i + 1]))
      && RedirectEnd(code, i + 1) == RedirectEnd(code, i) > i + 1
  {
    var d := DigitsEnd(code, i);
    if IsDigit(code[i]) {
      assert d == DigitsEnd(code, i + 1);
    } else {
      assert d == i && AnglesEnd(code, d) == AnglesEnd(code, i + 1);
      if AnglesEnd(code, i + 1) > i + 1 {
        assert IsAngle(code[i + 1]) && !IsDigit(code[i + 1]);
        assert DigitsEnd(code, i + 1) == i + 1;
      }
    }
    hide DigitsEnd, AnglesEnd;
    if i + 1 < |code| && !IsDigit(code[i + 1]) && !IsAngle(code[i + 1]) {
      DigitsAre(code, i + 1, "");
      AnglesAre(code, i + 1, "");
    }
    if i + 1 == |code| {
      DigitsAre(code, i + 1, "");
      AnglesAre(code, i + 1, "");
    }
  }

  lemma RestOfRedirect(code: string, i: nat)
    requires i + 1 < |code| && (IsDigit(code[i]) || IsAngle(code[i])) && (IsDigit(code[i + 1]) || IsAngle(code[i + 1]))
    requires RedirectEnd(code, i + 1) == RedirectEnd(code, i) > i + 1
    ensures From(code, i, Bare) == Push([code[i]], From(code, i + 1, Bare))
  {
    hide SkipLoop, RedirectEnd, OperatorEnd;
    var e := RedirectEnd(code, i);
    assert code[i..e] == [code[i]] + code[i + 1..e];
    PushPush([code[i]], code[i + 1..e], From(code, e, Bare));
  }

  lemma FirstChar(code: string, i: nat, c: char, rest: string)
    requires Reads(code, i, [c] + rest)
    ensures At(code, i, c) && Reads(code, i + 1, rest) && i + 1 + |rest| <= |code|
  {
    ReadsSplit(code, i, [c], rest);
    assert code[i + 0] == [c][0];
  }

  lemma DuplicateParts(code: string, i: nat, arrows: string, to: string, tail: string)
    requires Reads(code, i, arrows + (['&'] + (to + tail)))
    ensures var e := i + |arrows|;
      && Reads(code, i, arrows) && At(code, e, '&') && Reads(code, e + 1, to) && Reads(code, e + 1 + |to|, tail)
  {
    ReadsSplit(code, i, arrows, ['&'] + (to + tail));
    FirstChar(code, i + |arrows|, '&', to + tail);
    ReadsSplit(code, i + |arrows| + 1, to, tail);
  }

  /** Where a redirection ends when the ends of its parts are known. */
  lemma RedirectOfParts(code: string, i: nat, angles: nat, e: nat)
    requires i < angles && i < |code| && DigitsEnd(code, i) == i && AnglesEnd(code, i) == angles
    requires At(code, angles, '&')
    requires DigitsEnd(code, angles + 1) == e
    ensures RedirectEnd(code, i) == if At(code, e, '-') then e + 1 else e
  {
    hide DigitsEnd, AnglesEnd;
  }

  lemma ArrowsEnd(code: string, i: nat, arrows: string)
    requires arrows != "" && AllAngles(arrows) && Reads(code, i, arrows) && At(code, i + |arrows|, '&')
    ensures i < |code| && IsAngle(code[i]) && DigitsEnd(code, i) == i && AnglesEnd(code, i) == i + |arrows|
  {
    assert code[i + 0] == arrows[0];
    DigitsAre(code, i, "");
    AnglesAre(code, i, arrows);
  }

  lemma DuplicateEnds(code: string, i: nat, arrows: string, to: string, closes: bool)
    requires arrows != "" && AllAngles(arrows) && AllDigits(to)
    requires Reads(code, i, arrows + (['&'] + (to + Dash(closes))))
    requires var e := i + |arrows| + 1 + |to|; closes || !(At(code, e, '-') || (e < |code| && IsDigit(code[e])))
    ensures i < |code| && IsAngle(code[i]) && RedirectEnd(code, i) == i + |arrows| + 1 + |to| + |Dash(closes)|
  {
    hide Reads, IsAngle, AllAngles, AllDigits, DigitsEnd, AnglesEnd, RedirectEnd;
    var angles := i + |arrows|;
    DuplicateParts(code, i, arrows, to, Dash(closes));
    ArrowsEnd(code, i, arrows);
    if closes { DashReads(code, angles + 1 + |to|); }
    DigitsAre(code, angles + 1, to);
    RedirectOfParts(code, i, angles, angles + 1 + |to|);
  }

  lemma DashReads(code: string, i: nat)
    requires Reads(code, i, Dash(true))
    ensures At(code, i, '-') && !IsDigit(code[i])
  {
    assert code[i + 0] == Dash(true)[0];
  }

  lemma BothEnds(code: string, i: nat, appends: bool)
    requires Reads(code, i, PrintAtom(Both(appends))) && Ends(Both(appends), code, i + |PrintAtom(Both(appends))|)
    ensures i < |code| && code[i] == '&' && RedirectEnd(code, i) == i + |PrintAtom(Both(appends))|
  {
    hide DigitsEnd, AnglesEnd;
    var text := PrintAtom(Both(appends));
    assert code[i + 0] == text[0] && code[i + 1] == text[1] && (appends ==> code[i + 2] == text[2]);
    DigitsAre(code, i, "");
    AnglesAre(code, i, "");
  }

  lemma RedirectReads(code: string, i: nat, text: string)
    requires text != "" && Reads(code, i, text) && RedirectEnd(code, i) == i + |text|
    requires code[i] == '&' || IsAngle(code[i])
    ensures From(code, i, Bare) == Push(text, From(code, i + |text|, Bare))
  {
    hide SkipLoop, RedirectEnd, OperatorEnd;
    assert code[i..i + |text|] == text;
  }

  lemma EscapedReads(code: string, i: nat, c: char)
    requires Reads(code, i, ['\\', c])
    ensures From(code, i, Bare) == Push(['\\', c], From(code, i + 2, Bare))
  {
    hide SkipLoop, RedirectEnd, OperatorEnd;
    var text := ['\\', c];
    assert code[i + 0] == text[0] && code[i + 1] == text[1];
    assert code[i..i + 2] == text;
  }

  lemma SubstitutionReads(code: string, i: nat, b: Body)
    requires b.WellFormed() && Reads(code, i, "$(" + b.Print() + ")")
    ensures From(code, i, Bare) == Push("$(" + b.Print() + ")", From(code, i + |b.Print()| + 3, Bare))
  {
    hide SkipLoop, RedirectEnd, OperatorEnd;
    SubstitutionEnds(code, i, b);
    assert code[i..i + |b.Print()| + 3] == "$(" + b.Print() + ")";
  }

  lemma Quoted1Reads(code: string, i: nat, s: string)
    requires '\'' !in s && Reads(code, i, ['\''] + (s + ['\'']))
    ensures i + |s| + 2 <= |code|
    ensures From(code, i, Bare) == Push(['\''] + (s + ['\'']), From(code, i + |s| + 2, Bare))
  {
    hide *;
    FirstChar(code, i, '\'', s + ['\'']);
    OpensQuote(code, i, '\'', Single);
    SingleReads(code, i + 1, s);
    PushPush(['\''], s + ['\''], From(code, i + |s| + 2, Bare));
  }

  lemma Quoted2Reads(code: string, i: nat, q: seq<Inner>)
    requires IsInner(q) && Reads(code, i, ['"'] + (PrintInner(q) + ['"']))
    ensures i + |PrintInner(q)| + 2 <= |code|
    ensures From(code, i, Bare) == Push(['"'] + (PrintInner(q) + ['"']), From(code, i + |PrintInner(q)| + 2, Bare))
  {
    hide *;
    FirstChar(code, i, '"', PrintInner(q) + ['"']);
    OpensQuote(code, i, '"', Double);
    DoubleReads(code, i + 1, q);
    PushPush(['"'], PrintInner(q) + ['"'], From(code, i + |PrintInner(q)| + 2, Bare));
  }

  lemma OpensQuote(code: string, i: nat, c: char, quote: Quote)
    requires At(code, i, c) && ((c == '\'' && quote == Single) || (c == '"' && quote == Double))
    ensures From(code, i, Bare) == Push([c], From(code, i + 1, quote))
  {
    hide SkipLoop, RedirectEnd, OperatorEnd;
  }

  lemma AtomReads(code: string, i: nat, a: Atom)
    requires ValidAtom(a) && Reads(code, i, PrintAtom(a)) && Ends(a, code, i + |PrintAtom(a)|)
    ensures From(code, i, Bare) == Push(PrintAtom(a), From(code, i + |PrintAtom(a)|, Bare))
  {
    hide From, RedirectEnd, Reads, PrintInner, IsAngle, IsDigit, AllAngles, AllDigits;
    match a {
      case Literal(c) => LiteralReads(code, i, c);
      case Escaped(c) => EscapedReads(code, i, c);
      case Substitution(b) => SubstitutionReads(code, i, b);
      case Duplicate(arrows, to, closes) =>
        DuplicateEnds(code, i, arrows, to, closes);
        RedirectReads(code, i, PrintAtom(a));
      case Both(appends) =>
        BothEnds(code, i, appends);
        RedirectReads(code, i, PrintAtom(a));
      case Quoted1(s) => Quoted1Reads(code, i, s);
      case Quoted2(q) => Quoted2Reads(code, i, q);
    }
  }

  lemma {:induction false} AtomsRead(code: string, i: nat, atoms: seq<Atom>)
    requires AtomsFit(code, i, atoms) && Reads(code, i, PrintAtoms(atoms))
    ensures From(code, i, Bare) == Push(PrintAtoms(atoms), From(code, i + |PrintAtoms(atoms)|, Bare))
    decreases |atoms|
  {
    hide From, ValidAtom, PrintAtom, Ends;
    if atoms == [] {
      assert "" + From(code, i, Bare).head == From(code, i, Bare).head;
    } else {
      var own, rest := PrintAtom(atoms[0]), PrintAtoms(atoms[1..]);
      ReadsSplit(code, i, own, rest);
      AtomReads(code, i, atoms[0]);
      AtomsRead(code, i + |own|, atoms[1..]);
      PushPush(own, rest, From(code, i + |own| + |rest|, Bare));
    }
  }

  /** A command line: a first segment, and operators with the segments behind them. */
  datatype Printed = Printed(operator: string, atoms: seq<Atom>)

  function Print(first: seq<Atom>, more: seq<Printed>): string
    decreases |more|
  {
    PrintAtoms(first) + if more == [] then "" else more[0].operator + Print(more[0].atoms, more[1..])
  }

  /** A line printed at `i`, each atom and operator ending where it is meant to. */
  predicate LineFits(code: string, i: nat, first: seq<Atom>, more: seq<Printed>)
    decreases |more|
  {
    && AtomsFit(code, i, first)
    && (more == [] ||
        (var e := i + |PrintAtoms(first)| + |more[0].operator|;
         && IsOperator(more[0].operator) && Stands(more[0].operator, code, e)
         && LineFits(code, e, more[0].atoms, more[1..])))
  }

  function Segments(more: seq<Printed>): seq<string> {
    if more == [] then [] else [PrintAtoms(more[0].atoms)] + Segments(more[1..])
  }

  function Operators(more: seq<Printed>): seq<string> {
    if more == [] then [] else [more[0].operator] + Operators(more[1..])
  }

  lemma OperatorReads(code: string, i: nat, op: string)
    requires IsOperator(op) && Reads(code, i, op) && Stands(op, code, i + |op|)
    ensures From(code, i, Bare) == Cut(op, From(code, i + |op|, Bare))
  {
    hide SkipLoop;
    assert code[i + 0] == op[0];
    if |op| == 2 { assert code[i + 1] == op[1]; }
    assert code[i..i + |op|] == op;
    if |op| == 1 { assert op == [op[0]]; }
  }

  lemma PrintStep(first: seq<Atom>, more: seq<Printed>)
    ensures Print(first, more) ==
      PrintAtoms(first) + if more == [] then "" else more[0].operator + Print(more[0].atoms, more[1..])
  {
  }

  lemma {:induction false} LineReads(code: string, i: nat, first: seq<Atom>, more: seq<Printed>)
    requires LineFits(code, i, first, more) && Reads(code, i, Print(first, more)) && i + |Print(first, more)| == |code|
    ensures From(code, i, Bare) == Tail(PrintAtoms(first), Segments(more), Operators(more))
    decreases |more|
  {
    hide From, IsOperator, Stands, PrintAtoms, AtomsFit, Print;
    var own := PrintAtoms(first);
    PrintStep(first, more);
    if more == [] {
      assert own + "" == own;
      AtomsRead(code, i, first);
      FromEnd(code);
    } else {
      var op, rest := more[0].operator, Print(more[0].atoms, more[1..]);
      ReadsSplit(code, i, own, op + rest);
      ReadsSplit(code, i + |own|, op, rest);
      OperatorReads(code, i + |own|, op);
      AtomsRead(code, i, first);
      LineReads(code, i + |own| + |op|, more[0].atoms, more[1..]);
      assert own + "" == own;
    }
  }

  lemma FromEnd(code: string)
    ensures From(code, |code|, Bare) == Tail("", [], [])
  {
  }

  /** A printed command line is split at exactly its own operators: what is quoted, escaped, inside a
      substitution or a redirection holds none. */
  lemma PrintedLineSplits(first: seq<Atom>, more: seq<Printed>)
    requires LineFits(Print(first, more), 0, first, more)
    ensures From(Print(first, more), 0, Bare) == Tail(PrintAtoms(first), Segments(more), Operators(more))
  {
    hide From, Print, LineFits, PrintAtoms, Segments, Operators;
    LineReads(Print(first, more), 0, first, more);
  }
}
