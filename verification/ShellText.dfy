/** The shell reader of scripts/report/scripts_gate_text.py: `clean_shell` and its helpers.
    Each method is the source's loop; the function beside it is what the lemmas reason about. */
module ShellText {
  import opened Chars

  datatype Options = Options(blankStrings: bool, join: bool, blankSingle: bool)

  /** A here-document waiting for its body. */
  datatype Tag = Tag(name: string, stripTabs: bool)

  datatype Quote = Bare | Single | Double

  function Mark(q: Quote): char
    requires q != Bare
  {
    if q == Single then '\'' else '"'
  }

  /** What the scan loop carries: the position, the open quote, the character before,
      the here-documents opened on this line, the current entry and the entries so far. */
  datatype Scan = Scan(i: nat, quote: Quote, prev: char, pending: seq<Tag>, out: string, lines: seq<string>)

  const START := Scan(0, Bare, '\n', [], "", [])

  // ---- here-documents --------------------------------------------------------

  datatype Opener = Opener(end: nat, tag: Tag)

  function SkipSpaces(text: string, i: nat): (r: nat)
    requires i <= |text|
    ensures i <= r <= |text|
    ensures forall k :: i <= k < r ==> IsSpace(text[k])
    decreases |text| - i
  {
    if i < |text| && IsSpace(text[i]) then SkipSpaces(text, i + 1) else i
  }

  function IdentEnd(text: string, i: nat): (r: nat)
    requires i <= |text|
    ensures i <= r <= |text|
    ensures forall k :: i <= k < r ==> IsIdentChar(text[k])
    decreases |text| - i
  {
    if i < |text| && IsIdentChar(text[i]) then IdentEnd(text, i + 1) else i
  }

  /** `HEREDOC_RE.match(text, i)`: `<<`, an optional dash, white space (line breaks too),
      then a bare tag or one between equal quotes. No alternative can be retried with
      success, so one left-to-right reading decides the match. */
  function HeredocOpener(text: string, i: nat): (r: Option<Opener>)
    ensures r.Some? ==> i + 2 < r.value.end <= |text|
  {
    if !StartsAt(text, i, "<<") then None
    else
      var dash := At(text, i + 2, '-');
      var s := SkipSpaces(text, if dash then i + 3 else i + 2);
      var quoted := At(text, s, '\'') || At(text, s, '"');
      var t := if quoted then s + 1 else s;
      if t < |text| && IsIdentStart(text[t]) then
        var e := IdentEnd(text, t);
        if !quoted then Some(Opener(e, Tag(text[t..e], dash)))
        else if At(text, e, text[s]) then Some(Opener(e + 1, Tag(text[t..e], dash)))
        else None
      else None
  }

  function LStripTabs(s: string): string {
    if s != "" && s[0] == '\t' then LStripTabs(s[1..]) else s
  }

  predicate Terminates(body: string, tag: Tag) {
    RStrip(if tag.stripTabs then LStripTabs(body) else body) == tag.name
  }

  datatype Skip = Skip(i: nat, count: nat)

  /** Past the body of one here-document that starts at `i`, and how many lines it took. */
  function SkipBody(text: string, i: nat, tag: Tag): (r: Skip)
    requires i <= |text|
    ensures i <= r.i <= |text|
    decreases |text| - i
  {
    if i == |text| then Skip(i, 0)
    else
      var end := Find(text, '\n', i);
      var next := if end < |text| then end + 1 else end;
      if Terminates(text[i..end], tag) then Skip(next, 1)
      else var r := SkipBody(text, next, tag); Skip(r.i, r.count + 1)
  }

  function SkipBodies(text: string, i: nat, pending: seq<Tag>): (r: Skip)
    requires i <= |text|
    ensures i <= r.i <= |text|
    decreases |pending|
  {
    if pending == [] then Skip(i, 0)
    else
      var first := SkipBody(text, i, pending[0]);
      var rest := SkipBodies(text, first.i, pending[1..]);
      Skip(rest.i, first.count + rest.count)
  }

  function Blanks(n: nat): (r: seq<string>)
    ensures |r| == n
    ensures forall k :: 0 <= k < n ==> r[k] == ""
  {
    seq(n, _ => "")
  }

  // ---- substitutions and arithmetic ------------------------------------------

  /** The `$( ... )` loop at position `j` with `depth` open parentheses. */
  function SkipLoop(text: string, j: nat, depth: int): (r: nat)
    ensures r <= |text|
    ensures j < |text| ==> j < r
    decreases if j < |text| then |text| - j else 0, 0
  {
    if j >= |text| then |text|
    else if text[j] == '\\' then SkipLoop(text, j + 2, depth)
    else if text[j] == '\'' then
      var k := Find(text, '\'', j + 1);
      if k == |text| then |text| else SkipLoop(text, k + 1, depth)
    else if text[j] == '"' then SkipLoop(text, SkipQuoted(text, j + 1) + 1, depth)
    else if text[j] == '(' then SkipLoop(text, j + 1, depth + 1)
    else if text[j] == ')' then
      if depth == 1 then j + 1 else SkipLoop(text, j + 1, depth - 1)
    else SkipLoop(text, j + 1, depth)
  }

  /** The double-quoted part inside a substitution: the closing quote, or the end of the text or past it. */
  function SkipQuoted(text: string, j: nat): (r: nat)
    ensures j <= r
    ensures r < |text| ==> text[r] == '"'
    decreases if j < |text| then |text| - j else 0, 1
  {
    if j >= |text| || text[j] == '"' then j
    else if text[j] == '\\' then SkipQuoted(text, j + 2)
    else if text[j] == '$' && At(text, j + 1, '(') then SkipQuoted(text, SkipLoop(text, j + 1, 0))
    else SkipQuoted(text, j + 1)
  }

  /** Index just past the `((...))` at `i` when it closes on its line, else `i`. */
  function ArithmeticEnd(text: string, i: nat, j: nat, depth: int): (r: nat)
    requires i <= j <= |text|
    requires NoBreak(text, i, j)
    ensures r == i || i <= j < r <= |text|
    ensures NoBreak(text, i, r)
    decreases |text| - j
  {
    if j == |text| || text[j] == '\n' then i
    else
      var d := depth + (if text[j] == '(' then 1 else 0) - (if text[j] == ')' then 1 else 0);
      if d == 0 then j + 1 else ArithmeticEnd(text, i, j + 1, d)
  }

  // ---- single-quoted bodies --------------------------------------------------

  datatype QuoteState = QuoteState(quote: Quote, escaped: bool)

  function BlankChar(st: QuoteState, ch: char): char {
    if st.quote == Single && ch != '\'' && ch != '\n' then ' ' else ch
  }

  function NextQuote(st: QuoteState, ch: char): QuoteState {
    if st.quote == Single then QuoteState(if ch == '\'' then Bare else Single, st.escaped)
    else if st.escaped then QuoteState(st.quote, false)
    else if ch == '\\' then QuoteState(st.quote, true)
    else if st.quote == Double then QuoteState(if ch == '"' then Bare else Double, false)
    else if ch == '\'' then QuoteState(Single, false)
    else if ch == '"' then QuoteState(Double, false)
    else st
  }

  function BlankSingleFrom(st: QuoteState, segment: string): (r: string)
    ensures |r| == |segment|
    ensures forall k :: 0 <= k < |r| ==> r[k] == segment[k] || (r[k] == ' ' && segment[k] != '\n')
    decreases |segment|
  {
    if segment == "" then "" else [BlankChar(st, segment[0])] + BlankSingleFrom(NextQuote(st, segment[0]), segment[1..])
  }

  // ---- the scan --------------------------------------------------------------

  /** `segment.replace("\\\n", " ")`. */
  function JoinLines(s: string): string {
    if |s| < 2 then s
    else if s[0] == '\\' && s[1] == '\n' then " " + JoinLines(s[2..])
    else [s[0]] + JoinLines(s[1..])
  }

  function Segment(text: string, o: Options, i: nat, end: nat): string
    requires i <= end <= |text|
  {
    var s := if o.join then JoinLines(text[i..end]) else text[i..end];
    if o.blankSingle then BlankSingleFrom(QuoteState(Bare, false), s) else s
  }

  /** One character of a substitution inside a string. */
  function EmitChar(o: Options, s: Scan, ch: char): Scan {
    if ch != '\n' then s.(out := s.out + [if o.blankStrings then ' ' else ch])
    else if o.join then s.(out := s.out + " ")
    else s.(lines := s.lines + [s.out], out := "")
  }

  function Emit(o: Options, s: Scan, segment: string): (r: Scan)
    ensures r.i == s.i && r.quote == s.quote && r.prev == s.prev && r.pending == s.pending
  {
    if segment == "" then s else
      var r := Emit(o, s, segment[..|segment| - 1]);
      EmitChar(o, r, segment[|segment| - 1])
  }

  /** A line break outside a joined string. */
  function BreakLine(text: string, o: Options, s: Scan): Scan
    requires s.i < |text|
  {
    var t := s.(lines := s.lines + [s.out], out := "", i := s.i + 1, prev := '\n');
    if s.quote == Bare && s.pending != [] then
      var skip := SkipBodies(text, t.i, s.pending);
      t.(i := skip.i, pending := [], lines := if o.join then t.lines else t.lines + Blanks(skip.count))
    else t
  }

  /** A character inside quotes that opens no substitution. */
  function QuotedStep(text: string, o: Options, s: Scan): Scan
    requires s.i < |text| && s.quote != Bare
  {
    var c := text[s.i];
    if s.quote == Double && c == '\\' && s.i + 1 < |text| && text[s.i + 1] != '\n' then
      s.(out := s.out + (if o.blankStrings then "  " else text[s.i..s.i + 2]), i := s.i + 2)
    else if c == Mark(s.quote) then
      s.(out := s.out + [c], quote := Bare, i := s.i + 1)
    else
      s.(out := s.out + [if o.blankStrings || (o.blankSingle && s.quote == Single) then ' ' else c], i := s.i + 1)
  }

  predicate CommentMayFollow(prev: char) {
    prev in " \t\n;&|()"
  }

  /** Whether the bare scan reads a here-document opener at its position. */
  predicate OpensHeredoc(text: string, s: Scan) {
    && StartsAt(text, s.i, "<<") && !StartsAt(text, s.i, "<<<")
    && HeredocOpener(text, s.i).Some?
  }

  predicate ReadsArithmetic(text: string, s: Scan) {
    StartsAt(text, s.i, "((") && ArithmeticEnd(text, s.i, s.i, 0) > s.i
  }

  /** A character outside quotes. */
  function BareStep(text: string, o: Options, s: Scan): Scan
    requires s.i < |text|
  {
    var c := text[s.i];
    if c == '\\' && s.i + 1 < |text| && text[s.i + 1] != '\n' then
      s.(out := s.out + text[s.i..s.i + 2], i := s.i + 2, prev := 'x')
    else if c == '\'' || c == '"' then
      s.(quote := if c == '"' then Double else Single, out := s.out + [c], i := s.i + 1, prev := c)
    else if c == '#' && CommentMayFollow(s.prev) then
      s.(i := Find(text, '\n', s.i))
    else if ReadsArithmetic(text, s) then
      var end := ArithmeticEnd(text, s.i, s.i, 0);
      s.(out := s.out + text[s.i..end], prev := ')', i := end)
    else if OpensHeredoc(text, s) then
      var found := HeredocOpener(text, s.i).value;
      s.(pending := s.pending + [found.tag], out := s.out + text[s.i..found.end], i := found.end, prev := 'x')
    else
      s.(out := s.out + [c], prev := c, i := s.i + 1)
  }

  /** One turn of the `while i < n` loop. */
  function Step(text: string, o: Options, s: Scan): Scan
    requires s.i < |text|
  {
    var c := text[s.i];
    if c == '\n' then
      if s.quote != Bare && o.join then s.(out := s.out + " ", i := s.i + 1) else BreakLine(text, o, s)
    else if c == '\\' && o.join && At(text, s.i + 1, '\n') then
      s.(out := s.out + " ", i := s.i + 2)
    else if s.quote == Double && c == '$' && At(text, s.i + 1, '(') then
      var end := SkipLoop(text, s.i + 1, 0);
      Emit(o, s, Segment(text, o, s.i, end)).(i := end)
    else if s.quote != Bare then QuotedStep(text, o, s)
    else BareStep(text, o, s)
  }

  lemma StepAdvances(text: string, o: Options, s: Scan)
    requires s.i < |text|
    ensures s.i < Step(text, o, s).i <= |text|
  {
  }

  /** The entries the scan ends with from state `s`. */
  function Run(text: string, o: Options, s: Scan): seq<string>
    requires s.i <= |text|
    decreases |text| - s.i
  {
    if s.i == |text| then s.lines + [s.out]
    else
      StepAdvances(text, o, s);
      Run(text, o, Step(text, o, s))
  }

  function Cleaned(text: string, o: Options): seq<string> {
    Run(text, o, START)
  }
}
