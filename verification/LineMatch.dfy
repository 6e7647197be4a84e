/** Line overlap of two texts: digit folding, line splitting and the matching blocks
    (scripts/report/line_match.py). */
module LineMatch {
  import opened Chars

  // ---- lines -----------------------------------------------------------------

  /** The characters `str.splitlines` splits at. */
  predicate IsLineBreak(c: char) {
    || '\n' <= c <= '\r'
    || '\U{1C}' <= c <= '\U{1E}'
    || c == '\U{85}' || c == '\U{2028}' || c == '\U{2029}'
  }

  predicate OneLine(s: string) {
    forall k :: 0 <= k < |s| ==> !IsLineBreak(s[k])
  }

  /** How much of the text comes before its first line break. */
  function LineLength(text: string): (r: nat)
    ensures r <= |text| && OneLine(text[..r]) && (r < |text| ==> IsLineBreak(text[r]))
  {
    if text == "" || IsLineBreak(text[0]) then 0 else 1 + LineLength(text[1..])
  }

  /** `\r\n` is one line break. */
  function BreakWidth(text: string, k: nat): nat {
    if At(text, k, '\r') && At(text, k + 1, '\n') then 2 else 1
  }

  /** `text.splitlines()`. */
  function SplitLines(text: string): seq<string>
    decreases |text|
  {
    if text == "" then []
    else
      var k := LineLength(text);
      if k == |text| then [text] else [text[..k]] + SplitLines(text[k + BreakWidth(text, k)..])
  }

  /** `"\n".join(lines)`. */
  function Join(lines: seq<string>): string {
    if lines == [] then "" else if |lines| == 1 then lines[0] else lines[0] + "\n" + Join(lines[1..])
  }

  lemma FirstBreak(line: string, c: char, rest: string)
    requires OneLine(line) && IsLineBreak(c)
    ensures LineLength(line + [c] + rest) == |line|
  {
    var text := line + [c] + rest;
    var k := LineLength(text);
    assert text[|line|] == c && forall i :: 0 <= i < |line| ==> text[i] == line[i];
    assert forall i :: 0 <= i < k ==> !IsLineBreak(text[..k][i]) && text[..k][i] == text[i];
  }

  /** What is left of the text behind line `line` and its line break. */
  function BehindBreak(c: char, tail: string): string {
    if c == '\r' && At(tail, 0, '\n') then tail[1..] else tail
  }

  lemma SplitAtBreak(line: string, c: char, tail: string)
    requires OneLine(line) && IsLineBreak(c)
    ensures SplitLines(line + [c] + tail) == [line] + SplitLines(BehindBreak(c, tail))
  {
    var text := line + [c] + tail;
    FirstBreak(line, c, tail);
    assert text[|line|] == c && text[..|line|] == line && text[|line| + 1..] == tail;
    assert At(text, |line| + 1, '\n') <==> At(tail, 0, '\n');
    assert text[|line| + BreakWidth(text, |line|)..] == BehindBreak(c, tail);
  }

  /** Joined lines come apart again: none is empty or holds a line break of its own. */
  lemma {:induction false} SplitUndoesJoin(lines: seq<string>)
    requires forall k :: 0 <= k < |lines| ==> lines[k] != "" && OneLine(lines[k])
    ensures SplitLines(Join(lines)) == lines
  {
    if |lines| == 1 {
      assert LineLength(lines[0]) == |lines[0]|;
    } else if lines != [] {
      assert Join(lines) == lines[0] + ['\n'] + Join(lines[1..]);
      hide SplitLines, Join, OneLine;
      SplitAtBreak(lines[0], '\n', Join(lines[1..]));
      SplitUndoesJoin(lines[1..]);
      assert [lines[0]] + lines[1..] == lines;
    }
  }

  // ---- digit folding ---------------------------------------------------------

  /** What is known of the digits `\d` matches: none is a letter, an underscore, a dash or a line break. */
  ghost predicate DigitTable(digit: char -> bool) {
    forall c :: digit(c) ==> !IsIdentStart(c) && c != '-' && !IsLineBreak(c)
  }

  /** Length of the digit run the text starts with. */
  function DigitRun(digit: char -> bool, s: string): (r: nat)
    ensures r <= |s| && (forall k :: 0 <= k < r ==> digit(s[k])) && (r < |s| ==> !digit(s[r]))
  {
    if s == "" || !digit(s[0]) then 0 else 1 + DigitRun(digit, s[1..])
  }

  /** The class `[A-Za-z_-]` behind a run. */
  predicate Follows(c: char) {
    IsIdentStart(c) || c == '-'
  }

  /** The substitution from a place on, `after` telling whether `[A-Za-z_]` came before it. A run is
      replaced as a whole or not at all: inside a run neither side of the pattern can match. */
  function Fold(digit: char -> bool, after: bool, s: string): string
    decreases |s|
  {
    if s == "" then ""
    else
      var k := DigitRun(digit, s);
      if k == 0 then [s[0]] + Fold(digit, IsIdentStart(s[0]), s[1..])
      else (if after || (k < |s| && Follows(s[k])) then "N" else s[..k]) + Fold(digit, false, s[k..])
  }

  function Normalize(digit: char -> bool, text: string): string {
    Fold(digit, false, text)
  }

  lemma FoldBehindRun(digit: char -> bool, s: string)
    requires s == "" || !digit(s[0])
    ensures Fold(digit, true, s) == Fold(digit, false, s)
    ensures s == "" ==> Fold(digit, false, s) == ""
    ensures s != "" ==> Fold(digit, false, s) != "" && Fold(digit, false, s)[0] == s[0]
  {
  }

  lemma {:induction false} FoldIdempotent(digit: char -> bool, after: bool, s: string)
    requires DigitTable(digit)
    ensures Fold(digit, after, Fold(digit, after, s)) == Fold(digit, after, s)
    decreases |s|
  {
    if s != "" {
      var k := DigitRun(digit, s);
      var t := Fold(digit, after, s);
      if k == 0 {
        var rest := Fold(digit, IsIdentStart(s[0]), s[1..]);
        assert t[1..] == rest;
        FoldIdempotent(digit, IsIdentStart(s[0]), s[1..]);
      } else {
        var rest := Fold(digit, false, s[k..]);
        FoldBehindRun(digit, s[k..]);
        FoldBehindRun(digit, rest);
        FoldIdempotent(digit, false, s[k..]);
        if after || (k < |s| && Follows(s[k])) {
          assert t[1..] == rest;
        } else {
          RunThen(digit, s[..k], rest);
          assert t[k..] == rest && t[..k] == s[..k];
        }
      }
    }
  }

  lemma RunThen(digit: char -> bool, run: string, rest: string)
    requires (forall k :: 0 <= k < |run| ==> digit(run[k])) && (rest == "" || !digit(rest[0]))
    ensures DigitRun(digit, run + rest) == |run|
  {
    var s := run + rest;
    assert forall i :: 0 <= i < |run| ==> s[i] == run[i];
    assert rest != "" ==> s[|run|] == rest[0];
  }

  lemma FoldChar(digit: char -> bool, after: bool, c: char, rest: string)
    requires !digit(c)
    ensures Fold(digit, after, [c] + rest) == [c] + Fold(digit, IsIdentStart(c), rest)
  {
    assert ([c] + rest)[1..] == rest;
  }

  lemma FoldRun(digit: char -> bool, after: bool, run: string, rest: string)
    requires run != "" && (forall k :: 0 <= k < |run| ==> digit(run[k])) && (rest == "" || !digit(rest[0]))
    ensures Fold(digit, after, run + rest)
         == (if after || (rest != "" && Follows(rest[0])) then "N" else run) + Fold(digit, false, rest)
  {
    RunThen(digit, run, rest);
    assert (run + rest)[..|run|] == run && (run + rest)[|run|..] == rest;
  }

  lemma Regroup(p: string, a: string, c: char, b: string)
    ensures p + (a + [c] + b) == (p + a) + [c] + b
  {
  }

  /** Folding works line by line: nothing is seen across a line break. */
  lemma {:induction false} FoldAcrossBreak(digit: char -> bool, after: bool, x: string, c: char, y: string)
    requires DigitTable(digit) && IsLineBreak(c)
    ensures Fold(digit, after, x + [c] + y) == Fold(digit, after, x) + [c] + Fold(digit, false, y)
    decreases |x|
  {
    assert Fold(digit, after, "") == "";
    hide Fold;
    var tail := Fold(digit, false, y);
    if x == "" {
      assert x + [c] + y == [c] + y;
      FoldChar(digit, after, c, y);
      assert "" + [c] + tail == [c] + tail;
    } else if !digit(x[0]) {
      var d, rest := x[0], x[1..];
      assert x == [d] + rest;
      Regroup([d], rest, c, y);
      FoldChar(digit, after, d, rest);
      FoldChar(digit, after, d, rest + [c] + y);
      FoldAcrossBreak(digit, IsIdentStart(d), rest, c, y);
      Regroup([d], Fold(digit, IsIdentStart(d), rest), c, tail);
    } else {
      var k := DigitRun(digit, x);
      var run, rest := x[..k], x[k..];
      assert x == run + rest;
      Regroup(run, rest, c, y);
      var longer := rest + [c] + y;
      assert longer[0] == if rest == "" then c else rest[0];
      FoldRun(digit, after, run, rest);
      FoldRun(digit, after, run, longer);
      FoldAcrossBreak(digit, false, rest, c, y);
      Regroup(if after || (rest != "" && Follows(rest[0])) then "N" else run, Fold(digit, false, rest), c, tail);
    }
  }

  lemma {:induction false} FoldKeepsOneLine(digit: char -> bool, after: bool, s: string)
    requires OneLine(s)
    ensures OneLine(Fold(digit, after, s))
    ensures s != "" ==> Fold(digit, after, s) != ""
    decreases |s|
  {
    if s != "" {
      var k := DigitRun(digit, s);
      FoldKeepsOneLine(digit, if k == 0 then IsIdentStart(s[0]) else false, if k == 0 then s[1..] else s[k..]);
    }
  }

  function NormalizeAll(digit: char -> bool, lines: seq<string>): (r: seq<string>)
    ensures |r| == |lines|
    ensures forall k :: 0 <= k < |lines| ==> r[k] == Normalize(digit, lines[k])
  {
    seq(|lines|, k requires 0 <= k < |lines| => Normalize(digit, lines[k]))
  }

  /** Folding makes no line feed at the front of a text. */
  lemma FoldKeepsFirstBreak(digit: char -> bool, s: string)
    requires DigitTable(digit)
    ensures At(Normalize(digit, s), 0, '\n') <==> At(s, 0, '\n')
  {
    if s != "" {
      var k := DigitRun(digit, s);
      assert k > 0 ==> digit(s[0]) && s[..k][0] == s[0];
      assert IsLineBreak('\n');
    }
  }

  lemma NormalizeBehindBreak(digit: char -> bool, c: char, tail: string)
    requires DigitTable(digit)
    ensures BehindBreak(c, Normalize(digit, tail)) == Normalize(digit, BehindBreak(c, tail))
  {
    FoldKeepsFirstBreak(digit, tail);
    if At(tail, 0, '\n') {
      assert tail == "" + ['\n'] + tail[1..];
      FoldAcrossBreak(digit, false, "", '\n', tail[1..]);
      assert Normalize(digit, tail)[1..] == Normalize(digit, tail[1..]);
    }
  }

  lemma NormalizeStep(digit: char -> bool, line: string, c: char, tail: string)
    requires DigitTable(digit) && OneLine(line) && IsLineBreak(c)
    requires var rest := BehindBreak(c, tail);
      SplitLines(Normalize(digit, rest)) == NormalizeAll(digit, SplitLines(rest))
    ensures var text := line + [c] + tail;
      SplitLines(Normalize(digit, text)) == NormalizeAll(digit, SplitLines(text))
  {
    FoldAcrossBreak(digit, false, line, c, tail);
    FoldKeepsOneLine(digit, false, line);
    SplitAtBreak(line, c, tail);
    SplitAtBreak(Normalize(digit, line), c, Normalize(digit, tail));
    NormalizeBehindBreak(digit, c, tail);
    hide Fold, SplitLines, LineLength, BreakWidth, IsLineBreak, BehindBreak, OneLine;
    var rest := SplitLines(BehindBreak(c, tail));
    assert NormalizeAll(digit, [line] + rest) == [Normalize(digit, line)] + NormalizeAll(digit, rest);
  }

  lemma NormalizeLastLine(digit: char -> bool, text: string)
    requires OneLine(text)
    ensures SplitLines(Normalize(digit, text)) == NormalizeAll(digit, SplitLines(text))
  {
    FoldKeepsOneLine(digit, false, text);
    var t := Normalize(digit, text);
    assert LineLength(t) == |t| && LineLength(text) == |text|;
  }

  /** Normalizing a text normalizes each of its lines, and leaves the line breaks where they are. */
  lemma {:induction false} NormalizeIsLineLocal(digit: char -> bool, text: string)
    requires DigitTable(digit)
    ensures SplitLines(Normalize(digit, text)) == NormalizeAll(digit, SplitLines(text))
    decreases |text|
  {
    var k := LineLength(text);
    if k == |text| {
      assert text[..k] == text;
      NormalizeLastLine(digit, text);
    } else {
      assert text == text[..k] + [text[k]] + text[k + 1..];
      NormalizeIsLineLocal(digit, BehindBreak(text[k], text[k + 1..]));
      NormalizeStep(digit, text[..k], text[k], text[k + 1..]);
    }
  }

  // ---- matching blocks -------------------------------------------------------

  /** `size` lines from `i` of the one and from `j` of the other are equal. */
  datatype Block = Block(i: nat, j: nat, size: nat)

  /** How many lines agree from `i` of the one and `j` of the other on. */
  function CommonAt(a: seq<string>, b: seq<string>, i: nat, j: nat): (r: nat)
    requires i <= |a| && j <= |b|
    ensures i + r <= |a| && j + r <= |b|
    decreases |a| - i
  {
    if i == |a| || j == |b| || a[i] != b[j] then 0 else 1 + CommonAt(a, b, i + 1, j + 1)
  }

  lemma {:induction false} CommonAgrees(a: seq<string>, b: seq<string>, i: nat, j: nat)
    requires i <= |a| && j <= |b|
    ensures var r := CommonAt(a, b, i, j);
      && a[i..i + r] == b[j..j + r]
      && (i + r < |a| && j + r < |b| ==> a[i + r] != b[j + r])
    decreases |a| - i
  {
    var r := CommonAt(a, b, i, j);
    if r > 0 {
      CommonAgrees(a, b, i + 1, j + 1);
      assert a[i..i + r] == [a[i]] + a[i + 1..i + r] && b[j..j + r] == [b[j]] + b[j + 1..j + r];
    }
  }

  /** The pair (i, j) comes before the pair (k, l). */
  predicate Before(i: nat, j: nat, k: nat, l: nat) {
    i < k || (i == k && j < l)
  }

  /** Equal lines on both sides. */
  predicate IsMatch(a: seq<string>, b: seq<string>, m: Block) {
    m.i + m.size <= |a| && m.j + m.size <= |b| && a[m.i..m.i + m.size] == b[m.j..m.j + m.size]
  }

  function LongestFrom(a: seq<string>, b: seq<string>, i: nat, j: nat, best: Block): (m: Block)
    requires i <= |a| && j <= |b| && IsMatch(a, b, best)
    ensures IsMatch(a, b, m)
    decreases |a| - i, |b| - j
  {
    if i == |a| then best
    else if j == |b| then LongestFrom(a, b, i + 1, 0, best)
    else
      var here := CommonAt(a, b, i, j);
      CommonAgrees(a, b, i, j);
      LongestFrom(a, b, i, j + 1, if here > best.size then Block(i, j, here) else best)
  }

  /** `find_longest_match` without junk: the longest match, the first of them in `a`, then in `b`. */
  function Longest(a: seq<string>, b: seq<string>): (m: Block)
    ensures IsMatch(a, b, m)
  {
    LongestFrom(a, b, 0, 0, Block(0, 0, 0))
  }

  /** No match that starts before (i, j) is longer than `m`, and none that long starts before `m`. */
  ghost predicate LongestBefore(a: seq<string>, b: seq<string>, m: Block, i: nat, j: nat) {
    forall k: nat, l: nat :: k < |a| && l < |b| && Before(k, l, i, j) ==>
      CommonAt(a, b, k, l) <= m.size && (CommonAt(a, b, k, l) == m.size > 0 ==> !Before(k, l, m.i, m.j))
  }

  /** The better of the best match so far and the one at (i, j). */
  function Better(a: seq<string>, b: seq<string>, i: nat, j: nat, best: Block): Block
    requires i <= |a| && j <= |b|
  {
    if CommonAt(a, b, i, j) > best.size then Block(i, j, CommonAt(a, b, i, j)) else best
  }

  lemma BetterIsBest(a: seq<string>, b: seq<string>, i: nat, j: nat, best: Block)
    requires i < |a| && j < |b| && LongestBefore(a, b, best, i, j)
    requires best.size > 0 ==> Before(best.i, best.j, i, j)
    ensures LongestBefore(a, b, Better(a, b, i, j, best), i, j + 1)
    ensures var m := Better(a, b, i, j, best); m.size > 0 ==> Before(m.i, m.j, i, j + 1)
  {
    hide CommonAt;
  }

  lemma LongestFromStep(a: seq<string>, b: seq<string>, i: nat, j: nat, best: Block)
    requires i < |a| && j < |b| && IsMatch(a, b, best)
    ensures IsMatch(a, b, Better(a, b, i, j, best))
    ensures LongestFrom(a, b, i, j, best) == LongestFrom(a, b, i, j + 1, Better(a, b, i, j, best))
  {
    CommonAgrees(a, b, i, j);
    hide CommonAt;
  }

  lemma {:induction false} LongestFromIsLongest(a: seq<string>, b: seq<string>, i: nat, j: nat, best: Block)
    requires i <= |a| && j <= |b| && IsMatch(a, b, best) && LongestBefore(a, b, best, i, j)
    requires best.size > 0 ==> Before(best.i, best.j, i, j)
    ensures LongestBefore(a, b, LongestFrom(a, b, i, j, best), |a|, 0)
    decreases |a| - i, |b| - j
  {
    if i < |a| && j == |b| {
      LongestFromIsLongest(a, b, i + 1, 0, best);
    } else if i < |a| {
      LongestFromStep(a, b, i, j, best);
      BetterIsBest(a, b, i, j, best);
      hide *;
      LongestFromIsLongest(a, b, i, j + 1, Better(a, b, i, j, best));
    }
  }

  /** Of all common runs of lines none is longer than the match taken, and none as long starts earlier. */
  lemma LongestIsLongest(a: seq<string>, b: seq<string>)
    ensures LongestBefore(a, b, Longest(a, b), |a|, 0)
  {
    LongestFromIsLongest(a, b, 0, 0, Block(0, 0, 0));
  }

  /** `get_matching_blocks` without junk: the longest match, and the blocks left and right of it.
      Offsets are those of the whole lists. Adjacent blocks are not merged; their sizes add up alike. */
  function Blocks(a: seq<string>, b: seq<string>, i: nat, j: nat): seq<Block>
    decreases |a|
  {
    var m := Longest(a, b);
    if m.size == 0 then []
    else
      Blocks(a[..m.i], b[..m.j], i, j)
      + [Block(i + m.i, j + m.j, m.size)]
      + Blocks(a[m.i + m.size..], b[m.j + m.size..], i + m.i + m.size, j + m.j + m.size)
  }

  function Total(blocks: seq<Block>): nat {
    if blocks == [] then 0 else blocks[0].size + Total(blocks[1..])
  }

  lemma {:induction false} TotalOfSum(a: seq<Block>, b: seq<Block>)
    ensures Total(a + b) == Total(a) + Total(b)
  {
    if a == [] {
      assert a + b == b;
    } else {
      assert (a + b)[1..] == a[1..] + b;
      TotalOfSum(a[1..], b);
    }
  }

  /** Equal lines block by block, each block behind the one before on both sides, from (i, j) up to (k, l). */
  ghost predicate Ordered(a: seq<string>, b: seq<string>, blocks: seq<Block>, i: nat, j: nat, k: nat, l: nat)
    decreases |blocks|
  {
    if blocks == [] then i <= k && j <= l
    else
      var m := blocks[0];
      && i <= m.i && j <= m.j && m.size > 0 && IsMatch(a, b, m)
      && Ordered(a, b, blocks[1..], m.i + m.size, m.j + m.size, k, l)
  }

  lemma {:induction false} OrderedSum(a: seq<string>, b: seq<string>, x: seq<Block>, y: seq<Block>,
                                      i: nat, j: nat, k: nat, l: nat, p: nat, q: nat)
    requires Ordered(a, b, x, i, j, k, l) && Ordered(a, b, y, k, l, p, q)
    ensures Ordered(a, b, x + y, i, j, p, q)
    decreases |x| + |y|
  {
    if x != [] {
      assert (x + y)[1..] == x[1..] + y;
      OrderedSum(a, b, x[1..], y, x[0].i + x[0].size, x[0].j + x[0].size, k, l, p, q);
    } else {
      assert x + y == y;
      OrderedEarlier(a, b, y, i, j, k, l, p, q);
    }
  }

  lemma OrderedEarlier(a: seq<string>, b: seq<string>, y: seq<Block>, i: nat, j: nat, k: nat, l: nat, p: nat, q: nat)
    requires i <= k && j <= l && Ordered(a, b, y, k, l, p, q)
    ensures Ordered(a, b, y, i, j, p, q)
  {
  }

  lemma SlicesOfSlice(s: seq<string>, i: nat, k: nat, p: nat, q: nat)
    requires i <= k <= |s| && p <= q <= k - i
    ensures s[i..k][..p] == s[i..i + p] && s[i..k][p..q] == s[i + p..i + q] && s[i..k][q..] == s[i + q..k]
  {
    var t := s[i..k];
    assert forall n :: 0 <= n < |t| ==> t[n] == s[i + n];
    assert t[q..] == s[i + q..k];
  }

  /** A match inside two sublists, with ordered blocks on either side of it. */
  lemma OrderedAround(a: seq<string>, b: seq<string>, i: nat, j: nat, k: nat, l: nat,
                      m: Block, left: seq<Block>, right: seq<Block>)
    requires i <= k <= |a| && j <= l <= |b| && m.size > 0 && IsMatch(a[i..k], b[j..l], m)
    requires Ordered(a, b, left, i, j, i + m.i, j + m.j)
    requires Ordered(a, b, right, i + m.i + m.size, j + m.j + m.size, k, l)
    ensures Ordered(a, b, left + [Block(i + m.i, j + m.j, m.size)] + right, i, j, k, l)
  {
    var mid := Block(i + m.i, j + m.j, m.size);
    SlicesOfSlice(a, i, k, m.i, m.i + m.size);
    SlicesOfSlice(b, j, l, m.j, m.j + m.size);
    assert IsMatch(a, b, mid) && ([mid] + right)[1..] == right;
    OrderedSum(a, b, left, [mid] + right, i, j, mid.i, mid.j, k, l);
    assert left + ([mid] + right) == left + [mid] + right;
  }

  /** The blocks of two sublists, left and right of their longest match. */
  lemma BlocksOfSlices(a: seq<string>, b: seq<string>, i: nat, j: nat, k: nat, l: nat)
    requires i <= k <= |a| && j <= l <= |b|
    ensures var m := Longest(a[i..k], b[j..l]);
      Blocks(a[i..k], b[j..l], i, j)
        == if m.size == 0 then []
           else
             Blocks(a[i..i + m.i], b[j..j + m.j], i, j) + [Block(i + m.i, j + m.j, m.size)]
             + Blocks(a[i + m.i + m.size..k], b[j + m.j + m.size..l], i + m.i + m.size, j + m.j + m.size)
  {
    hide Longest;
    var m := Longest(a[i..k], b[j..l]);
    if m.size > 0 {
      SlicesOfSlice(a, i, k, m.i, m.i + m.size);
      SlicesOfSlice(b, j, l, m.j, m.j + m.size);
    }
  }

  /** The blocks of two sublists lie in order inside them. */
  lemma {:induction false} BlocksAreOrdered(a: seq<string>, b: seq<string>, i: nat, j: nat, k: nat, l: nat)
    requires i <= k <= |a| && j <= l <= |b|
    ensures Ordered(a, b, Blocks(a[i..k], b[j..l], i, j), i, j, k, l)
    decreases k - i
  {
    hide *;
    var m := Longest(a[i..k], b[j..l]);
    MatchFits(a[i..k], b[j..l], m);
    BlocksOfSlices(a, b, i, j, k, l);
    if m.size == 0 {
      NoBlocksAreOrdered(a, b, i, j, k, l);
    } else {
      var p, q, r, s := i + m.i, j + m.j, i + m.i + m.size, j + m.j + m.size;
      var left, right := Blocks(a[i..p], b[j..q], i, j), Blocks(a[r..k], b[s..l], r, s);
      BlocksAreOrdered(a, b, i, j, p, q);
      BlocksAreOrdered(a, b, r, s, k, l);
      OrderedAround(a, b, i, j, k, l, m, left, right);
    }
  }

  lemma MatchFits(a: seq<string>, b: seq<string>, m: Block)
    requires IsMatch(a, b, m)
    ensures m.i + m.size <= |a| && m.j + m.size <= |b|
  {
  }

  lemma NoBlocksAreOrdered(a: seq<string>, b: seq<string>, i: nat, j: nat, k: nat, l: nat)
    requires i <= k && j <= l
    ensures Ordered(a, b, [], i, j, k, l)
  {
  }

  /** The blocks are empty exactly when the lists have no line in common. */
  lemma BlocksFindSharedLine(a: seq<string>, b: seq<string>, i: nat, j: nat)
    ensures Blocks(a, b, i, j) == [] <==> forall k, l :: 0 <= k < |a| && 0 <= l < |b| ==> a[k] != b[l]
  {
    var m := Longest(a, b);
    LongestIsLongest(a, b);
    if m.size == 0 {
      forall k: nat, l: nat | k < |a| && l < |b|
        ensures a[k] != b[l]
      {
        assert Before(k, l, |a|, 0);
        assert CommonAt(a, b, k, l) <= m.size;
      }
    } else {
      assert a[m.i] == a[m.i..m.i + m.size][0] == b[m.j..m.j + m.size][0] == b[m.j];
    }
  }

  function Max(x: nat, y: nat): nat {
    if x < y then y else x
  }

  /** The figure over two lists of lines, in the larger direction. */
  function MatchedOf(a: seq<string>, b: seq<string>): nat {
    Max(Total(Blocks(a, b, 0, 0)), Total(Blocks(b, a, 0, 0)))
  }

  /** `matched_lines` over two texts. */
  function MatchedLines(digit: char -> bool, a: string, b: string): nat {
    MatchedOf(SplitLines(Normalize(digit, a)), SplitLines(Normalize(digit, b)))
  }

  /** The size of the multiset intersection of two lists of lines. */
  function Shared(a: seq<string>, b: seq<string>): nat {
    |multiset(a) * multiset(b)|
  }

  lemma SmallerMultiset<T>(x: multiset<T>, y: multiset<T>)
    requires x <= y
    ensures |x| <= |y|
  {
    assert y == x + (y - x);
  }

  /** Cutting both lists in two never raises what they share. */
  lemma SharedOfParts(a: seq<string>, b: seq<string>, c: seq<string>, d: seq<string>)
    ensures Shared(a, b) + Shared(c, d) <= Shared(a + c, b + d)
  {
    var x, y := multiset(a) * multiset(b), multiset(c) * multiset(d);
    assert |x + y| == |x| + |y|;
    SmallerMultiset(x + y, multiset(a + c) * multiset(b + d));
  }

  lemma SharedOfThree(a: seq<string>, b: seq<string>, m: Block)
    requires m.i + m.size <= |a| && m.j + m.size <= |b|
    ensures Shared(a[..m.i], b[..m.j]) + Shared(a[m.i..m.i + m.size], b[m.j..m.j + m.size])
          + Shared(a[m.i + m.size..], b[m.j + m.size..]) <= Shared(a, b)
  {
    var k, l := m.i + m.size, m.j + m.size;
    SharedOfParts(a[..m.i], b[..m.j], a[m.i..k], b[m.j..l]);
    SharedOfParts(a[..k], b[..l], a[k..], b[l..]);
    hide Shared;
    CutTwice(a, m.i, k);
    CutTwice(b, m.j, l);
  }

  lemma CutTwice(s: seq<string>, i: nat, k: nat)
    requires i <= k <= |s|
    ensures s[..i] + s[i..k] == s[..k] && s[..k] + s[k..] == s
  {
  }

  lemma TotalOfThree(left: seq<Block>, m: Block, right: seq<Block>)
    ensures Total(left + [m] + right) == Total(left) + m.size + Total(right)
  {
    TotalOfSum(left, [m]);
    TotalOfSum(left + [m], right);
    assert Total([m]) == m.size + Total([]);
  }

  /** The matching blocks pair equal lines, each used once: they never exceed what the lists share. */
  lemma {:induction false} BlocksAreShared(a: seq<string>, b: seq<string>, i: nat, j: nat)
    ensures Total(Blocks(a, b, i, j)) <= Shared(a, b)
    decreases |a|
  {
    hide Shared, CommonAt, Longest, Total;
    var m := Longest(a, b);
    if m.size == 0 {
      assert Total([]) == 0 by { NoTotal(); }
    } else {
      var k, l := m.i + m.size, m.j + m.size;
      BlocksAreShared(a[..m.i], b[..m.j], i, j);
      BlocksAreShared(a[k..], b[l..], i + k, j + l);
      MatchIsShared(a, b, m);
      SharedOfThree(a, b, m);
      TotalOfThree(Blocks(a[..m.i], b[..m.j], i, j), Block(i + m.i, j + m.j, m.size),
                   Blocks(a[k..], b[l..], i + k, j + l));
    }
  }

  lemma NoTotal()
    ensures Total([]) == 0
  {
  }

  lemma MatchIsShared(a: seq<string>, b: seq<string>, m: Block)
    requires IsMatch(a, b, m)
    ensures Shared(a[m.i..m.i + m.size], b[m.j..m.j + m.size]) == m.size
  {
    var x := a[m.i..m.i + m.size];
    assert multiset(x) * multiset(x) == multiset(x);
  }

  lemma MatchedIsShared(a: seq<string>, b: seq<string>)
    ensures MatchedOf(a, b) <= Shared(a, b)
  {
    BlocksAreShared(a, b, 0, 0);
    BlocksAreShared(b, a, 0, 0);
    assert multiset(a) * multiset(b) == multiset(b) * multiset(a);
  }
}
