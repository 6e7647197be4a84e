/** Character classes and small text helpers that several scanners share. */
module Chars {

  datatype Option<+T> = None | Some(value: T)

  datatype Result<+T, +E> = Ok(value: T) | Err(error: E)

  lemma Associates<T>(a: seq<T>, b: seq<T>, c: seq<T>)
    ensures (a + b) + c == a + (b + c)
  {
  }

  /** What was read so far in front of what the rest gives, or the error of the rest. */
  function Prefixed<T, E>(done: seq<T>, rest: Result<seq<T>, E>): Result<seq<T>, E> {
    match rest
    case Err(e) => Err(e)
    case Ok(more) => Ok(done + more)
  }

  lemma PrefixedTwice<T, E>(done: seq<T>, xs: seq<T>, rest: Result<seq<T>, E>)
    ensures Prefixed(done, Prefixed(xs, rest)) == Prefixed(done + xs, rest)
  {
    if rest.Ok? { Associates(done, xs, rest.value); }
  }

  lemma PrefixedEnds<T, E>(done: seq<T>, rest: Result<seq<T>, E>)
    ensures Prefixed([], rest) == rest && Prefixed(done, Result<seq<T>, E>.Ok([])) == Result<seq<T>, E>.Ok(done)
  {
    assert done + [] == done;
    if rest.Ok? { assert [] + rest.value == rest.value; }
  }

  /** `str.isspace`, `str.strip` and the `\s` of a regular expression agree on this set. */
  predicate IsSpace(c: char) {
    || '\t' <= c <= '\r'
    || '\U{1C}' <= c <= ' '
    || c == '\U{85}' || c == '\U{A0}' || c == '\U{1680}'
    || '\U{2000}' <= c <= '\U{200A}'
    || c == '\U{2028}' || c == '\U{2029}' || c == '\U{202F}' || c == '\U{205F}' || c == '\U{3000}'
  }

  predicate IsLetter(c: char) {
    'a' <= c <= 'z' || 'A' <= c <= 'Z'
  }

  /** The class `[A-Za-z_]`. */
  predicate IsIdentStart(c: char) {
    IsLetter(c) || c == '_'
  }

  /** The class `[A-Za-z0-9_]`. */
  predicate IsIdentChar(c: char) {
    IsIdentStart(c) || '0' <= c <= '9'
  }

  /** `text.startswith(word, i)`. */
  predicate StartsAt(text: string, i: nat, word: string) {
    i + |word| <= |text| && text[i..i + |word|] == word
  }

  /** The next character is `c`: `text[i : i + 1] == c`. */
  predicate At(text: string, i: nat, c: char) {
    i < |text| && text[i] == c
  }

  /** Length of the first `n` characters without the white space they end in. */
  function TrimEnd(s: string, n: nat): (r: nat)
    requires n <= |s|
    ensures r <= n
  {
    if n > 0 && IsSpace(s[n - 1]) then TrimEnd(s, n - 1) else n
  }

  /** `text.rstrip()`. */
  function RStrip(s: string): string {
    s[..TrimEnd(s, |s|)]
  }

  function LStrip(s: string): string {
    if s != "" && IsSpace(s[0]) then LStrip(s[1..]) else s
  }

  /** `text.strip()`. */
  function Strip(s: string): string {
    RStrip(LStrip(s))
  }

  /** Index of the first `c` at or after `i`, or the length of the text. */
  function Find(text: string, c: char, i: nat): (r: nat)
    requires i <= |text|
    ensures i <= r <= |text|
    ensures r < |text| ==> text[r] == c
    ensures forall k :: i <= k < r ==> text[k] != c
    decreases |text| - i
  {
    if i == |text| || text[i] == c then i else Find(text, c, i + 1)
  }

  lemma {:induction false} FindIs(text: string, c: char, i: nat, r: nat)
    requires i <= r <= |text| && (forall k :: i <= k < r ==> text[k] != c) && (r < |text| ==> text[r] == c)
    ensures Find(text, c, i) == r
    decreases r - i
  {
    if i < r { FindIs(text, c, i + 1, r); }
  }

  /** The physical lines of the first `n` characters, the last one as far as it goes. */
  function LinesTo(text: string, n: nat): (r: seq<string>)
    requires n <= |text|
    ensures |r| >= 1
  {
    if n == 0 then [""]
    else
      var r := LinesTo(text, n - 1);
      if text[n - 1] == '\n' then r + [""] else ExtendLast(r, [text[n - 1]])
  }

  /** `text.split("\n")`. */
  function Lines(text: string): seq<string> {
    LinesTo(text, |text|)
  }

  function ExtendLast(lines: seq<string>, more: string): (r: seq<string>)
    requires lines != []
    ensures |r| == |lines|
  {
    lines[|lines| - 1 := lines[|lines| - 1] + more]
  }

  predicate NoBreak(text: string, i: nat, j: nat)
    requires i <= j <= |text|
  {
    forall k :: i <= k < j ==> text[k] != '\n'
  }

  lemma {:induction false} LinesHoldNoBreak(text: string, n: nat)
    requires n <= |text|
    ensures forall k :: 0 <= k < |LinesTo(text, n)| ==> '\n' !in LinesTo(text, n)[k]
  {
    if n > 0 { LinesHoldNoBreak(text, n - 1); }
  }

  lemma ExtendTwice(lines: seq<string>, a: string, b: string)
    requires lines != []
    ensures ExtendLast(ExtendLast(lines, a), b) == ExtendLast(lines, a + b)
  {
    assert lines[|lines| - 1] + (a + b) == (lines[|lines| - 1] + a) + b;
  }

  /** Text without a line break only extends the last line. */
  lemma {:induction false} LinesExtend(text: string, i: nat, j: nat)
    requires i <= j <= |text| && NoBreak(text, i, j)
    ensures LinesTo(text, j) == ExtendLast(LinesTo(text, i), text[i..j])
    decreases j - i
  {
    var r := LinesTo(text, i);
    if i == j {
      assert text[i..j] == "";
      assert r[|r| - 1] + "" == r[|r| - 1];
    } else {
      LinesExtend(text, i, j - 1);
      ExtendTwice(r, text[i..j - 1], [text[j - 1]]);
      assert text[i..j] == text[i..j - 1] + [text[j - 1]];
    }
  }

  /** `word` stands in the text at `i`. */
  predicate Reads(text: string, i: nat, word: string) {
    i + |word| <= |text| && forall k :: 0 <= k < |word| ==> text[i + k] == word[k]
  }

  lemma ReadsSplit(text: string, i: nat, a: string, b: string)
    requires Reads(text, i, a + b)
    ensures Reads(text, i, a) && Reads(text, i + |a|, b)
  {
    assert forall k :: 0 <= k < |a| ==> a[k] == (a + b)[k];
    assert forall k :: 0 <= k < |b| ==> b[k] == (a + b)[|a| + k] == text[i + (|a| + k)];
  }
}
