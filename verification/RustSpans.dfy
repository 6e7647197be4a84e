/** Spans of a source text and the text that has them blanked: `blank` of both Rust scanners. */
module RustSpans {
  import opened RustArms

  datatype Span = Comment(from: nat, to: nat) | Literal(from: nat, to: nat)

  predicate Covers(s: Span, k: int) {
    s.from <= k < s.to
  }

  predicate Inside(spans: seq<Span>, k: int) {
    exists j :: 0 <= j < |spans| && Covers(spans[j], k)
  }

  /** One character of the blanked text: line breaks stay, everything else in a span is a space. */
  function Shade(text: string, spans: seq<Span>, k: nat): char
    requires k < |text|
  {
    if Inside(spans, k) && text[k] != '\n' then ' ' else text[k]
  }

  predicate IsShaded(code: string, text: string, spans: seq<Span>) {
    |code| == |text| && forall k :: 0 <= k < |text| ==> code[k] == Shade(text, spans, k)
  }

  function Shaded(text: string, spans: seq<Span>): (code: string)
    ensures IsShaded(code, text, spans)
  {
    seq(|text|, k requires 0 <= k < |text| => Shade(text, spans, k))
  }

  /** In order of their offsets, apart from one another, within the text from `i` on. */
  predicate InOrder(spans: seq<Span>, i: nat, n: nat) {
    && (forall j :: 0 <= j < |spans| ==> i <= spans[j].from <= spans[j].to <= n)
    && (forall j :: 0 <= j < |spans| - 1 ==> spans[j].to <= spans[j + 1].from)
  }

  lemma {:induction false} InOrderIsApart(spans: seq<Span>, i: nat, n: nat, a: nat, b: nat)
    requires InOrder(spans, i, n) && a < b < |spans|
    ensures spans[a].to <= spans[b].from
    decreases b - a
  {
    if a + 1 < b { InOrderIsApart(spans, i, n, a + 1, b); }
  }

  lemma InOrderGrows(s: Span, spans: seq<Span>, i: nat, next: nat, n: nat)
    requires i <= s.from <= s.to <= next <= n && InOrder(spans, next, n)
    ensures InOrder([s] + spans, i, n)
  {
    forall j | 0 <= j < |[s] + spans| - 1
      ensures ([s] + spans)[j].to <= ([s] + spans)[j + 1].from
    {
      assert j > 0 ==> ([s] + spans)[j] == spans[j - 1];
    }
  }

  lemma InsideConcat(a: seq<Span>, b: seq<Span>, k: int)
    ensures Inside(a + b, k) <==> Inside(a, k) || Inside(b, k)
  {
    hide Covers;
    if Inside(a, k) {
      var j :| 0 <= j < |a| && Covers(a[j], k);
      assert (a + b)[j] == a[j];
    }
    if Inside(b, k) {
      var j :| 0 <= j < |b| && Covers(b[j], k);
      assert (a + b)[|a| + j] == b[j];
    }
  }

  lemma InsideOne(s: Span, k: int)
    ensures Inside([s], k) <==> Covers(s, k)
  {
    if Covers(s, k) { assert Covers([s][0], k); }
  }

  /** Blanked text has the length, the line breaks and so the line numbers of its source. */
  lemma {:induction false} LinesStay(code: string, text: string, spans: seq<Span>, p: nat)
    requires IsShaded(code, text, spans) && p <= |text|
    ensures LineOf(code, p) == LineOf(text, p)
  {
    hide Inside;
    if p > 0 { LinesStay(code, text, spans, p - 1); }
  }

  /** `blank`: overwrites a stretch of the character list in place. */
  method Blank(code: array<char>, from: nat, to: nat)
    requires from <= to <= code.Length
    modifies code
    ensures forall k :: 0 <= k < code.Length ==>
      code[k] == if from <= k < to && old(code[k]) != '\n' then ' ' else old(code[k])
  {
    for j := from to to
      invariant forall k :: 0 <= k < code.Length ==>
        code[k] == if from <= k < j && old(code[k]) != '\n' then ' ' else old(code[k])
    {
      if code[j] != '\n' { code[j] := ' '; }
    }
  }

  /** `blank` for one more span: what was shaded by `done` is now shaded by `done + [s]`. */
  method BlankSpan(code: array<char>, ghost text: string, ghost done: seq<Span>, s: Span)
    requires s.from <= s.to <= code.Length && IsShaded(code[..], text, done)
    modifies code
    ensures IsShaded(code[..], text, done + [s])
  {
    hide Inside;
    Blank(code, s.from, s.to);
    forall k | 0 <= k < |text|
      ensures code[..][k] == Shade(text, done + [s], k)
    {
      assert old(code[..])[k] == Shade(text, done, k);
      InsideConcat(done, [s], k);
      InsideOne(s, k);
    }
  }
}
