/** `match` arms as text: the reader of RustArms gives back what is printed here. */
module RustArmsPrinter {
  import opened Chars
  import opened RustArms

  /** One arm: `pattern`, white space, the arrow, white space, `body`, separators. */
  datatype Item = Item(pattern: string, pad: string, space: string, body: string, gap: string)

  function PrintItem(it: Item): string {
    it.pattern + it.pad + ['=', '>'] + it.space + it.body + it.gap
  }

  function Print(items: seq<Item>): string {
    if items == [] then "" else PrintItem(items[0]) + Print(items[1..])
  }

  /** No bracket closes before it opens, and none stays open. */
  predicate Balanced(s: string) {
    Depth(s, |s|) == 0 && forall k :: 0 <= k <= |s| ==> Depth(s, k) >= 0
  }

  predicate IsBlock(s: string) {
    s != "" && s[0] == '{' && BlockEndFrom(s, 0, 0) == Some(|s|)
  }

  /** No comma outside brackets, and nothing the reader would take for a block. */
  predicate IsExpression(s: string) {
    && Balanced(s)
    && (s == "" || !(IsSpace(s[0]) || s[0] == '{'))
    && forall k :: 0 <= k < |s| && s[k] == ',' ==> Depth(s, k) != 0
  }

  predicate IsPattern(s: string) {
    && s != "" && !IsSpace(s[0]) && s[0] != ',' && !IsSpace(s[|s| - 1])
    && Balanced(s) && !TopLevelArrow(s)
  }

  predicate Separators(s: string) {
    forall k :: 0 <= k < |s| ==> IsSeparator(s[k])
  }

  /** An expression needs a comma unless it is the last body; a block does not. */
  predicate Readable(it: Item, last: bool) {
    && IsPattern(it.pattern) && Blank(it.pad) && Blank(it.space) && Separators(it.gap)
    && (IsBlock(it.body) || (IsExpression(it.body) && if it.gap == "" then last else it.gap[0] == ','))
  }

  predicate AllReadable(items: seq<Item>) {
    forall k :: 0 <= k < |items| ==> Readable(items[k], k == |items| - 1)
  }

  /** The arms of the items, the first pattern counted from `patStart`, the others from where they stand. */
  function Expected(t: string, patStart: nat, at: nat, items: seq<Item>): (arms: seq<Arm>)
    requires patStart <= at && at + |Print(items)| <= |t|
    ensures |arms| == |items|
    ensures forall k :: 0 <= k < |items| ==> arms[k].pattern == items[k].pattern && arms[k].body == items[k].body
    decreases |items|
  {
    if items == [] then []
    else
      var next := at + |PrintItem(items[0])|;
      [Arm(items[0].pattern, LineOf(t, patStart), items[0].body)] + Expected(t, next, next, items[1..])
  }

  // ---- brackets --------------------------------------------------------------

  lemma {:induction false} DepthReads(t: string, at: nat, s: string, k: nat)
    requires Reads(t, at, s) && k <= |s|
    ensures Depth(t, at + k) == Depth(t, at) + Depth(s, k)
  {
    if k > 0 { DepthReads(t, at, s, k - 1); }
  }

  lemma FirstClose(t: string, i: nat, depth: int, e: nat)
    requires i <= |t| && Closes(t, i, depth, e) && forall k :: i < k < e ==> !Closes(t, i, depth, k)
    ensures BlockEndFrom(t, i, depth) == Some(e)
  {
    hide Depth;
    var r := BlockEndFrom(t, i, depth);
    assert r.Some? ==> Closes(t, i, depth, r.value);
    assert forall k :: i < k < (if r.Some? then r.value else |t| + 1) ==> !Closes(t, i, depth, k);
  }

  /** A block ends where it ends on its own, whatever follows. */
  lemma BlockReads(t: string, at: nat, s: string)
    requires Reads(t, at, s) && BlockEndFrom(s, 0, 0) == Some(|s|)
    ensures BlockEndFrom(t, at, 0) == Some(at + |s|)
  {
    hide Depth, BlockEndFrom;
    forall k | 0 < k <= |s|
      ensures Closes(t, at, 0, at + k) <==> Closes(s, 0, 0, k)
    {
      DepthReads(t, at, s, k);
      DepthReads(t, at, s, 0);
      assert t[at + (k - 1)] == s[k - 1];
    }
    BlockEndIs(s);
    forall e | at < e < at + |s|
      ensures !Closes(t, at, 0, e)
    {
      assert Closes(t, at, 0, at + (e - at)) <==> Closes(s, 0, 0, e - at);
    }
    FirstClose(t, at, 0, at + |s|);
  }

  lemma BlockEndIs(s: string)
    requires BlockEndFrom(s, 0, 0) == Some(|s|)
    ensures Closes(s, 0, 0, |s|) && forall e :: 0 < e < |s| ==> !Closes(s, 0, 0, e)
  {
  }

  // ---- scans over one part of an arm -----------------------------------------

  lemma {:induction false} SpaceScan(t: string, at: nat, s: string, k: nat, stop: nat)
    requires Reads(t, at, s) && Blank(s) && k <= |s| && at + |s| <= stop <= |t|
    ensures SkipSpace(t, at + k, stop) == SkipSpace(t, at + |s|, stop)
    decreases |s| - k
  {
    if k < |s| {
      assert t[at + k] == s[k];
      SpaceScan(t, at, s, k + 1, stop);
    }
  }

  lemma {:induction false} SeparatorScan(t: string, at: nat, s: string, k: nat, stop: nat)
    requires Reads(t, at, s) && Separators(s) && k <= |s| && at + |s| <= stop <= |t|
    ensures SkipSeparators(t, at + k, stop) == SkipSeparators(t, at + |s|, stop)
    decreases |s| - k
  {
    if k < |s| {
      assert t[at + k] == s[k];
      SeparatorScan(t, at, s, k + 1, stop);
    }
  }

  lemma {:induction false} ExpressionScan(t: string, at: nat, s: string, k: nat, stop: nat)
    requires Reads(t, at, s) && k <= |s| && at + |s| <= stop <= |t|
    requires forall j :: 0 <= j < |s| && s[j] == ',' ==> Depth(s, j) != 0
    ensures ExpressionEnd(t, at + k, stop, Depth(s, k)) == ExpressionEnd(t, at + |s|, stop, Depth(s, |s|))
    decreases |s| - k
  {
    if k < |s| {
      assert t[at + k] == s[k];
      ExpressionScan(t, at, s, k + 1, stop);
    }
  }

  /** Over text that opens no top-level arrow the reader only counts brackets. */
  lemma {:induction false} HeadScan(t: string, at: nat, s: string, k: nat, stop: nat, patStart: nat)
    requires Reads(t, at, s) && !TopLevelArrow(s) && k <= |s| && at + |s| <= stop <= |t| && patStart <= at
    requires at + |s| < |t| ==> t[at + |s|] != '>'
    ensures ArmsFrom(t, at + k, stop, patStart, Depth(s, k)) == ArmsFrom(t, at + |s|, stop, patStart, Depth(s, |s|))
    decreases |s| - k
  {
    hide ArmAt;
    if k < |s| {
      assert t[at + k] == s[k];
      if ArrowAt(t, at + k) {
        assert k + 1 < |s| ==> t[at + (k + 1)] == s[k + 1];
        assert ArrowAt(s, k);
      }
      HeadScan(t, at, s, k + 1, stop, patStart);
    }
  }

  // ---- the pattern and its white space ---------------------------------------

  lemma {:induction false} LStripOfBlank(lead: string, rest: string)
    requires Blank(lead) && rest != "" && !IsSpace(rest[0])
    ensures LStrip(lead + rest) == rest
  {
    if lead == "" {
      assert lead + rest == rest;
    } else {
      assert (lead + rest)[1..] == lead[1..] + rest;
      LStripOfBlank(lead[1..], rest);
    }
  }

  lemma {:induction false} TrimOfBlank(s: string, n: nat, k: nat)
    requires 0 < n <= k <= |s| && !IsSpace(s[n - 1]) && forall j :: n <= j < k ==> IsSpace(s[j])
    ensures TrimEnd(s, k) == n
    decreases k
  {
    if k > n { TrimOfBlank(s, n, k - 1); }
  }

  lemma StripOfPadded(lead: string, p: string, pad: string)
    requires Blank(lead) && Blank(pad) && p != "" && !IsSpace(p[0]) && !IsSpace(p[|p| - 1])
    ensures Strip(lead + p + pad) == p
  {
    hide IsSpace, LStrip, TrimEnd;
    var s := p + pad;
    LStripOfBlank(lead, s);
    assert lead + p + pad == lead + s;
    TrimOfBlank(s, |p|, |s|);
  }

  lemma {:induction false} DepthOfBlank(s: string, k: nat)
    requires k <= |s| && Blank(s)
    ensures Depth(s, k) == 0
  {
    if k > 0 { DepthOfBlank(s, k - 1); }
  }

  /** White space behind a pattern brings in no arrow. */
  lemma PaddedPattern(p: string, pad: string)
    requires IsPattern(p) && Blank(pad)
    ensures !TopLevelArrow(p + pad) && Depth(p + pad, |p + pad|) == 0
  {
    var s := p + pad;
    forall k | 0 <= k < |s| && ArrowAt(s, k)
      ensures Depth(s, k) != 0
    {
      assert k + 1 < |p|;
      assert ArrowAt(p, k);
      DepthReads(s, 0, p, k);
    }
    DepthReads(s, 0, p, |p|);
    DepthReads(s, |p|, pad, |pad|);
    DepthOfBlank(pad, |pad|);
  }

  // ---- one arm, then all of them ---------------------------------------------

  lemma BodyReads(t: string, at: nat, it: Item, last: bool, stop: nat)
    requires Readable(it, last) && Reads(t, at, it.body + it.gap) && at + |it.body + it.gap| <= stop <= |t|
    requires last ==> at + |it.body + it.gap| == stop
    ensures SkipSpace(t, at, stop) == at || IsBlock(it.body)
    ensures BodyEnd(t, at, stop) == Some(at + |it.body|)
  {
    hide Depth, BlockEndFrom, TopLevelArrow;
    ReadsSplit(t, at, it.body, it.gap);
    if it.body != "" { assert t[at + 0] == it.body[0]; }
    if it.gap != "" { assert t[at + |it.body| + 0] == it.gap[0]; }
    if IsBlock(it.body) {
      BlockReads(t, at, it.body);
    } else {
      ExpressionScan(t, at, it.body, 0, stop);
      assert Depth(it.body, 0) == 0 by { DepthAtStart(it.body); }
    }
  }

  lemma DepthAtStart(s: string)
    ensures Depth(s, 0) == 0
  {
  }

  predicate SeparatorsEnd(t: string, e: nat, stop: nat) {
    e >= stop || (e < |t| && !IsSeparator(t[e]))
  }

  /** The parts behind the arrow, each at its place. */
  lemma PartsRead(t: string, at: nat, space: string, body: string, gap: string)
    requires Reads(t, at, ['=', '>'] + (space + (body + gap)))
    ensures ArrowAt(t, at) && Reads(t, at + 2, space)
    ensures var b := at + 2 + |space|;
      Reads(t, b, body + gap) && Reads(t, b + |body|, gap) && t[b..b + |body|] == body
  {
    ReadsSplit(t, at, ['=', '>'], space + (body + gap));
    assert t[at + 0] == ['=', '>'][0] && t[at + 1] == ['=', '>'][1];
    ReadsSplit(t, at + 2, space, body + gap);
    ReadsSplit(t, at + 2 + |space|, body, gap);
  }

  lemma SpaceEnds(t: string, at: nat, it: Item, last: bool, stop: nat)
    requires Readable(it, last) && Reads(t, at, it.space) && Reads(t, at + |it.space|, it.body + it.gap)
    requires at + |it.space| + |it.body + it.gap| <= stop <= |t|
    requires last ==> at + |it.space| + |it.body + it.gap| == stop
    ensures SkipSpace(t, at, stop) == at + |it.space|
    ensures BodyEnd(t, at + |it.space|, stop) == Some(at + |it.space| + |it.body|)
  {
    hide BodyEnd, Depth, BlockEndFrom, TopLevelArrow, IsExpression, IsPattern;
    var b := at + |it.space|;
    SpaceScan(t, at, it.space, 0, stop);
    BodyReads(t, b, it, last, stop);
    if IsBlock(it.body) {
      ReadsSplit(t, b, it.body, it.gap);
      assert t[b + 0] == it.body[0];
    }
  }

  lemma GapEnds(t: string, at: nat, gap: string, stop: nat)
    requires Reads(t, at, gap) && Separators(gap) && at + |gap| <= stop <= |t| && SeparatorsEnd(t, at + |gap|, stop)
    ensures SkipSeparators(t, at, stop) == at + |gap|
  {
    SeparatorScan(t, at, gap, 0, stop);
  }

  lemma ArrowReads(t: string, at: nat, it: Item, last: bool, stop: nat, patStart: nat)
    requires Readable(it, last) && patStart <= at && Reads(t, at, ['=', '>'] + (it.space + (it.body + it.gap)))
    requires var e := at + |['=', '>'] + (it.space + (it.body + it.gap))|;
      e <= stop <= |t| && (last ==> e == stop) && SeparatorsEnd(t, e, stop)
    ensures ArrowAt(t, at)
    ensures var e := at + |['=', '>'] + (it.space + (it.body + it.gap))|;
      ArmAt(t, at, stop, patStart)
        == After(Arm(Strip(t[patStart..at]), LineOf(t, patStart), it.body), ArmsFrom(t, e, stop, e, 0))
  {
    hide BodyEnd, Strip, LineOf, IsExpression, IsPattern, BlockEndFrom, ArmsFrom, ArmAt, Reads, SkipSpace,
      SkipSeparators;
    var b := at + 2 + |it.space|;
    PartsRead(t, at, it.space, it.body, it.gap);
    SpaceEnds(t, at + 2, it, last, stop);
    GapEnds(t, b + |it.body|, it.gap, stop);
    ArmOfParts(t, at, stop, patStart, b, b + |it.body|, b + |it.body| + |it.gap|);
  }

  lemma LeadAndHead(t: string, patStart: nat, at: nat, pattern: string, pad: string)
    requires patStart <= at && Reads(t, at, pattern + pad)
    ensures t[patStart..at + |pattern + pad|] == t[patStart..at] + pattern + pad
  {
    assert t[at..at + |pattern + pad|] == pattern + pad;
    assert t[patStart..at + |pattern + pad|] == t[patStart..at] + t[at..at + |pattern + pad|];
    Associates(t[patStart..at], pattern, pad);
  }

  lemma OneArm(t: string, patStart: nat, at: nat, it: Item, last: bool, stop: nat)
    requires Readable(it, last) && patStart <= at && Reads(t, at, PrintItem(it)) && Blank(t[patStart..at])
    requires var e := at + |PrintItem(it)|; e <= stop <= |t| && (last ==> e == stop) && SeparatorsEnd(t, e, stop)
    ensures var e := at + |PrintItem(it)|;
      ArmsFrom(t, at, stop, patStart, 0)
        == After(Arm(it.pattern, LineOf(t, patStart), it.body), ArmsFrom(t, e, stop, e, 0))
  {
    hide Strip, LineOf, IsExpression, IsBlock, ArmAt, SeparatorsEnd, TopLevelArrow;
    var head := it.pattern + it.pad;
    var tail := ['=', '>'] + (it.space + (it.body + it.gap));
    assert PrintItem(it) == head + tail;
    ReadsSplit(t, at, head, tail);
    assert t[at + |head| + 0] == tail[0];
    PaddedPattern(it.pattern, it.pad);
    DepthAtStart(head);
    HeadScan(t, at, head, 0, stop, patStart);
    ArrowReads(t, at + |head|, it, last, stop, patStart);
    LeadAndHead(t, patStart, at, it.pattern, it.pad);
    StripOfPadded(t[patStart..at], it.pattern, it.pad);
  }

  lemma FirstChar(items: seq<Item>)
    requires items != [] && AllReadable(items)
    ensures Print(items) != "" && !IsSeparator(Print(items)[0])
  {
    hide Print;
    assert Print(items) == PrintItem(items[0]) + Print(items[1..]) by { PrintStep(items); }
    assert Readable(items[0], |items| == 1);
  }

  lemma PrintStep(items: seq<Item>)
    requires items != []
    ensures Print(items) == PrintItem(items[0]) + Print(items[1..])
  {
  }

  lemma {:induction false} ArmsRead(t: string, patStart: nat, at: nat, items: seq<Item>, stop: nat)
    requires AllReadable(items) && patStart <= at && Reads(t, at, Print(items)) && Blank(t[patStart..at])
    requires stop == at + |Print(items)|
    ensures ArmsFrom(t, at, stop, patStart, 0) == Some(Expected(t, patStart, at, items))
    decreases |items|
  {
    if items != [] {
      hide Readable, PrintItem, LineOf, ArmsFrom;
      var it, rest := items[0], items[1..];
      var next := at + |PrintItem(it)|;
      assert AllReadable(rest) by { assert forall k :: 0 <= k < |rest| ==> rest[k] == items[k + 1]; }
      ReadsSplit(t, at, PrintItem(it), Print(rest));
      if rest != [] {
        FirstChar(rest);
        assert t[next + 0] == Print(rest)[0];
      }
      OneArm(t, patStart, at, it, rest == [], stop);
      ArmsRead(t, next, next, rest, stop);
    }
  }

  /** Printed arms are read back: every pattern and body in order, each with the line its text starts on. */
  lemma PrintedArmsReadBack(t: string, start: nat, lead: string, items: seq<Item>)
    requires AllReadable(items) && Blank(lead) && Reads(t, start, lead + Print(items))
    ensures ArmsFrom(t, start, start + |lead| + |Print(items)|, start, 0)
         == Some(Expected(t, start, start + |lead|, items))
  {
    hide AllReadable, Expected;
    var at, stop := start + |lead|, start + |lead| + |Print(items)|;
    ReadsSplit(t, start, lead, Print(items));
    assert !TopLevelArrow(lead);
    DepthOfBlank(lead, |lead|);
    DepthOfBlank(lead, 0);
    if at < |t| && items != [] {
      FirstChar(items);
      assert t[at + 0] == Print(items)[0];
    }
    LeadScan(t, start, lead, 0, stop);
    assert t[start..at] == lead;
    ArmsRead(t, start, at, items, stop);
  }

  lemma {:induction false} LeadScan(t: string, at: nat, lead: string, k: nat, stop: nat)
    requires Reads(t, at, lead) && Blank(lead) && k <= |lead| && at + |lead| <= stop <= |t|
    ensures ArmsFrom(t, at + k, stop, at, 0) == ArmsFrom(t, at + |lead|, stop, at, 0)
    decreases |lead| - k
  {
    hide ArmAt;
    if k < |lead| {
      assert t[at + k] == lead[k];
      LeadScan(t, at, lead, k + 1, stop);
    }
  }

  // ---- the line an arm is given ----------------------------------------------

  lemma {:induction false} LineAfter(t: string, at: nat, s: string, k: nat)
    requires Reads(t, at, s) && k <= |s|
    ensures LineOf(t, at + k) >= LineOf(t, at)
    ensures LineOf(t, at + k) == LineOf(t, at) <==> '\n' !in s[..k]
  {
    if k > 0 {
      LineAfter(t, at, s, k - 1);
      assert s[..k] == s[..k - 1] + [s[k - 1]];
      assert t[at + (k - 1)] == s[k - 1];
    }
  }

  lemma {:induction false} ExpectedLine(t: string, patStart: nat, at: nat, items: seq<Item>, k: nat)
    requires patStart <= at && at + |Print(items)| <= |t| && k < |items|
    ensures at + |Print(items[..k])| <= |t|
    ensures Expected(t, patStart, at, items)[k].line == LineOf(t, if k == 0 then patStart else at + |Print(items[..k])|)
    decreases k
  {
    hide *;
    PrintStep(items);
    ExpectedAt(t, patStart, at, items, k);
    if k == 0 {
      PrintOfNothing(items);
    } else {
      var next := at + |PrintItem(items[0])|;
      ExpectedLine(t, next, next, items[1..], k - 1);
      PrintOfPrefix(items, k);
      if k == 1 { PrintOfNothing(items[1..]); }
    }
  }

  lemma ExpectedAt(t: string, patStart: nat, at: nat, items: seq<Item>, k: nat)
    requires patStart <= at && at + |Print(items)| <= |t| && k < |items|
    ensures var next := at + |PrintItem(items[0])|;
      && next + |Print(items[1..])| <= |t|
      && Expected(t, patStart, at, items)[k].line
         == if k == 0 then LineOf(t, patStart) else Expected(t, next, next, items[1..])[k - 1].line
  {
    hide LineOf, PrintItem;
  }

  lemma PrintOfNothing(items: seq<Item>)
    ensures Print(items[..0]) == ""
  {
  }

  lemma PrintOfPrefix(items: seq<Item>, k: nat)
    requires 0 < k <= |items|
    ensures Print(items[..k]) == PrintItem(items[0]) + Print(items[1..][..k - 1])
  {
    hide PrintItem;
    assert items[..k][1..] == items[1..][..k - 1] && items[..k][0] == items[0];
    PrintStep(items[..k]);
  }

  /** Every arm but the first is given the line of its own pattern; the first is exactly when the pattern starts
      on the line of the brace. */
  lemma ArmLines(t: string, start: nat, lead: string, items: seq<Item>)
    requires AllReadable(items) && Blank(lead) && Reads(t, start, lead + Print(items)) && items != []
    ensures var at := start + |lead|;
      var arms := ArmsFrom(t, start, at + |Print(items)|, start, 0);
      && arms.Some? && |arms.value| == |items|
      && (forall k :: 1 <= k < |items| ==>
            at + |Print(items[..k])| <= |t| && arms.value[k].line == LineOf(t, at + |Print(items[..k])|))
      && (arms.value[0].line == LineOf(t, at) <==> '\n' !in lead)
  {
    hide AllReadable, Expected, LineOf, Print, ArmsFrom;
    PrintedArmsReadBack(t, start, lead, items);
    ReadsSplit(t, start, lead, Print(items));
    LineAfter(t, start, lead, |lead|);
    assert lead[..|lead|] == lead;
    ExpectedLine(t, start, start + |lead|, items, 0);
    forall k | 1 <= k < |items|
      ensures start + |lead| + |Print(items[..k])| <= |t|
      ensures Expected(t, start, start + |lead|, items)[k].line == LineOf(t, start + |lead| + |Print(items[..k])|)
    {
      ExpectedLine(t, start, start + |lead|, items, k);
    }
  }
}
