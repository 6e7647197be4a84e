/** A whole `match`: its scrutinee is passed over and its arms are read (scripts/report/rust_scan.py). */
module RustMatchSites {
  import opened Chars
  import opened RustArms
  import opened RustArmsPrinter

  /** What stands between `match` and the block of its arms: plain text, and blocks of its own. */
  datatype Piece = Plain(text: string) | Inner(text: string)

  function Scrutinee(pieces: seq<Piece>): string {
    if pieces == [] then "" else pieces[0].text + Scrutinee(pieces[1..])
  }

  /** Round and square brackets opened less closed. */
  function RoundDepth(s: string, n: nat): int
    requires n <= |s|
  {
    if n == 0 then 0 else RoundDepth(s, n - 1) + Round(s[n - 1])
  }

  /** A block that is not taken for the arms: it holds something, and no arrow of its own. */
  predicate HoldsNoArms(s: string) {
    |s| >= 2 && !Blank(s[1..|s| - 1]) && !TopLevelArrow(s[1..|s| - 1])
  }

  /** No block, and no `;` outside brackets. */
  predicate IsPlain(s: string, depth: int) {
    forall k :: 0 <= k < |s| ==> s[k] != '{' && (s[k] == ';' ==> depth + RoundDepth(s, k) != 0)
  }

  /** A block outside brackets holds something but no arms. */
  predicate Fits(piece: Piece, depth: int) {
    match piece
    case Plain(s) => IsPlain(s, depth)
    case Inner(s) => IsBlock(s) && (depth == 0 ==> HoldsNoArms(s))
  }

  /** The brackets left open behind a piece. */
  function DepthBehind(piece: Piece, depth: int): int {
    match piece
    case Plain(s) => depth + RoundDepth(s, |s|)
    case Inner(_) => depth
  }

  predicate IsScrutinee(pieces: seq<Piece>, depth: int) {
    if pieces == [] then depth == 0
    else Fits(pieces[0], depth) && IsScrutinee(pieces[1..], DepthBehind(pieces[0], depth))
  }

  lemma PlainStep(t: string, i: nat, depth: int)
    requires i < |t| && t[i] != '{' && (t[i] == ';' ==> depth != 0)
    ensures ArmBlockFrom(t, i, depth) == ArmBlockFrom(t, i + 1, depth + Round(t[i]))
  {
  }

  lemma {:induction false} PlainScan(t: string, at: nat, s: string, k: nat, depth: int)
    requires Reads(t, at, s) && k <= |s| && IsPlain(s, depth)
    ensures ArmBlockFrom(t, at + k, depth + RoundDepth(s, k)) == ArmBlockFrom(t, at + |s|, depth + RoundDepth(s, |s|))
    decreases |s| - k
  {
    hide ArmBlockFrom;
    if k < |s| {
      assert t[at + k] == s[k];
      PlainStep(t, at + k, depth + RoundDepth(s, k));
      PlainScan(t, at, s, k + 1, depth);
    }
  }

  lemma InnerScan(t: string, at: nat, s: string, depth: int)
    requires Reads(t, at, s) && IsBlock(s) && (depth == 0 ==> HoldsNoArms(s))
    ensures ArmBlockFrom(t, at, depth) == ArmBlockFrom(t, at + |s|, depth)
  {
    hide BlockEndFrom, TopLevelArrow;
    BlockReads(t, at, s);
    assert t[at + 0] == s[0];
    if depth == 0 {
      assert t[at + 1..at + |s| - 1] == s[1..|s| - 1] by {
        assert forall k :: 1 <= k < |s| - 1 ==> t[at + k] == s[k];
      }
    }
  }

  lemma PieceScan(t: string, at: nat, piece: Piece, depth: int)
    requires Reads(t, at, piece.text) && Fits(piece, depth)
    ensures ArmBlockFrom(t, at, depth) == ArmBlockFrom(t, at + |piece.text|, DepthBehind(piece, depth))
  {
    hide ArmBlockFrom, IsBlock, HoldsNoArms, Reads, IsPlain;
    match piece {
      case Plain(s) => PlainScan(t, at, s, 0, depth);
      case Inner(s) => InnerScan(t, at, s, depth);
    }
  }

  lemma {:induction false} ScrutineeScan(t: string, at: nat, pieces: seq<Piece>, depth: int)
    requires Reads(t, at, Scrutinee(pieces)) && IsScrutinee(pieces, depth)
    ensures ArmBlockFrom(t, at, depth) == ArmBlockFrom(t, at + |Scrutinee(pieces)|, 0)
    decreases |pieces|
  {
    hide ArmBlockFrom, Reads, DepthBehind, Fits;
    if pieces != [] {
      var s := pieces[0].text;
      ReadsSplit(t, at, s, Scrutinee(pieces[1..]));
      PieceScan(t, at, pieces[0], depth);
      hide IsScrutinee;
      ScrutineeScan(t, at + |s|, pieces[1..], DepthBehind(pieces[0], depth));
    }
  }

  // ---- printed arms are balanced ---------------------------------------------

  lemma BalancedConcat(a: string, b: string)
    requires Balanced(a) && Balanced(b)
    ensures Balanced(a + b)
  {
    hide Depth;
    var s := a + b;
    DepthReads(s, 0, a, |a|);
    DepthReads(s, |a|, b, |b|);
    DepthAtStart(s);
    forall k | 0 <= k <= |s|
      ensures Depth(s, k) >= 0
    {
      if k <= |a| { DepthReads(s, 0, a, k); } else { DepthReads(s, |a|, b, k - |a|); }
    }
  }

  lemma {:induction false} NoBrackets(s: string, k: nat)
    requires k <= |s| && forall j :: 0 <= j < |s| ==> Turn(s[j]) == 0
    ensures Depth(s, k) == 0
  {
    if k > 0 { NoBrackets(s, k - 1); }
  }

  lemma PlainIsBalanced(s: string)
    requires forall j :: 0 <= j < |s| ==> Turn(s[j]) == 0
    ensures Balanced(s)
  {
    forall k | 0 <= k <= |s|
      ensures Depth(s, k) == 0
    {
      NoBrackets(s, k);
    }
  }

  lemma {:induction false} InsideBlock(s: string, k: nat)
    requires IsBlock(s) && 0 < k < |s|
    ensures Depth(s, k) >= 1
  {
    BlockEndIs(s);
    if k > 1 {
      InsideBlock(s, k - 1);
      assert !Closes(s, 0, 0, k);
    }
  }

  lemma BlockIsBalanced(s: string)
    requires IsBlock(s)
    ensures Balanced(s)
  {
    BlockEndIs(s);
    forall k | 0 <= k <= |s|
      ensures Depth(s, k) >= 0
    {
      if 0 < k < |s| { InsideBlock(s, k); }
    }
  }

  lemma ItemIsBalanced(it: Item, last: bool)
    requires Readable(it, last)
    ensures Balanced(PrintItem(it))
  {
    hide Balanced, Depth, TopLevelArrow;
    PlainIsBalanced(it.pad);
    PlainIsBalanced(['=', '>']);
    PlainIsBalanced(it.space);
    PlainIsBalanced(it.gap);
    if IsBlock(it.body) { BlockIsBalanced(it.body); }
    BalancedConcat(it.pattern, it.pad);
    BalancedConcat(it.pattern + it.pad, ['=', '>']);
    BalancedConcat(it.pattern + it.pad + ['=', '>'], it.space);
    BalancedConcat(it.pattern + it.pad + ['=', '>'] + it.space, it.body);
    BalancedConcat(it.pattern + it.pad + ['=', '>'] + it.space + it.body, it.gap);
  }

  lemma {:induction false} PrintIsBalanced(items: seq<Item>)
    requires AllReadable(items)
    ensures Balanced(Print(items))
  {
    if items == [] {
      PlainIsBalanced("");
    } else {
      hide Readable, PrintItem, Balanced;
      var rest := items[1..];
      assert AllReadable(rest) by { assert forall k :: 0 <= k < |rest| ==> rest[k] == items[k + 1]; }
      PrintIsBalanced(rest);
      ItemIsBalanced(items[0], |items| == 1);
      BalancedConcat(PrintItem(items[0]), Print(rest));
    }
  }

  /** Balanced text in braces is a block. */
  lemma Braced(s: string)
    requires Balanced(s)
    ensures IsBlock(['{'] + s + ['}'])
  {
    hide Depth;
    var b := ['{'] + s + ['}'];
    assert b[0] == '{' && b[|b| - 1] == '}';
    forall k | 0 <= k <= |s|
      ensures Depth(b, 1 + k) == 1 + Depth(s, k)
    {
      OneDeeper(b, s, k);
    }
    assert Depth(b, |b|) == Depth(b, 1 + |s|) - 1 && Depth(b, 0) == 0 by { LastTurn(b); }
    forall e | 0 < e < |b|
      ensures !Closes(b, 0, 0, e)
    {
      assert Depth(b, 1 + (e - 1)) == 1 + Depth(s, e - 1) && Depth(s, e - 1) >= 0;
    }
    FirstClose(b, 0, 0, |b|);
  }

  lemma LastTurn(b: string)
    requires b != ""
    ensures Depth(b, |b|) == Depth(b, |b| - 1) + Turn(b[|b| - 1]) && Depth(b, 0) == 0
  {
  }

  lemma {:induction false} OneDeeper(b: string, s: string, k: nat)
    requires b == ['{'] + s + ['}'] && k <= |s|
    ensures Depth(b, 1 + k) == 1 + Depth(s, k)
  {
    if k > 0 {
      OneDeeper(b, s, k - 1);
      assert b[1 + (k - 1)] == s[k - 1];
    } else {
      assert Depth(b, 1) == Depth(b, 0) + Turn(b[0]);
    }
  }

  // ---- the whole match -------------------------------------------------------

  lemma ItemShows(it: Item, last: bool)
    requires Readable(it, last)
    ensures TopLevelArrow(PrintItem(it))
  {
    hide Depth, Balanced, IsBlock, IsExpression, IsPattern;
    var head, s := it.pattern + it.pad, PrintItem(it);
    assert s == head + (['=', '>'] + (it.space + it.body + it.gap));
    PaddedPattern(it.pattern, it.pad);
    DepthReads(s, 0, head, |head|);
    DepthAtStart(s);
    assert ArrowAt(s, |head|);
  }

  /** An arrow outside brackets stays one behind white space and before anything. */
  lemma ArrowCarries(t: string, lead: string, s: string)
    requires Blank(lead) && Reads(t, 0, lead) && Reads(t, |lead|, s) && TopLevelArrow(s)
    ensures TopLevelArrow(t)
  {
    hide Depth, Turn;
    var p :| 0 <= p < |s| && ArrowAt(s, p) && Depth(s, p) == 0;
    DepthReads(t, |lead|, s, p);
    DepthReads(t, 0, lead, |lead|);
    DepthOfBlank(lead, |lead|);
    DepthAtStart(t);
    assert t[|lead| + (p + 1)] == s[p + 1];
    assert ArrowAt(t, |lead| + p);
  }

  lemma ArmsShow(lead: string, items: seq<Item>)
    requires Blank(lead) && AllReadable(items)
    ensures Blank(lead + Print(items)) || TopLevelArrow(lead + Print(items))
  {
    hide TopLevelArrow, PrintItem, Readable;
    if items == [] {
      assert lead + Print(items) == lead;
    } else {
      var inner := lead + Print(items);
      ReadsSplit(inner, 0, lead, Print(items));
      ReadsSplit(inner, |lead|, PrintItem(items[0]), Print(items[1..]));
      ItemShows(items[0], |items| == 1);
      ArrowCarries(inner, lead, PrintItem(items[0]));
    }
  }

  /** The site of a printed `match`: its arm block is found behind the scrutinee, and its arms are read back. */
  lemma PrintedMatchReadsBack(t: string, start: nat, pieces: seq<Piece>, lead: string, items: seq<Item>)
    requires IsScrutinee(pieces, 0) && Blank(lead) && AllReadable(items)
    requires Reads(t, start, Scrutinee(pieces) + (['{'] + (lead + Print(items)) + ['}']))
    ensures var open := start + |Scrutinee(pieces)|;
      var end := open + |lead + Print(items)| + 2;
      && ArmBlockFrom(t, start, 0) == Some((open, end))
      && ArmsFrom(t, open + 1, end - 1, open + 1, 0) == Some(Expected(t, open + 1, open + 1 + |lead|, items))
  {
    hide Print, Scrutinee, IsScrutinee, AllReadable, Expected, ArmsFrom, TopLevelArrow, Blank, BlockEndFrom, Depth,
      LineOf;
    var inner := lead + Print(items);
    var open := start + |Scrutinee(pieces)|;
    ReadsSplit(t, start, Scrutinee(pieces), ['{'] + inner + ['}']);
    ScrutineeScan(t, start, pieces, 0);
    BracedReads(t, open, inner);
    BlankIsBalanced(lead);
    PrintIsBalanced(items);
    BalancedConcat(lead, Print(items));
    Braced(inner);
    BlockReads(t, open, ['{'] + inner + ['}']);
    hide Reads, Balanced, IsBlock;
    ArmsShow(lead, items);
    PrintedArmsReadBack(t, open + 1, lead, items);
  }

  lemma BracedReads(t: string, open: nat, inner: string)
    requires Reads(t, open, ['{'] + inner + ['}'])
    ensures open + |inner| + 2 <= |t| && t[open] == '{' && t[open + 1..open + 1 + |inner|] == inner
    ensures Reads(t, open + 1, inner)
  {
    assert ['{'] + inner + ['}'] == ['{'] + (inner + ['}']);
    ReadsSplit(t, open, ['{'], inner + ['}']);
    ReadsSplit(t, open + 1, inner, ['}']);
    assert t[open + 0] == ['{'][0];
  }

  lemma BlankIsBalanced(s: string)
    requires Blank(s)
    ensures Balanced(s)
  {
    forall k | 0 <= k <= |s|
      ensures Depth(s, k) == 0
    {
      DepthOfBlank(s, k);
    }
  }
}
