/** Brackets and `match` arms in blanked Rust text (scripts/report/rust_scan.py): the reader. */
module RustArms {
  import opened Chars

  predicate IsOpen(c: char) {
    c == '{' || c == '(' || c == '['
  }

  predicate IsClose(c: char) {
    c == '}' || c == ')' || c == ']'
  }

  function Turn(c: char): int {
    if IsOpen(c) then 1 else if IsClose(c) then -1 else 0
  }

  /** Brackets opened less brackets closed among the first `n` characters, of whatever kind. */
  function Depth(s: string, n: nat): int
    requires n <= |s|
  {
    if n == 0 then 0 else Depth(s, n - 1) + Turn(s[n - 1])
  }

  /** `line_of`. */
  function LineOf(t: string, p: nat): nat
    requires p <= |t|
  {
    if p == 0 then 1 else LineOf(t, p - 1) + if t[p - 1] == '\n' then 1 else 0
  }

  // ---- block_end -------------------------------------------------------------

  /** A bracket closes at `e - 1` and takes a count that stood at `depth` before `i` to zero. */
  predicate Closes(t: string, i: nat, depth: int, e: nat) {
    i < e <= |t| && IsClose(t[e - 1]) && depth + Depth(t, e) - Depth(t, i) == 0
  }

  /** `block_end` from `i` on with `depth` brackets open: the first place the count comes back to zero. */
  function BlockEndFrom(t: string, i: nat, depth: int): (r: Option<nat>)
    requires i <= |t|
    ensures r.Some? ==> Closes(t, i, depth, r.value)
    ensures forall e :: i < e < (if r.Some? then r.value else |t| + 1) ==> !Closes(t, i, depth, e)
    decreases |t| - i
  {
    if i == |t| then None
    else
      var d := depth + Turn(t[i]);
      assert forall e :: i + 1 < e <= |t| ==> (Closes(t, i, depth, e) <==> Closes(t, i + 1, d, e));
      assert Closes(t, i, depth, i + 1) <==> IsClose(t[i]) && d == 0;
      if IsClose(t[i]) && d == 0 then Some(i + 1) else BlockEndFrom(t, i + 1, d)
  }

  method BlockEnd(t: string, openAt: nat) returns (end: Option<nat>)
    requires openAt <= |t|
    ensures end == BlockEndFrom(t, openAt, 0)
  {
    var depth := 0;
    for i := openAt to |t|
      invariant BlockEndFrom(t, openAt, 0) == BlockEndFrom(t, i, depth)
    {
      var c := t[i];
      if IsOpen(c) {
        depth := depth + 1;
      } else if IsClose(c) {
        depth := depth - 1;
        if depth == 0 { return Some(i + 1); }
      }
    }
    return None;
  }

  // ---- a bracket stack that tells the kinds apart ----------------------------

  datatype Typed = End(at: nat) | Mismatch | Unclosed

  predicate Pairs(open: char, close: char) {
    (open == '{' && close == '}') || (open == '(' && close == ')') || (open == '[' && close == ']')
  }

  predicate Opens(stack: string) {
    forall k :: 0 <= k < |stack| ==> IsOpen(stack[k])
  }

  function TypedFrom(t: string, i: nat, stack: string): Typed
    requires i <= |t| && Opens(stack)
    decreases |t| - i
  {
    if i == |t| then Unclosed
    else if IsOpen(t[i]) then TypedFrom(t, i + 1, stack + [t[i]])
    else if IsClose(t[i]) then
      if stack == [] || !Pairs(stack[|stack| - 1], t[i]) then Mismatch
      else if |stack| == 1 then End(i + 1)
      else TypedFrom(t, i + 1, stack[..|stack| - 1])
    else TypedFrom(t, i + 1, stack)
  }

  /** Where the typed stack finds no mismatch, the untyped count gives the same answer. */
  lemma {:induction false} CountMatchesStack(t: string, i: nat, stack: string)
    requires i <= |t| && Opens(stack)
    ensures TypedFrom(t, i, stack).End? ==> BlockEndFrom(t, i, |stack|) == Some(TypedFrom(t, i, stack).at)
    ensures TypedFrom(t, i, stack).Unclosed? ==> BlockEndFrom(t, i, |stack|) == None
    decreases |t| - i
  {
    if i < |t| {
      if IsOpen(t[i]) {
        CountMatchesStack(t, i + 1, stack + [t[i]]);
      } else if !IsClose(t[i]) {
        CountMatchesStack(t, i + 1, stack);
      } else if |stack| > 1 {
        CountMatchesStack(t, i + 1, stack[..|stack| - 1]);
      }
    }
  }

  // ---- _arms -----------------------------------------------------------------

  datatype Arm = Arm(pattern: string, line: nat, body: string)

  /** The two characters of `=>` stand at `i`. */
  predicate ArrowAt(t: string, i: nat) {
    i + 1 < |t| && t[i] == '=' && t[i + 1] == '>'
  }

  predicate IsSeparator(c: char) {
    c == ',' || c == ' ' || c == '\t' || c == '\r' || c == '\n'
  }

  function SkipSpace(t: string, i: nat, stop: nat): (r: nat)
    requires i <= |t| && stop <= |t|
    ensures i <= r <= |t|
    decreases |t| - i
  {
    if i < stop && IsSpace(t[i]) then SkipSpace(t, i + 1, stop) else i
  }

  function SkipSeparators(t: string, i: nat, stop: nat): (r: nat)
    requires i <= |t| && stop <= |t|
    ensures i <= r <= |t|
    decreases |t| - i
  {
    if i < stop && IsSeparator(t[i]) then SkipSeparators(t, i + 1, stop) else i
  }

  /** The end of an expression: the first comma with no bracket open, or the end of the arms. */
  function ExpressionEnd(t: string, i: nat, stop: nat, depth: int): (r: nat)
    requires i <= |t| && stop <= |t|
    ensures i <= r <= |t|
    decreases |t| - i
  {
    if i >= stop || (t[i] == ',' && depth == 0) then i else ExpressionEnd(t, i + 1, stop, depth + Turn(t[i]))
  }

  function BodyEnd(t: string, i: nat, stop: nat): (r: Option<nat>)
    requires i <= |t| && stop <= |t|
    ensures r.Some? ==> i <= r.value <= |t|
  {
    if i < stop && t[i] == '{' then BlockEndFrom(t, i, 0) else Some(ExpressionEnd(t, i, stop, 0))
  }

  function After(arm: Arm, rest: Option<seq<Arm>>): Option<seq<Arm>> {
    match rest
    case None => None
    case Some(arms) => Some([arm] + arms)
  }

  /** `_arms` from `i` on; None stands for a block that never closes. */
  function ArmsFrom(t: string, i: nat, stop: nat, patStart: nat, depth: int): Option<seq<Arm>>
    requires patStart <= i <= |t| && stop <= |t|
    decreases |t| - i
  {
    if i >= stop then Some([])
    else if Turn(t[i]) != 0 then ArmsFrom(t, i + 1, stop, patStart, depth + Turn(t[i]))
    else if depth == 0 && ArrowAt(t, i) then ArmAt(t, i, stop, patStart)
    else ArmsFrom(t, i + 1, stop, patStart, depth)
  }

  /** One arm whose arrow stands at `i`, and the arms behind it. */
  function ArmAt(t: string, i: nat, stop: nat, patStart: nat): Option<seq<Arm>>
    requires patStart <= i < stop <= |t| && ArrowAt(t, i)
    decreases |t| - i, 0
  {
    var bodyStart := SkipSpace(t, i + 2, stop);
    match BodyEnd(t, bodyStart, stop)
    case None => None
    case Some(end) =>
      var next := SkipSeparators(t, end, stop);
      After(Arm(Strip(t[patStart..i]), LineOf(t, patStart), t[bodyStart..end]), ArmsFrom(t, next, stop, next, 0))
  }

  function Joined(arms: seq<Arm>, rest: Option<seq<Arm>>): Option<seq<Arm>> {
    match rest
    case None => None
    case Some(more) => Some(arms + more)
  }

  lemma JoinedEnds(arms: seq<Arm>, rest: Option<seq<Arm>>)
    ensures Joined([], rest) == rest && Joined(arms, Some([])) == Some(arms)
  {
    assert arms + [] == arms;
    if rest.Some? { assert [] + rest.value == rest.value; }
  }

  lemma JoinedStep(arms: seq<Arm>, arm: Arm, rest: Option<seq<Arm>>)
    ensures Joined(arms, After(arm, rest)) == Joined(arms + [arm], rest)
  {
    if rest.Some? {
      assert arms + ([arm] + rest.value) == arms + [arm] + rest.value;
    }
  }

  method ReadBody(t: string, bodyStart: nat, stop: nat) returns (end: Option<nat>)
    requires bodyStart <= |t| && stop <= |t|
    ensures end == BodyEnd(t, bodyStart, stop)
  {
    if bodyStart < stop && t[bodyStart] == '{' {
      end := BlockEnd(t, bodyStart);
    } else {
      var i, d := bodyStart, 0;
      while i < stop
        invariant bodyStart <= i <= |t| && ExpressionEnd(t, bodyStart, stop, 0) == ExpressionEnd(t, i, stop, d)
      {
        if IsOpen(t[i]) {
          d := d + 1;
        } else if IsClose(t[i]) {
          d := d - 1;
        } else if t[i] == ',' && d == 0 {
          break;
        }
        i := i + 1;
      }
      end := Some(i);
    }
  }

  /** One round of the loop: what the arms from here are, read off the character. */
  lemma ArmsStep(t: string, i: nat, stop: nat, patStart: nat, depth: int)
    requires patStart <= i < stop <= |t|
    ensures IsOpen(t[i]) ==> ArmsFrom(t, i, stop, patStart, depth) == ArmsFrom(t, i + 1, stop, patStart, depth + 1)
    ensures !IsOpen(t[i]) && IsClose(t[i]) ==>
      ArmsFrom(t, i, stop, patStart, depth) == ArmsFrom(t, i + 1, stop, patStart, depth - 1)
    ensures !IsOpen(t[i]) && !IsClose(t[i]) ==>
      ArmsFrom(t, i, stop, patStart, depth)
        == if depth == 0 && ArrowAt(t, i) then ArmAt(t, i, stop, patStart)
           else ArmsFrom(t, i + 1, stop, patStart, depth)
  {
    hide ArmAt;
  }

  /** What an arm is when the ends of its parts are known. */
  lemma ArmOfParts(t: string, at: nat, stop: nat, patStart: nat, b: nat, e: nat, next: nat)
    requires patStart <= at < stop <= |t| && ArrowAt(t, at) && SkipSpace(t, at + 2, stop) == b
    requires BodyEnd(t, b, stop) == Some(e) && SkipSeparators(t, e, stop) == next
    ensures ArmAt(t, at, stop, patStart)
         == After(Arm(Strip(t[patStart..at]), LineOf(t, patStart), t[b..e]), ArmsFrom(t, next, stop, next, 0))
  {
    hide BodyEnd, Strip, LineOf, ArmsFrom, SkipSpace, SkipSeparators;
  }

  lemma NoArm(t: string, at: nat, stop: nat, patStart: nat)
    requires patStart <= at < stop <= |t| && ArrowAt(t, at) && BodyEnd(t, SkipSpace(t, at + 2, stop), stop) == None
    ensures ArmAt(t, at, stop, patStart) == None && forall found :: Joined(found, ArmAt(t, at, stop, patStart)) == None
  {
  }

  method PastSpace(t: string, start: nat, stop: nat) returns (i: nat)
    requires start <= |t| && stop <= |t|
    ensures i == SkipSpace(t, start, stop)
  {
    i := start;
    while i < stop && IsSpace(t[i])
      invariant start <= i <= |t| && SkipSpace(t, start, stop) == SkipSpace(t, i, stop)
    {
      i := i + 1;
    }
  }

  method PastSeparators(t: string, start: nat, stop: nat) returns (i: nat)
    requires start <= |t| && stop <= |t|
    ensures i == SkipSeparators(t, start, stop)
  {
    i := start;
    while i < stop && IsSeparator(t[i])
      invariant start <= i <= |t| && SkipSeparators(t, start, stop) == SkipSeparators(t, i, stop)
    {
      i := i + 1;
    }
  }

  method ReadArms(t: string, start: nat, stop: nat) returns (arms: Option<seq<Arm>>)
    requires start <= |t| && stop <= |t|
    ensures arms == ArmsFrom(t, start, stop, start, 0)
  {
    var found: seq<Arm> := [];
    var i: nat, patStart: nat, depth := start, start, 0;
    JoinedEnds([], ArmsFrom(t, start, stop, start, 0));
    while i < stop
      invariant patStart <= i <= |t|
      invariant ArmsFrom(t, start, stop, start, 0) == Joined(found, ArmsFrom(t, i, stop, patStart, depth))
      decreases |t| - i
    {
      hide ArmsFrom, ArmAt, Joined, BodyEnd, SkipSpace, SkipSeparators, Strip, LineOf, IsOpen, IsClose;
      ArmsStep(t, i, stop, patStart, depth);
      var c := t[i];
      if IsOpen(c) {
        depth := depth + 1;
        i := i + 1;
      } else if IsClose(c) {
        depth := depth - 1;
        i := i + 1;
      } else if depth == 0 && ArrowAt(t, i) {
        ghost var arrow := i;
        var pattern, line := Strip(t[patStart..i]), LineOf(t, patStart);
        i := i + 2;
        i := PastSpace(t, i, stop);
        var bodyStart := i;
        var end := ReadBody(t, bodyStart, stop);
        if end == None {
          NoArm(t, arrow, stop, patStart);
          return None;
        }
        i := end.value;
        var arm := Arm(pattern, line, t[bodyStart..i]);
        i := PastSeparators(t, i, stop);
        ArmOfParts(t, arrow, stop, patStart, bodyStart, end.value, i);
        JoinedStep(found, arm, ArmsFrom(t, i, stop, i, 0));
        found := found + [arm];
        patStart := i;
      } else {
        i := i + 1;
      }
    }
    JoinedEnds(found, None);
    return Some(found);
  }

  // ---- _arm_block ------------------------------------------------------------

  predicate Blank(s: string) {
    forall k :: 0 <= k < |s| ==> IsSpace(s[k])
  }

  /** `_top_level_arrow`: an arrow with no bracket open before it. */
  predicate TopLevelArrow(s: string) {
    exists k :: 0 <= k < |s| && ArrowAt(s, k) && Depth(s, k) == 0
  }

  method HasTopLevelArrow(s: string) returns (found: bool)
    ensures found == TopLevelArrow(s)
  {
    var depth := 0;
    for i := 0 to |s|
      invariant depth == Depth(s, i)
      invariant forall k :: 0 <= k < i ==> !(ArrowAt(s, k) && Depth(s, k) == 0)
    {
      if IsOpen(s[i]) {
        depth := depth + 1;
      } else if IsClose(s[i]) {
        depth := depth - 1;
      } else if depth == 0 && ArrowAt(s, i) {
        return true;
      }
    }
    return false;
  }

  function Round(c: char): int {
    if c == '(' || c == '[' then 1 else if c == ')' || c == ']' then -1 else 0
  }

  /** `_arm_block` from `i` on: the block that holds the arms, as its two ends. */
  function ArmBlockFrom(t: string, i: nat, depth: int): (r: Option<(nat, nat)>)
    requires i <= |t|
    ensures r.Some? ==> i <= r.value.0 < r.value.1 - 1 < |t|
    decreases |t| - i
  {
    if i == |t| then None
    else if t[i] == '{' then
      match BlockEndFrom(t, i, 0)
      case None => None
      case Some(end) =>
        var inner := t[i + 1..end - 1];
        if depth == 0 && (Blank(inner) || TopLevelArrow(inner)) then Some((i, end)) else ArmBlockFrom(t, end, depth)
    else if t[i] == ';' && depth == 0 then None
    else ArmBlockFrom(t, i + 1, depth + Round(t[i]))
  }

  method ArmBlock(t: string, start: nat) returns (r: Option<(nat, nat)>)
    requires start <= |t|
    ensures r == ArmBlockFrom(t, start, 0)
  {
    var i, depth := start, 0;
    while i < |t|
      invariant start <= i <= |t| && ArmBlockFrom(t, start, 0) == ArmBlockFrom(t, i, depth)
    {
      hide Closes, TopLevelArrow, BlockEndFrom;
      var c := t[i];
      if c == '(' || c == '[' {
        depth := depth + 1;
      } else if c == ')' || c == ']' {
        depth := depth - 1;
      } else if c == '{' {
        var end := BlockEnd(t, i);
        if end == None { return None; }
        EndIsBehind(t, i);
        var inner := t[i + 1..end.value - 1];
        var holds := HasTopLevelArrow(inner);
        if depth == 0 && (Blank(inner) || holds) { return Some((i, end.value)); }
        i := end.value;
        continue;
      } else if c == ';' && depth == 0 {
        break;
      }
      i := i + 1;
    }
    return None;
  }

  lemma EndIsBehind(t: string, i: nat)
    requires i < |t| && IsOpen(t[i])
    ensures BlockEndFrom(t, i, 0).Some? ==> i + 1 < BlockEndFrom(t, i, 0).value <= |t|
  {
  }
}
