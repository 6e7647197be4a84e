/** What `make ci` reaches, and what it reaches only where a failure is silenced
    (scripts/report/scripts_gate_recall.py). */
module MakeClosure {
  import opened Chars

  /** A word of a prerequisite list or a `$(MAKE)` line: a name, a whole variable, or another expansion. */
  datatype Word = Name(name: string) | Variable(name: string) | Expansion

  /** A recipe line: whether it silences a failure, if that can be told, and the words of its `$(MAKE)` calls. */
  datatype Line = Line(silenced: Option<bool>, calls: seq<seq<Word>>)

  /** `variables` holds None for a variable that is not defined once. */
  datatype Makefile = Makefile(
    ci: string,
    recipes: map<string, seq<Line>>,
    prerequisites: map<string, seq<Word>>,
    variables: map<string, Option<seq<string>>>)

  type Node = (string, bool)

  /** `expand_words`; None where it raises Unavailable. */
  function Expand(words: seq<Word>, m: Makefile): Option<seq<string>> {
    if words == [] then Some([])
    else
      var w := words[|words| - 1];
      match (Expand(words[..|words| - 1], m), WordsOf(w, m))
      case (Some(before), Some(own)) => Some(before + own)
      case _ => None
  }

  function WordsOf(w: Word, m: Makefile): Option<seq<string>> {
    match w
    case Name(name) => Some([name])
    case Variable(name) => if name in m.variables then m.variables[name] else None
    case Expansion => None
  }

  function LinesOf(m: Makefile, target: string): seq<Line> {
    if target in m.recipes then m.recipes[target] else []
  }

  function NeedsOf(m: Makefile, target: string): seq<Word> {
    if target in m.prerequisites then m.prerequisites[target] else []
  }

  predicate HasRule(m: Makefile, target: string) {
    target in m.recipes || target in m.prerequisites
  }

  // ---- arcs and paths --------------------------------------------------------

  predicate Calls(m: Makefile, line: Line, name: string) {
    exists c :: 0 <= c < |line.calls| && Expand(line.calls[c], m).Some? && name in Expand(line.calls[c], m).value
  }

  /** `target` leads to `name` by a prerequisite, or by a line whose failure is or is not silenced. */
  predicate Arc(m: Makefile, target: string, name: string, silenced: bool) {
    || (!silenced && Expand(NeedsOf(m, target), m).Some? && name in Expand(NeedsOf(m, target), m).value)
    || (exists k :: 0 <= k < |LinesOf(m, target)|
          && Calls(m, LinesOf(m, target)[k], name)
          && silenced == (LinesOf(m, target)[k].silenced != Some(false)))
  }

  /** A walk from `ci`: each target, and whether the way into it is silenced. */
  predicate IsWalk(m: Makefile, walk: seq<Node>) {
    && walk != [] && walk[0] == (m.ci, false) && HasRule(m, m.ci)
    && forall k :: 0 <= k < |walk| - 1 ==> Arc(m, walk[k].0, walk[k + 1].0, walk[k + 1].1)
  }

  predicate Crosses(walk: seq<Node>) {
    exists k :: 0 <= k < |walk| && walk[k].1
  }

  predicate Leads(m: Makefile, walk: seq<Node>, target: string, quiet: bool) {
    IsWalk(m, walk) && walk[|walk| - 1].0 == target && Crosses(walk) == quiet
  }

  /** Some walk ends at the target, crossing a silenced line or not. */
  ghost predicate Reached(m: Makefile, target: string, quiet: bool) {
    exists walk :: Leads(m, walk, target, quiet)
  }

  lemma WalkOn(m: Makefile, target: string, quiet: bool, name: string, silenced: bool)
    requires Reached(m, target, quiet) && Arc(m, target, name, silenced)
    ensures Reached(m, name, quiet || silenced)
  {
    var walk: seq<Node> :| Leads(m, walk, target, quiet);
    var on := walk + [(name, silenced)];
    hide Arc;
    assert IsWalk(m, on);
    assert Crosses(on) == (quiet || silenced) by {
      if quiet {
        var k :| 0 <= k < |walk| && walk[k].1;
        assert on[k].1;
      }
      if silenced { assert on[|walk|].1; }
    }
    assert Leads(m, on, name, quiet || silenced);
  }

  // ---- one target ------------------------------------------------------------

  function Marked(names: seq<string>, quiet: bool): (r: seq<Node>)
    ensures |r| == |names| && forall k :: 0 <= k < |r| ==> r[k] == (names[k], quiet)
  {
    seq(|names|, k requires 0 <= k < |names| => (names[k], quiet))
  }

  function CallNodes(m: Makefile, calls: seq<seq<Word>>, quiet: bool): Option<seq<Node>> {
    if calls == [] then Some([])
    else
      match (CallNodes(m, calls[..|calls| - 1], quiet), Expand(calls[|calls| - 1], m))
      case (Some(before), Some(names)) => Some(before + Marked(names, quiet))
      case _ => None
  }

  /** The nodes the first `n` lines of a target lead to. Whether a line is silenced is asked only of a
      target that was reached loud. */
  function LineNodes(m: Makefile, lines: seq<Line>, quiet: bool): Option<seq<Node>> {
    if lines == [] then Some([])
    else
      var line := lines[|lines| - 1];
      match LineNodes(m, lines[..|lines| - 1], quiet)
      case None => None
      case Some(before) =>
        if !quiet && line.silenced == None then None
        else
          match CallNodes(m, line.calls, quiet || line.silenced == Some(true))
          case None => None
          case Some(called) => Some(before + called)
  }

  /** What one round of the closure pushes; None where it cannot go on. */
  function Next(m: Makefile, target: string, quiet: bool): Option<seq<Node>> {
    match Expand(NeedsOf(m, target), m)
    case None => None
    case Some(needs) =>
      match LineNodes(m, LinesOf(m, target), quiet)
      case None => None
      case Some(called) => Some(Marked(needs, quiet) + called)
  }

  lemma {:induction false} CallNodesAre(m: Makefile, calls: seq<seq<Word>>, quiet: bool, node: Node)
    requires CallNodes(m, calls, quiet).Some?
    ensures node in CallNodes(m, calls, quiet).value <==>
      && node.1 == quiet
      && exists c :: 0 <= c < |calls| && Expand(calls[c], m).Some? && node.0 in Expand(calls[c], m).value
    decreases |calls|
  {
    hide Expand;
    if calls != [] {
      var init, last := calls[..|calls| - 1], calls[|calls| - 1];
      CallNodesAre(m, init, quiet, node);
      var own := Expand(last, m).value;
      assert node in Marked(own, quiet) <==> node.1 == quiet && node.0 in own by {
        if node.1 == quiet && node.0 in own {
          var k :| 0 <= k < |own| && own[k] == node.0;
          assert Marked(own, quiet)[k] == node;
        }
      }
      if exists c :: 0 <= c < |init| && Expand(init[c], m).Some? && node.0 in Expand(init[c], m).value {
        var c :| 0 <= c < |init| && Expand(init[c], m).Some? && node.0 in Expand(init[c], m).value;
        assert calls[c] == init[c];
      }
      assert forall c :: 0 <= c < |init| ==> calls[c] == init[c];
    }
  }

  /** The arcs of one line, as the closure follows them from a target reached loud or quiet. */
  predicate LineArc(m: Makefile, line: Line, quiet: bool, node: Node) {
    Calls(m, line, node.0) && node.1 == (quiet || line.silenced == Some(true))
  }

  lemma ArcsSplit(m: Makefile, lines: seq<Line>, quiet: bool, node: Node)
    requires lines != []
    ensures var init, line := lines[..|lines| - 1], lines[|lines| - 1];
      (exists k :: 0 <= k < |lines| && LineArc(m, lines[k], quiet, node))
      <==> (exists k :: 0 <= k < |init| && LineArc(m, init[k], quiet, node)) || LineArc(m, line, quiet, node)
  {
    hide LineArc;
    var init := lines[..|lines| - 1];
    if k :| 0 <= k < |init| && LineArc(m, init[k], quiet, node) {
      assert lines[k] == init[k];
    }
    assert forall k :: 0 <= k < |init| ==> lines[k] == init[k];
  }

  lemma {:induction false} LineNodesAre(m: Makefile, lines: seq<Line>, quiet: bool, node: Node)
    requires LineNodes(m, lines, quiet).Some?
    ensures node in LineNodes(m, lines, quiet).value <==>
      exists k :: 0 <= k < |lines| && LineArc(m, lines[k], quiet, node)
    ensures quiet || forall k :: 0 <= k < |lines| ==> lines[k].silenced.Some?
    decreases |lines|
  {
    if lines != [] {
      var init, line := lines[..|lines| - 1], lines[|lines| - 1];
      LineNodesAre(m, init, quiet, node);
      CallNodesAre(m, line.calls, quiet || line.silenced == Some(true), node);
      assert node in CallNodes(m, line.calls, quiet || line.silenced == Some(true)).value
        <==> LineArc(m, line, quiet, node);
      hide LineArc, CallNodes, Calls;
      ArcsSplit(m, lines, quiet, node);
      assert forall k :: 0 <= k < |init| ==> lines[k] == init[k];
    }
  }

  /** The nodes of one round are exactly the arcs out of its target. */
  lemma NextIsArcs(m: Makefile, target: string, quiet: bool, node: Node)
    requires Next(m, target, quiet).Some?
    ensures node in Next(m, target, quiet).value <==>
      exists silenced :: Arc(m, target, node.0, silenced) && node.1 == (quiet || silenced)
  {
    hide Expand, LineNodes, Calls;
    var needs := Expand(NeedsOf(m, target), m).value;
    var lines := LinesOf(m, target);
    LineNodesAre(m, lines, quiet, node);
    assert node in Marked(needs, quiet) <==> node.1 == quiet && node.0 in needs by {
      if node.1 == quiet && node.0 in needs {
        var k :| 0 <= k < |needs| && needs[k] == node.0;
        assert Marked(needs, quiet)[k] == node;
      }
    }
    if node in Marked(needs, quiet) { assert Arc(m, target, node.0, false); }
    if k :| 0 <= k < |lines| && LineArc(m, lines[k], quiet, node) {
      SameSilence(lines[k].silenced, quiet);
      assert Arc(m, target, node.0, lines[k].silenced != Some(false));
    }
    if silenced :| Arc(m, target, node.0, silenced) && node.1 == (quiet || silenced) {
      if !(!silenced && node.0 in needs) {
        var k :| 0 <= k < |lines| && Calls(m, lines[k], node.0) && silenced == (lines[k].silenced != Some(false));
        SameSilence(lines[k].silenced, quiet);
        assert LineArc(m, lines[k], quiet, node);
      }
    }
  }

  /** A line that cannot be told counts as silenced, which only matters on a walk that is quiet already. */
  lemma SameSilence(silenced: Option<bool>, quiet: bool)
    requires quiet || silenced.Some?
    ensures (quiet || silenced == Some(true)) == (quiet || silenced != Some(false))
  {
    match silenced {
      case None =>
      case Some(told) => if told { assert silenced == Some(true); } else { assert silenced == Some(false); }
    }
  }

  // ---- the closure -----------------------------------------------------------

  ghost predicate NodeReached(m: Makefile, node: Node) {
    Reached(m, node.0, node.1)
  }

  /** Every name some rule mentions, and `ci`. */
  function WordNames(m: Makefile, words: seq<Word>): set<string> {
    match Expand(words, m)
    case None => {}
    case Some(names) => set n | n in names
  }

  function LineNames(m: Makefile, lines: seq<Line>): set<string> {
    set k, c, n | 0 <= k < |lines| && 0 <= c < |lines[k].calls| && n in WordNames(m, lines[k].calls[c]) :: n
  }

  ghost function Names(m: Makefile): set<string> {
    {m.ci}
    + (set t, n | t in m.prerequisites && n in WordNames(m, m.prerequisites[t]) :: n)
    + (set t, n | t in m.recipes && n in LineNames(m, m.recipes[t]) :: n)
  }

  ghost function Universe(m: Makefile): set<Node> {
    (set n | n in Names(m) :: (n, false)) + (set n | n in Names(m) :: (n, true))
  }

  lemma ArcsStayInside(m: Makefile, target: string, name: string, silenced: bool)
    requires Arc(m, target, name, silenced)
    ensures name in Names(m)
  {
    hide Expand;
    if !silenced && Expand(NeedsOf(m, target), m).Some? && name in Expand(NeedsOf(m, target), m).value {
      assert Expand([], m) == Some([]) by { NothingToExpand(m); }
      assert name in WordNames(m, m.prerequisites[target]);
    } else {
      var lines := LinesOf(m, target);
      var k :| 0 <= k < |lines| && Calls(m, lines[k], name);
      var c :| 0 <= c < |lines[k].calls| && Expand(lines[k].calls[c], m).Some?
        && name in Expand(lines[k].calls[c], m).value;
      assert name in WordNames(m, lines[k].calls[c]);
      assert name in LineNames(m, m.recipes[target]);
    }
  }

  lemma NothingToExpand(m: Makefile)
    ensures Expand([], m) == Some([])
  {
  }

  method ExpandWords(words: seq<Word>, m: Makefile) returns (out: Option<seq<string>>)
    ensures out == Expand(words, m)
  {
    var names: seq<string> := [];
    for i := 0 to |words|
      invariant Expand(words[..i], m) == Some(names)
    {
      assert words[..i + 1][..i] == words[..i];
      var own := WordsOf(words[i], m);
      if own == None {
        ExpandFails(words, i, m);
        return None;
      }
      names := names + own.value;
    }
    assert words[..|words|] == words;
    return Some(names);
  }

  lemma {:induction false} ExpandFails(words: seq<Word>, i: nat, m: Makefile)
    requires i < |words| && WordsOf(words[i], m) == None
    ensures Expand(words, m) == None
    decreases |words|
  {
    if i < |words| - 1 { ExpandFails(words[..|words| - 1], i, m); }
  }

  lemma {:induction false} CallFails(m: Makefile, calls: seq<seq<Word>>, c: nat, quiet: bool)
    requires c < |calls| && Expand(calls[c], m) == None
    ensures CallNodes(m, calls, quiet) == None
    decreases |calls|
  {
    hide Expand;
    if c < |calls| - 1 { CallFails(m, calls[..|calls| - 1], c, quiet); }
  }

  lemma {:induction false} LineFails(m: Makefile, lines: seq<Line>, k: nat, quiet: bool)
    requires k < |lines|
    requires (!quiet && lines[k].silenced == None)
      || CallNodes(m, lines[k].calls, quiet || lines[k].silenced == Some(true)) == None
    ensures LineNodes(m, lines, quiet) == None
    decreases |lines|
  {
    hide CallNodes;
    if k < |lines| - 1 { LineFails(m, lines[..|lines| - 1], k, quiet); }
  }

  /** The body of the closure loop for one target: what it pushes. */
  method Round(m: Makefile, target: string, quiet: bool) returns (pushed: Option<seq<Node>>)
    ensures pushed == Next(m, target, quiet)
  {
    hide Expand;
    var needs := ExpandWords(NeedsOf(m, target), m);
    if needs == None { return None; }
    var nodes: seq<Node> := [];
    var lines := LinesOf(m, target);
    for k := 0 to |lines|
      invariant LineNodes(m, lines[..k], quiet) == Some(nodes)
    {
      hide Marked;
      assert lines[..k + 1][..k] == lines[..k];
      var line := lines[k];
      if !quiet && line.silenced == None {
        LineFails(m, lines, k, quiet);
        return None;
      }
      var lineQuiet := quiet || line.silenced == Some(true);
      var called: seq<Node> := [];
      for c := 0 to |line.calls|
        invariant CallNodes(m, line.calls[..c], lineQuiet) == Some(called)
      {
        assert line.calls[..c + 1][..c] == line.calls[..c];
        var names := ExpandWords(line.calls[c], m);
        if names == None {
          CallFails(m, line.calls, c, lineQuiet);
          LineFails(m, lines, k, quiet);
          return None;
        }
        called := called + Marked(names.value, lineQuiet);
      }
      assert line.calls[..|line.calls|] == line.calls;
      nodes := nodes + called;
    }
    assert lines[..|lines|] == lines;
    return Some(Marked(needs.value, quiet) + nodes);
  }

  /** The targets reached loud, and those only reached quiet. */
  datatype Closure = Closure(recipes: map<string, seq<Line>>, quiet: set<string>)

  ghost predicate Explored(m: Makefile, seen: set<Node>, pending: seq<Node>) {
    forall n :: n in seen ==>
      && Next(m, n.0, n.1).Some?
      && forall v :: v in Next(m, n.0, n.1).value ==> v in seen || v in pending
  }

  /** What the loop keeps: nodes are reached, and what a seen node leads to is seen or pending. */
  ghost predicate Inv(m: Makefile, seen: set<Node>, pending: seq<Node>) {
    && (forall n :: n in seen || n in pending ==> NodeReached(m, n) && n in Universe(m))
    && (HasRule(m, m.ci) ==> (m.ci, false) in seen || (m.ci, false) in pending)
    && Explored(m, seen, pending)
  }

  predicate Listed(m: Makefile, seen: set<Node>, out: map<string, seq<Line>>) {
    && (forall t :: t in out ==> out[t] == LinesOf(m, t) && ((t, false) in seen || (t, true) in seen))
    && (forall n :: n in seen ==> n.0 in out)
  }

  lemma InvStart(m: Makefile)
    ensures Inv(m, {}, if HasRule(m, m.ci) then [(m.ci, false)] else [])
  {
    hide Next, IsWalk, Names;
    if HasRule(m, m.ci) { StartIsReached(m); }
  }

  lemma InvPop(m: Makefile, seen: set<Node>, pending: seq<Node>, node: Node)
    requires Inv(m, seen, pending + [node])
    ensures NodeReached(m, node) && node in Universe(m)
    ensures node in seen ==> Inv(m, seen, pending)
  {
    hide Next, Reached, Universe;
    assert node in pending + [node];
    assert forall v :: v in pending + [node] <==> v in pending || v == node;
    assert forall v :: v in pending ==> v in pending + [node];
  }

  lemma InvPush(m: Makefile, seen: set<Node>, pending: seq<Node>, node: Node)
    requires Inv(m, seen, pending + [node]) && Next(m, node.0, node.1).Some?
    ensures Inv(m, seen + {node}, pending + Next(m, node.0, node.1).value)
  {
    hide Next, Reached, Universe;
    assert node in pending + [node];
    assert forall v :: v in pending + [node] <==> v in pending || v == node;
    PushedIsReached(m, node);
    var pushed := Next(m, node.0, node.1).value;
    assert forall v :: v in pending + pushed <==> v in pending || v in pushed;
  }

  lemma ListedStep(m: Makefile, seen: set<Node>, out: map<string, seq<Line>>, node: Node)
    requires Listed(m, seen, out)
    ensures Listed(m, seen + {node}, out[node.0 := LinesOf(m, node.0)])
  {
    if node.1 { assert node == (node.0, true); } else { assert node == (node.0, false); }
  }

  /** `make_closure`. It refuses exactly when it reaches a target it cannot follow; otherwise it returns the
      reached targets with their recipes, and as quiet those that every walk reaches across a silenced line. */
  method MakeClosureRun(m: Makefile) returns (r: Option<Closure>)
    ensures r == None <==> exists t, q :: Reached(m, t, q) && Next(m, t, q) == None
    ensures r.Some? ==> forall t ::
      && (t in r.value.recipes <==> Reached(m, t, false) || Reached(m, t, true))
      && (t in r.value.recipes ==> r.value.recipes[t] == LinesOf(m, t))
      && (t in r.value.quiet <==> Reached(m, t, true) && !Reached(m, t, false))
  {
    hide Next, Reached, Universe, Inv, Listed, HasRule, LinesOf;
    var seen: set<Node>, out: map<string, seq<Line>> := {}, map[];
    var pending: seq<Node> := if HasRule(m, m.ci) then [(m.ci, false)] else [];
    InvStart(m);
    assert Listed(m, seen, out) by { NothingListed(m); }
    while pending != []
      invariant Inv(m, seen, pending) && Listed(m, seen, out)
      decreases |Universe(m) - seen|, |pending|
    {
      var node := pending[|pending| - 1];
      assert pending == pending[..|pending| - 1] + [node];
      pending := pending[..|pending| - 1];
      InvPop(m, seen, pending, node);
      if node in seen { continue; }
      var pushed := Round(m, node.0, node.1);
      if pushed == None {
        assert Reached(m, node.0, node.1);
        return None;
      }
      InvPush(m, seen, pending, node);
      ListedStep(m, seen, out, node);
      Smaller(Universe(m) - (seen + {node}), Universe(m) - seen, node);
      seen := seen + {node};
      out := out[node.0 := LinesOf(m, node.0)];
      pending := pending + pushed.value;
    }
    SeenIsReached(m, seen);
    var loud := set n | n in seen && !n.1 :: n.0;
    var quiet := (set n | n in seen && n.1 :: n.0) - loud;
    Split(seen, loud, quiet);
    ListedAre(m, seen, out);
    return Some(Closure(out, quiet));
  }

  lemma NothingListed(m: Makefile)
    ensures Listed(m, {}, map[])
  {
  }

  lemma ListedAre(m: Makefile, seen: set<Node>, out: map<string, seq<Line>>)
    requires Listed(m, seen, out)
    ensures forall t :: t in out <==> (t, false) in seen || (t, true) in seen
    ensures forall t :: t in out ==> out[t] == LinesOf(m, t)
  {
    forall t
      ensures t in out <==> (t, false) in seen || (t, true) in seen
    {
      assert (t, false).0 == t && (t, true).0 == t;
    }
  }

  lemma Split(seen: set<Node>, loud: set<string>, quiet: set<string>)
    requires loud == (set n | n in seen && !n.1 :: n.0) && quiet == (set n | n in seen && n.1 :: n.0) - loud
    ensures forall t :: t in quiet <==> (t, true) in seen && (t, false) !in seen
  {
    forall t
      ensures t in quiet <==> (t, true) in seen && (t, false) !in seen
    {
      assert (t, true) in seen ==> t in (set n | n in seen && n.1 :: n.0);
      assert (t, false) in seen ==> t in loud;
    }
  }

  /** When nothing is pending, the seen nodes are the reached ones. */
  lemma SeenIsReached(m: Makefile, seen: set<Node>)
    requires Inv(m, seen, [])
    ensures forall t, q :: (t, q) in seen <==> Reached(m, t, q)
    ensures forall t, q :: Reached(m, t, q) ==> Next(m, t, q).Some?
  {
    hide Next, Reached, Universe;
    AllSeen(m, seen);
    forall t, q
      ensures (t, q) in seen <==> Reached(m, t, q)
      ensures Reached(m, t, q) ==> Next(m, t, q).Some?
    {
      assert (t, q) in seen ==> NodeReached(m, (t, q));
    }
  }

  lemma Smaller<T>(a: set<T>, b: set<T>, x: T)
    requires a == b - {x} && x in b
    ensures |a| < |b|
  {
  }

  lemma StartIsReached(m: Makefile)
    requires HasRule(m, m.ci)
    ensures Reached(m, m.ci, false) && (m.ci, false) in Universe(m)
  {
    assert Leads(m, [(m.ci, false)], m.ci, false);
  }

  lemma PushedIsReached(m: Makefile, node: Node)
    requires NodeReached(m, node) && Next(m, node.0, node.1).Some?
    ensures forall v :: v in Next(m, node.0, node.1).value ==> NodeReached(m, v) && v in Universe(m)
  {
    hide Next, Arc, Reached, Names;
    forall v | v in Next(m, node.0, node.1).value
      ensures NodeReached(m, v) && v in Universe(m)
    {
      NextIsArcs(m, node.0, node.1, v);
      var silenced :| Arc(m, node.0, v.0, silenced) && v.1 == (node.1 || silenced);
      WalkOn(m, node.0, node.1, v.0, silenced);
      ArcsStayInside(m, node.0, v.0, silenced);
    }
  }

  /** A set closed under the rounds holds the end of every walk. */
  lemma {:induction false} WalkIsSeen(m: Makefile, seen: set<Node>, walk: seq<Node>)
    requires Explored(m, seen, []) && (HasRule(m, m.ci) ==> (m.ci, false) in seen) && IsWalk(m, walk)
    ensures (walk[|walk| - 1].0, Crosses(walk)) in seen
    decreases |walk|
  {
    hide Next, Arc;
    if |walk| == 1 {
      assert !Crosses(walk);
    } else {
      var init, last := walk[..|walk| - 1], walk[|walk| - 1];
      WalkIsSeen(m, seen, init);
      var from := (init[|init| - 1].0, Crosses(init));
      assert Arc(m, walk[|walk| - 2].0, last.0, last.1);
      assert Crosses(walk) == (Crosses(init) || last.1) by {
        if k :| 0 <= k < |walk| && walk[k].1 {
          assert k < |init| ==> init[k].1;
        }
        if k :| 0 <= k < |init| && init[k].1 { assert walk[k].1; }
        if last.1 { assert walk[|walk| - 1].1; }
      }
      NextIsArcs(m, from.0, from.1, (last.0, Crosses(walk)));
    }
  }

  lemma AllSeen(m: Makefile, seen: set<Node>)
    requires Explored(m, seen, []) && (HasRule(m, m.ci) ==> (m.ci, false) in seen)
    ensures forall t, q :: Reached(m, t, q) ==> (t, q) in seen
  {
    forall t, q | Reached(m, t, q)
      ensures (t, q) in seen
    {
      var walk: seq<Node> :| Leads(m, walk, t, q);
      WalkIsSeen(m, seen, walk);
    }
  }
}
