/** The comparison of a tree's references with those of its base (scripts/check/doc_refs.py). */
module DocRefs {
  import opened Chars
  import opened DocResolve

  const CHANGELOG := "CHANGELOG.md"

  /** What `resolve` returns for a quote found in the prose; a heading may have this title too. */
  const BODY_TEXT := "body text"

  datatype Ref = Ref(citing: string, target: Target)

  /** A tree and the references collected in it. */
  datatype Snapshot = Snapshot(tree: Tree, refs: seq<Ref>)

  datatype Problem = Broken | Repointed | Ambiguous(headings: nat)

  /** One comparison: the base, the head, and the doc names of either. */
  datatype Check = Check(base: Snapshot, head: Snapshot)

  function Lookup(files: map<string, string>, name: string): Option<string> {
    if name in files then Some(files[name]) else None
  }

  /** The docs whose text is not the base's. */
  function Edited(c: Check): set<string> {
    set d | d in c.head.tree.docs.Keys + c.base.tree.docs.Keys
         && Lookup(c.head.tree.files, d) != Lookup(c.base.tree.files, d)
  }

  predicate IsBroken(r: Ref, t: Tree) {
    Resolve(r.target, t) == None
  }

  /** Released history never fails. */
  predicate InHistory(r: Ref) {
    r.citing == CHANGELOG
  }

  /** Broken, and not in the changelog. */
  predicate IsLive(r: Ref, t: Tree) {
    !InHistory(r) && IsBroken(r, t)
  }

  /** `base_broken`. */
  function BrokenTargets(refs: seq<Ref>, t: Tree): multiset<Target> {
    if refs == [] then multiset{}
    else
      var r := refs[|refs| - 1];
      BrokenTargets(refs[..|refs| - 1], t) + if IsBroken(r, t) then multiset{r.target} else multiset{}
  }

  /** The result reads as the one of a quote found in the prose: it is one, or a section's title spells it. */
  predicate ReadsAsProse(kind: Kind, got: Option<Landed>) {
    got == Some(OnText) || (kind == Section && got == Some(OnHeading(BODY_TEXT)))
  }

  predicate NamesHeading(kind: Kind) {
    kind == Section || kind == Quote
  }

  /** What is wrong with a reference of the head, if anything. */
  function ProblemOf(c: Check, r: Ref): Option<Problem> {
    var got, before := Resolve(r.target, c.head.tree), Resolve(r.target, c.base.tree);
    if got == None then Some(Broken)
    else if before.Some? && before != got then Some(Repointed)
    else if NamesHeading(r.target.kind) && !ReadsAsProse(r.target.kind, got) && r.target.doc in c.head.tree.docs then
      var n := Carriers(c.head.tree.docs[r.target.doc], r.target);
      if n < 2 then None else Some(Ambiguous(n))
    else None
  }

  /** Broken references outside the changelog, by target: `seen` after all of them. */
  function Live(refs: seq<Ref>, t: Tree): multiset<Target> {
    if refs == [] then multiset{}
    else
      var r := refs[|refs| - 1];
      Live(refs[..|refs| - 1], t) + if IsLive(r, t) then multiset{r.target} else multiset{}
  }

  predicate TouchesEdited(c: Check, r: Ref) {
    r.target.doc in Edited(c) || r.citing in Edited(c)
  }

  /** Where a reference is listed. */
  datatype Bin = Fine | Failure | Carried | History

  /** The list of a reference, when `seen` broken ones of its target came before it. */
  function BinOf(c: Check, r: Ref, seen: nat): Bin {
    match ProblemOf(c, r)
    case None => Fine
    case Some(p) =>
      if InHistory(r) then History
      else if p != Broken || seen >= BrokenTargets(c.base.refs, c.base.tree)[r.target] || TouchesEdited(c, r) then
        Failure
      else Carried
  }

  predicate Fails(c: Check, r: Ref, seen: nat) {
    BinOf(c, r, seen) == Failure
  }

  /** One list of the first references, in their order. */
  function Listed(c: Check, refs: seq<Ref>, bin: Bin): seq<Ref> {
    if refs == [] then []
    else
      var init, r := refs[..|refs| - 1], refs[|refs| - 1];
      Listed(c, init, bin) + if BinOf(c, r, Live(init, c.head.tree)[r.target]) == bin then [r] else []
  }

  function Failures(c: Check, refs: seq<Ref>): seq<Ref> {
    Listed(c, refs, Failure)
  }

  /** Fixtures that gained their marker since the base. */
  predicate HidesReferences(c: Check) {
    exists n :: n in c.head.tree.fixtures && n in c.base.tree.files && n !in c.base.tree.fixtures
  }

  /** `main --base` exits with 0. */
  predicate Passes(c: Check) {
    c.head.tree.docs != map[] && !HidesReferences(c) && Failures(c, c.head.refs) == []
  }

  // ---- the loops -------------------------------------------------------------

  method BaseBroken(refs: seq<Ref>, t: Tree) returns (broken: multiset<Target>)
    ensures broken == BrokenTargets(refs, t)
  {
    broken := multiset{};
    for i := 0 to |refs|
      invariant broken == BrokenTargets(refs[..i], t)
    {
      hide IsBroken;
      assert refs[..i + 1][..i] == refs[..i];
      if IsBroken(refs[i], t) { broken := broken[refs[i].target := broken[refs[i].target] + 1]; }
    }
    assert refs[..|refs|] == refs;
  }

  /** One round of the loop: the list of the reference, and whether it counts as broken. */
  method Judge(c: Check, edited: set<string>, baseBroken: multiset<Target>, r: Ref, seen: nat)
    returns (bin: Bin, counts: bool)
    requires edited == Edited(c) && baseBroken == BrokenTargets(c.base.refs, c.base.tree)
    ensures bin == BinOf(c, r, seen) && counts == IsLive(r, c.head.tree)
  {
    hide Edited, ProblemOf, IsBroken, BrokenTargets, InHistory;
    BrokenIsProblem(c, r);
    counts := false;
    var problem := ProblemOf(c, r);
    if problem == None { return Fine, false; }
    if InHistory(r) { return History, false; }
    if problem == Some(Broken) {
      counts := true;
      if seen + 1 <= baseBroken[r.target] {
        bin := if r.target.doc in edited || r.citing in edited then Failure else Carried;
        return;
      }
    }
    bin := Failure;
  }

  /** The loop over the references of the head. */
  method Compare(c: Check) returns (failures: seq<Ref>, carried: seq<Ref>, history: seq<Ref>)
    ensures failures == Failures(c, c.head.refs)
    ensures carried == Listed(c, c.head.refs, Carried)
    ensures history == Listed(c, c.head.refs, History)
  {
    hide Edited, BinOf, IsLive, BrokenTargets, Live, Listed;
    var baseBroken := BaseBroken(c.base.refs, c.base.tree);
    var edited := Edited(c);
    failures, carried, history := [], [], [];
    var seen: multiset<Target> := multiset{};
    var refs := c.head.refs;
    NothingListed(c);
    for i := 0 to |refs|
      invariant failures == Listed(c, refs[..i], Failure)
      invariant carried == Listed(c, refs[..i], Carried)
      invariant history == Listed(c, refs[..i], History)
      invariant seen == Live(refs[..i], c.head.tree)
    {
      var r := refs[i];
      assert refs[..i + 1][..i] == refs[..i];
      StepOfListed(c, refs[..i + 1], Failure);
      StepOfListed(c, refs[..i + 1], Carried);
      StepOfListed(c, refs[..i + 1], History);
      var bin, counts := Judge(c, edited, baseBroken, r, seen[r.target]);
      if counts { seen := seen + multiset{r.target}; }
      match bin {
        case Fine =>
        case Failure => failures := failures + [r];
        case Carried => carried := carried + [r];
        case History => history := history + [r];
      }
    }
    assert refs[..|refs|] == refs;
  }

  lemma NothingListed(c: Check)
    ensures forall bin :: Listed(c, [], bin) == []
    ensures Live([], c.head.tree) == multiset{}
  {
  }

  // ---- when a comparison passes ----------------------------------------------

  /** A reference that no count can excuse. */
  predicate Inexcusable(c: Check, r: Ref) {
    && !InHistory(r) && ProblemOf(c, r).Some?
    && (ProblemOf(c, r) != Some(Broken) || TouchesEdited(c, r))
  }

  lemma BrokenIsProblem(c: Check, r: Ref)
    ensures IsBroken(r, c.head.tree) <==> ProblemOf(c, r) == Some(Broken)
  {
    hide Resolve, Carriers;
  }

  /** How many headings `resolve` chose from. */
  function Answers(d: Doc, t: Target): nat {
    if t.kind == Section && StartsWithDigit(t.key) then |Numbered(d.headings, t.key)|
    else |Candidates(d, t.key, t.kind == Section && t.runsOn)|
  }

  predicate IsAmbiguous(problem: Option<Problem>) {
    problem.Some? && problem.value.Ambiguous?
  }

  /** A reference that names a heading, still the one it named at the base. */
  predicate KeepsHeading(c: Check, r: Ref) {
    var got, before := Resolve(r.target, c.head.tree), Resolve(r.target, c.base.tree);
    && NamesHeading(r.target.kind) && (r.target.kind == Quote ==> !r.target.runsOn)
    && got.Some? && got.value.OnHeading? && (before.None? || before == got)
  }

  /** Where several headings answer, the reference is reported, except: a section titled like the mark of the
      prose never is, and a quote that starts with a digit is counted by section number instead. */
  lemma AmbiguousIsReported(c: Check, r: Ref)
    requires KeepsHeading(c, r)
    ensures var d, got := c.head.tree.docs[r.target.doc], Resolve(r.target, c.head.tree).value.title;
      IsAmbiguous(ProblemOf(c, r)) <==>
        if r.target.kind == Section then Answers(d, r.target) >= 2 && got != BODY_TEXT
        else if StartsWithDigit(r.target.key) then |Numbered(d.headings, r.target.key)| >= 2
        else Answers(d, r.target) >= 2
  {
    hide Candidates, Numbered, Contains;
  }

  /** Two headings titled `body text`, and a section reference to that phrase: it passes unreported. */
  lemma BodyTextSectionPasses(phrase: string, runsOn: bool, doc: string, citing: string, files: map<string, string>)
    requires Lower(phrase) == Lower(BODY_TEXT) && !StartsWithDigit(phrase)
    ensures var h := Heading(BODY_TEXT, "", Lower(BODY_TEXT), {});
      var r := Ref(citing, Target(Section, doc, phrase, runsOn));
      var s := Snapshot(Tree(files, {}, map[doc := Doc([], [h, h], [h, h], {}, "")], {}, {}), [r]);
      KeepsHeading(Check(s, s), r) && Answers(s.tree.docs[doc], r.target) == 2 && ProblemOf(Check(s, s), r) == None
  {
    hide Lower, Short, Inside, Before;
    var h := Heading(BODY_TEXT, "", Lower(BODY_TEXT), {});
    var want := Lower(phrase);
    assert [h, h][1..] == [h] && [h][1..] == [];
    assert Exact([h], want) == [BODY_TEXT];
    assert Exact([h, h], want) == [BODY_TEXT] + [BODY_TEXT];
  }

  lemma FailsIff(c: Check, r: Ref, seen: nat)
    ensures Fails(c, r, seen) <==>
      Inexcusable(c, r) || (IsLive(r, c.head.tree) && seen + 1 > BrokenTargets(c.base.refs, c.base.tree)[r.target])
  {
    BrokenIsProblem(c, r);
    hide ProblemOf, TouchesEdited, BrokenTargets, IsBroken, InHistory;
  }

  lemma {:induction false} NoFailures(c: Check, refs: seq<Ref>)
    ensures Failures(c, refs) == [] <==>
      && (forall r :: r in refs ==> !Inexcusable(c, r))
      && Live(refs, c.head.tree) <= BrokenTargets(c.base.refs, c.base.tree)
    decreases |refs|
  {
    hide BinOf, Inexcusable, BrokenTargets, IsLive;
    if refs != [] {
      var init, r := refs[..|refs| - 1], refs[|refs| - 1];
      assert refs == init + [r];
      NoFailures(c, init);
      FailsIff(c, r, Live(init, c.head.tree)[r.target]);
      OneMoreFits(Live(init, c.head.tree), BrokenTargets(c.base.refs, c.base.tree), r.target);
      hide Live, Listed;
      StepOfListed(c, refs, Failure);
    }
  }

  lemma StepOfListed(c: Check, refs: seq<Ref>, bin: Bin)
    requires refs != []
    ensures var init, r := refs[..|refs| - 1], refs[|refs| - 1];
      var own := BinOf(c, r, Live(init, c.head.tree)[r.target]);
      && Listed(c, refs, bin) == Listed(c, init, bin) + (if own == bin then [r] else [])
      && Live(refs, c.head.tree)
          == Live(init, c.head.tree) + (if IsLive(r, c.head.tree) then multiset{r.target} else multiset{})
  {
    hide BinOf, IsLive;
  }

  lemma OneMoreFits(live: multiset<Target>, base: multiset<Target>, t: Target)
    ensures live + multiset{t} <= base <==> live <= base && live[t] + 1 <= base[t]
  {
    if live + multiset{t} <= base {
      assert (live + multiset{t})[t] <= base[t];
      assert forall x :: live[x] <= (live + multiset{t})[x] <= base[x];
    }
  }

  /** A comparison passes exactly when nothing outside the changelog was re-pointed, is ambiguous or is broken
      where a doc was edited, and no target has more broken references than the base had. */
  lemma PassesIff(c: Check)
    ensures Passes(c) <==>
      && c.head.tree.docs != map[] && !HidesReferences(c)
      && (forall r :: r in c.head.refs ==> !Inexcusable(c, r))
      && (forall t :: Live(c.head.refs, c.head.tree)[t] <= BrokenTargets(c.base.refs, c.base.tree)[t])
  {
    hide Inexcusable, HidesReferences, Live, BrokenTargets, Failures;
    NoFailures(c, c.head.refs);
  }

  lemma {:induction false} LiveCount(refs: seq<Ref>, t: Tree, target: Target)
    ensures Live(refs, t)[target] == LiveOf(multiset(refs), t, target)
    decreases |refs|
  {
    hide IsBroken;
    if refs == [] {
      NoneLive(t, target);
    } else {
      var init, r := refs[..|refs| - 1], refs[|refs| - 1];
      assert refs == init + [r];
      LiveCount(init, t, target);
      LiveOfOneMore(multiset(init), r, t, target);
      assert multiset(refs) == multiset(init) + multiset{r};
    }
  }

  /** The same count on a bag of references. */
  ghost function LiveOf(refs: multiset<Ref>, t: Tree, target: Target): nat {
    |Kept(refs, t, target)|
  }

  predicate Counted(r: Ref, t: Tree, target: Target) {
    IsLive(r, t) && r.target == target
  }

  ghost function Kept(refs: multiset<Ref>, t: Tree, target: Target): (k: multiset<Ref>)
    ensures forall r :: k[r] == if Counted(r, t, target) then refs[r] else 0
    decreases |refs|
  {
    if refs == multiset{} then multiset{}
    else
      var r :| r in refs;
      Kept(refs - multiset{r}, t, target) + if Counted(r, t, target) then multiset{r} else multiset{}
  }

  lemma NoneLive(t: Tree, target: Target)
    ensures LiveOf(multiset([]), t, target) == 0
  {
    assert Kept(multiset{}, t, target) == multiset{};
  }

  lemma LiveOfOneMore(refs: multiset<Ref>, r: Ref, t: Tree, target: Target)
    ensures LiveOf(refs + multiset{r}, t, target) == LiveOf(refs, t, target) + if Counted(r, t, target) then 1 else 0
  {
    hide Counted;
    var more := if Counted(r, t, target) then multiset{r} else multiset{};
    assert Kept(refs + multiset{r}, t, target) == Kept(refs, t, target) + more;
  }

  /** The verdict does not depend on the order the references are taken in. */
  lemma OrderDoesNotMatter(c: Check, refs: seq<Ref>)
    requires multiset(refs) == multiset(c.head.refs)
    ensures Passes(c) <==> Passes(c.(head := c.head.(refs := refs)))
  {
    var d := c.(head := c.head.(refs := refs));
    PassesIff(c);
    PassesIff(d);
    hide Live, BrokenTargets, Failures, Passes, ProblemOf;
    assert Edited(c) == Edited(d);
    forall r
      ensures Inexcusable(c, r) <==> Inexcusable(d, r)
      ensures r in c.head.refs <==> r in refs
    {
      SameProblem(c, d, r);
      assert r in c.head.refs <==> r in multiset(c.head.refs);
      assert r in refs <==> r in multiset(refs);
    }
    forall t
      ensures Live(refs, c.head.tree)[t] == Live(c.head.refs, c.head.tree)[t]
    {
      LiveCount(refs, c.head.tree, t);
      LiveCount(c.head.refs, c.head.tree, t);
    }
    assert HidesReferences(c) <==> HidesReferences(d);
  }

  lemma SameProblem(c: Check, d: Check, r: Ref)
    requires c.base == d.base && c.head.tree == d.head.tree
    ensures ProblemOf(c, r) == ProblemOf(d, r) && TouchesEdited(c, r) == TouchesEdited(d, r)
  {
    hide Resolve, Carriers;
  }

  /** What a pass promises of the head: no target has more broken references than at the base, none of them is
      in or into an edited doc, and what resolved at the base resolves to the same thing. */
  lemma PassIsRatchet(c: Check, r: Ref)
    requires Passes(c) && r in c.head.refs && !InHistory(r)
    ensures Live(c.head.refs, c.head.tree)[r.target] <= BrokenTargets(c.base.refs, c.base.tree)[r.target]
    ensures IsBroken(r, c.head.tree) ==> r.target.doc !in Edited(c) && r.citing !in Edited(c)
    ensures !IsBroken(r, c.head.tree) && !IsBroken(r, c.base.tree) ==>
      Resolve(r.target, c.head.tree) == Resolve(r.target, c.base.tree)
  {
    hide Live, BrokenTargets, Failures, Passes, Resolve, Carriers, Edited, HidesReferences;
    PassesIff(c);
    assert !Inexcusable(c, r);
  }
}
