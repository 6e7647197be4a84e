/** Broken references over a run of commits, each compared with the one before (scripts/check/doc_refs.py). */
module DocHistory {
  import opened Chars
  import opened DocCollect
  import opened DocResolve
  import opened DocRefs

  /** Each tree passes against its predecessor; docs may come and go. */
  ghost predicate Chain(w: Reader, run: seq<Listing>) {
    run != [] && forall k :: 0 <= k < |run| - 1 ==> Passes(CheckOf(w, run[k], run[k + 1]))
  }

  /** The changelog cites nothing that is broken. */
  ghost predicate CleanChangelog(w: Reader, l: Listing) {
    forall r :: r in Own(w, l).refs && InHistory(r) ==> !IsBroken(r, Own(w, l).tree)
  }

  // ---- one passing commit ----------------------------------------------------

  lemma IntoMissingDoc(w: Reader, base: Listing, head: Listing, r: Ref)
    requires ReadsByName(w) && r in CheckOf(w, base, head).head.refs
    requires IsDoc(r.target.doc) && r.target.doc !in DocNames(head)
    ensures IsBroken(r, TreeOf(w, head))
  {
    CollectedOften(w, TreeOf(w, head), DocNames(base) + DocNames(head), r);
    hide Collect, ReadsByName;
    KindOfText(w, head, DocNames(base) + DocNames(head), r);
  }

  lemma KindOfText(w: Reader, l: Listing, names: set<string>, r: Ref)
    requires ReadsByName(w) && Often(w, TreeOf(w, l), names, r) > 0
    ensures r.target.kind == Map ==> r.target.doc in DocNames(l)
  {
    if r.citing in l.files && Times(w.cites(r.citing, l.files[r.citing], names), r.target) > 0 {
      assert r.target in w.cites(r.citing, l.files[r.citing], names);
    }
  }

  /** A doc that is added, deleted or given another text is edited. */
  lemma ChangedIsEdited(w: Reader, base: Listing, head: Listing, doc: string)
    requires doc in DocNames(base) + DocNames(head) && Lookup(head.files, doc) != Lookup(base.files, doc)
    ensures doc in Edited(CheckOf(w, base, head))
  {
    hide Collect;
  }

  /** Outside the changelog a passing head cites no doc that the commit deleted. */
  lemma NoneIntoDeleted(w: Reader, base: Listing, head: Listing, r: Ref)
    requires ReadsByName(w) && Passes(CheckOf(w, base, head))
    requires r in CheckOf(w, base, head).head.refs && !InHistory(r)
    ensures r.target.doc !in DocNames(base) - DocNames(head)
  {
    hide Passes, Edited, ReadsByName, Collect;
    PassIsRatchet(CheckOf(w, base, head), r);
    if r.target.doc in DocNames(base) - DocNames(head) {
      ChangedIsEdited(w, base, head, r.target.doc);
      IntoMissingDoc(w, base, head, r);
    }
  }

  lemma AllFromText(w: Reader, l: Listing, names: set<string>, n: string, t: Target)
    requires n in l.files && n !in TreeOf(w, l).fixtures && t in w.cites(n, l.files[n], names)
    ensures Ref(n, t) in Collect(w, TreeOf(w, l), names)
  {
    CollectedOften(w, TreeOf(w, l), names, Ref(n, t));
  }

  /** So outside the changelog it reads the same under its own doc names. */
  lemma SameReading(w: Reader, base: Listing, head: Listing, r: Ref)
    requires ReadsByName(w) && Passes(CheckOf(w, base, head)) && !InHistory(r)
    ensures multiset(Own(w, head).refs)[r] == multiset(CheckOf(w, base, head).head.refs)[r]
  {
    var own, gone, t := DocNames(head), DocNames(base) - DocNames(head), TreeOf(w, head);
    assert DocNames(base) + own == own + gone;
    CollectedOften(w, t, own, r);
    CollectedOften(w, t, own + gone, r);
    if r.citing in head.files && r.citing !in t.fixtures {
      var n := r.citing;
      forall x | x in w.cites(n, head.files[n], own + gone)
        ensures x.doc !in gone
      {
        AllFromText(w, head, own + gone, n, x);
        NoneIntoDeleted(w, base, head, Ref(n, x));
      }
      hide Passes, Collect;
      assert NoneInto(w.cites(n, head.files[n], own + gone), gone);
    }
  }

  lemma {:induction false} SomeLive(refs: seq<Ref>, t: Tree, target: Target) returns (r: Ref)
    requires Live(refs, t)[target] > 0
    ensures r in refs && IsLive(r, t) && r.target == target
  {
    hide IsLive;
    r := refs[|refs| - 1];
    if !(IsLive(r, t) && r.target == target) { r := SomeLive(refs[..|refs| - 1], t, target); }
  }

  /** A target that a passing head has a live broken reference to is no doc the commit added. */
  lemma NoneIntoAdded(w: Reader, base: Listing, head: Listing, target: Target)
    requires Passes(CheckOf(w, base, head))
    requires Live(CheckOf(w, base, head).head.refs, TreeOf(w, head))[target] > 0
    ensures target.doc !in DocNames(head) - DocNames(base)
  {
    var c := CheckOf(w, base, head);
    var r := SomeLive(c.head.refs, c.head.tree, target);
    hide Passes, Edited, Collect;
    PassIsRatchet(c, r);
    if target.doc in DocNames(head) - DocNames(base) {
      ChangedIsEdited(w, base, head, target.doc);
    }
  }

  /** Reading the base under more doc names finds no more references to a doc of its own. */
  lemma BaseReadsNoMore(w: Reader, base: Listing, more: set<string>, r: Ref)
    requires ReadsByName(w) && r.target.doc !in more
    ensures multiset(Collect(w, TreeOf(w, base), DocNames(base) + more))[r] <= multiset(Own(w, base).refs)[r]
  {
    CollectedOften(w, TreeOf(w, base), DocNames(base), r);
    CollectedOften(w, TreeOf(w, base), DocNames(base) + more, r);
    hide Collect, Times;
  }

  lemma BrokenBaseIsNoMore(w: Reader, base: Listing, more: set<string>, target: Target)
    requires ReadsByName(w) && target.doc !in more
    ensures BrokenTargets(Collect(w, TreeOf(w, base), DocNames(base) + more), TreeOf(w, base))[target]
         <= BrokenAt(w, base, target)
  {
    var t := TreeOf(w, base);
    var few, all := Collect(w, t, DocNames(base) + more), Own(w, base).refs;
    hide Collect, ReadsByName, Resolve, BrokenTargets, Live;
    forall r: Ref | r.target == target
      ensures multiset(few)[r] <= multiset(all)[r]
    {
      BaseReadsNoMore(w, base, more, r);
    }
    LiveGrows(few, all, t, target);
    BrokenIsLiveAndHistory(few, t, target);
    BrokenIsLiveAndHistory(all, t, target);
    assert Ref(CHANGELOG, target).target == target;
  }

  lemma LiveIsBroken(w: Reader, l: Listing, target: Target)
    requires CleanChangelog(w, l)
    ensures BrokenAt(w, l, target) == Live(Own(w, l).refs, TreeOf(w, l))[target]
  {
    hide Collect, BrokenTargets, Live;
    var refs, t := Own(w, l).refs, TreeOf(w, l);
    BrokenIsLiveAndHistory(refs, t, target);
    var r := Ref(CHANGELOG, target);
    assert InHistory(r) && (IsBroken(r, t) <==> Resolve(target, t) == None);
    assert r in multiset(refs) ==> r in refs;
  }

  /** A passing commit into a tree whose changelog cites nothing broken breaks no target more often. */
  lemma PassingNeverRises(w: Reader, base: Listing, head: Listing, target: Target)
    requires ReadsByName(w) && Passes(CheckOf(w, base, head)) && CleanChangelog(w, head)
    ensures BrokenAt(w, head, target) <= BrokenAt(w, base, target)
  {
    var c := CheckOf(w, base, head);
    hide Collect, ReadsByName, Passes, CleanChangelog, Live, BrokenTargets;
    LiveIsBroken(w, head, target);
    forall r: Ref | r.target == target && !InHistory(r)
      ensures multiset(Own(w, head).refs)[r] <= multiset(c.head.refs)[r]
    {
      SameReading(w, base, head, r);
    }
    LiveGrows(Own(w, head).refs, c.head.refs, TreeOf(w, head), target);
    if Live(c.head.refs, TreeOf(w, head))[target] > 0 {
      var added := DocNames(head) - DocNames(base);
      assert DocNames(base) + DocNames(head) == DocNames(base) + added;
      NoneIntoAdded(w, base, head, target);
      BrokenBaseIsNoMore(w, base, added, target);
      PassesIff(c);
    }
  }

  /** Without broken references in the changelog the broken references of a target never grow in number, whatever
      docs are added, deleted or renamed on the way. */
  lemma {:induction false} NeverRises(w: Reader, run: seq<Listing>, target: Target)
    requires ReadsByName(w) && Chain(w, run) && forall k :: 0 <= k < |run| ==> CleanChangelog(w, run[k])
    ensures BrokenAt(w, run[|run| - 1], target) <= BrokenAt(w, run[0], target)
    decreases |run|
  {
    hide CheckOf, Passes, CleanChangelog, BrokenAt, ReadsByName;
    if |run| > 1 {
      var last := |run| - 1;
      NeverRises(w, run[..last], target);
      assert Passes(CheckOf(w, run[last - 1], run[last - 1 + 1]));
      PassingNeverRises(w, run[last - 1], run[last], target);
    }
  }

  // ---- commits that leave the docs and the changelog alone -------------------

  /** No doc and no changelog is added, deleted or given another text. */
  predicate Untouched(s: Listing, h: Listing) {
    forall n :: n in s.files.Keys + h.files.Keys && (IsDoc(n) || n == CHANGELOG) ==>
                  Lookup(h.files, n) == Lookup(s.files, n)
  }

  /** A passing commit that removes no file and leaves the docs and the changelog alone. */
  ghost predicate Follows(w: Reader, s: Listing, h: Listing) {
    Valid(h) && s.names <= h.names && Untouched(s, h) && Passes(CheckOf(w, s, h))
  }

  ghost predicate NoMoreBroken(w: Reader, s: Listing, h: Listing) {
    forall t :: BrokenAt(w, h, t) <= BrokenAt(w, s, t)
  }

  lemma UntouchedDocs(w: Reader, s: Listing, h: Listing)
    requires Untouched(s, h)
    ensures DocNames(h) == DocNames(s) && TreeOf(w, h).docs == TreeOf(w, s).docs
    ensures CHANGELOG in h.files <==> CHANGELOG in s.files
    ensures CHANGELOG in h.files ==> h.files[CHANGELOG] == s.files[CHANGELOG]
  {
    forall n | n in s.files.Keys + h.files.Keys && (IsDoc(n) || n == CHANGELOG)
      ensures (n in h.files <==> n in s.files) && (n in h.files ==> h.files[n] == s.files[n])
    {
      assert Lookup(h.files, n) == Lookup(s.files, n);
    }
    hide IsDoc;
  }

  /** What resolves in a tree resolves in every tree with its docs and more names, the map's references aside. */
  lemma StaysResolved(t: Target, a: Tree, b: Tree)
    requires a.docs == b.docs && a.names <= b.names && t.kind != Map && Resolve(t, a) != None
    ensures Resolve(t, b) != None
  {
    hide ResolveIn, IsDoc, WithoutSlash;
  }

  lemma ChangelogReads(w: Reader, l: Listing, t: Target)
    ensures multiset(Own(w, l).refs)[Ref(CHANGELOG, t)]
      == if CHANGELOG in l.files then Times(w.cites(CHANGELOG, l.files[CHANGELOG], DocNames(l)), t) else 0
    ensures Ref(CHANGELOG, t) in Own(w, l).refs
      <==> CHANGELOG in l.files && t in w.cites(CHANGELOG, l.files[CHANGELOG], DocNames(l))
  {
    CollectedOften(w, TreeOf(w, l), DocNames(l), Ref(CHANGELOG, t));
    hide Collect;
    assert !StartsAt(CHANGELOG, 0, "scripts/") by { assert CHANGELOG[0] == 'C'; }
    assert CHANGELOG != CLAUDE by { assert CHANGELOG[1] == 'H' && CLAUDE[1] == 'L'; }
  }

  lemma FollowingIsClean(w: Reader, s: Listing, h: Listing)
    requires ReadsByName(w) && CleanChangelog(w, s) && s.names <= h.names && Untouched(s, h)
    ensures CleanChangelog(w, h)
  {
    UntouchedDocs(w, s, h);
    hide Collect, Untouched, Resolve;
    forall r | r in Own(w, h).refs && InHistory(r)
      ensures !IsBroken(r, Own(w, h).tree)
    {
      ChangelogReads(w, h, r.target);
      ChangelogReads(w, s, r.target);
      assert r == Ref(CHANGELOG, r.target);
      StaysResolved(r.target, TreeOf(w, s), TreeOf(w, h));
    }
  }

  // ---- when a tree passes but for its texts ----------------------------------

  /** The trees differ in texts alone, and in no doc's. */
  predicate SameButTexts(c: Check) {
    && c.head.tree == c.base.tree.(files := c.head.tree.files)
    && forall d :: d in c.head.tree.docs ==> Lookup(c.head.tree.files, d) == Lookup(c.base.tree.files, d)
  }

  /** A reference to the target is broken, or in order. */
  predicate Sound(t: Tree, target: Target) {
    var s := Snapshot(t, []);
    !IsAmbiguous(ProblemOf(Check(s, s), Ref(CHANGELOG, target)))
  }

  lemma QuietProblem(c: Check, r: Ref)
    requires SameButTexts(c)
    ensures Sound(c.base.tree, r.target) <==> ProblemOf(c, r) == None || ProblemOf(c, r) == Some(Broken)
    ensures IsBroken(r, c.head.tree) <==> IsBroken(r, c.base.tree)
    ensures !TouchesEdited(c, r)
  {
    var t := c.base.tree;
    assert Resolve(r.target, c.head.tree) == Resolve(r.target, t) by { SameResolve(r.target, t, c.head.tree.files); }
    assert Edited(c) == {};
    hide Resolve, Carriers;
  }

  lemma SameResolve(target: Target, t: Tree, files: map<string, string>)
    ensures Resolve(target, t.(files := files)) == Resolve(target, t)
  {
    hide ResolveIn, WithoutSlash, IsDoc;
  }

  lemma QuietPass(c: Check)
    requires SameButTexts(c)
    ensures Passes(c) <==>
      && c.head.tree.docs != map[]
      && (forall r :: r in c.head.refs && !InHistory(r) ==> Sound(c.base.tree, r.target))
      && (forall t :: Live(c.head.refs, c.head.tree)[t] <= BrokenTargets(c.base.refs, c.base.tree)[t])
  {
    PassesIff(c);
    assert !HidesReferences(c);
    hide Passes, Failures, Live, BrokenTargets, Sound, ProblemOf, TouchesEdited, HidesReferences;
    forall r | r in c.head.refs && !InHistory(r)
      ensures Inexcusable(c, r) <==> !Sound(c.base.tree, r.target)
    {
      QuietProblem(c, r);
    }
  }

  // ---- one more reference ----------------------------------------------------

  /** A scanned file of its own: no doc, neither the changelog nor the map, and under no fixture's name. */
  predicate Ordinary(n: string) {
    !IsDoc(n) && n != CHANGELOG && n != CLAUDE && !IsFixturePath(n)
  }

  function Rewritten(s: Listing, citing: string, text: string): Listing {
    s.(files := s.files[citing := text])
  }

  /** Citations the changelog holds, all of them broken or in order, for a file that may repeat them. */
  ghost predicate Lendable(w: Reader, s: Listing, citing: string, more: seq<Target>) {
    && Ordinary(citing) && citing in s.files && CHANGELOG in s.files
    && multiset(more) <= multiset(w.cites(CHANGELOG, s.files[CHANGELOG], DocNames(s)))
    && forall m :: m in more ==> Sound(TreeOf(w, s), m)
  }

  /** The new text cites what the old one did, and once more some of what the changelog cites. */
  ghost predicate Copies(w: Reader, s: Listing, citing: string, text: string, more: seq<Target>) {
    && Lendable(w, s, citing, more)
    && multiset(w.cites(citing, text, DocNames(s)))
       == multiset(w.cites(citing, s.files[citing], DocNames(s))) + multiset(more)
  }

  lemma RewrittenTree(w: Reader, s: Listing, citing: string, text: string)
    requires Ordinary(citing) && citing in s.files
    ensures var h := Rewritten(s, citing, text);
      DocNames(h) == DocNames(s) && TreeOf(w, h) == TreeOf(w, s).(files := h.files) && Untouched(s, h)
      && SameButTexts(CheckOf(w, s, h)) && ToMap(TreeOf(w, h)) == ToMap(TreeOf(w, s))
  {
    var h := Rewritten(s, citing, text);
    hide Collect, IsDoc, IsFixturePath;
    assert TreeOf(w, h).docs == TreeOf(w, s).docs;
    assert TreeOf(w, h).fixtures == TreeOf(w, s).fixtures;
  }

  /** Both sides of the comparison are read under the docs they share. */
  lemma OwnCheck(w: Reader, s: Listing, h: Listing)
    requires DocNames(h) == DocNames(s)
    ensures CheckOf(w, s, h) == Check(Own(w, s), Own(w, h))
  {
    hide Collect, TreeOf;
    assert DocNames(s) + DocNames(h) == DocNames(s);
  }

  lemma RewrittenOften(w: Reader, s: Listing, citing: string, text: string, more: seq<Target>, r: Ref)
    requires Copies(w, s, citing, text, more)
    ensures Often(w, TreeOf(w, Rewritten(s, citing, text)), DocNames(s), r)
         == Often(w, TreeOf(w, s), DocNames(s), r) + if r.citing == citing then Times(more, r.target) else 0
  {
    RewrittenTree(w, s, citing, text);
    assert citing !in TreeOf(w, s).fixtures;
    hide Collect, Ordinary, Untouched, SameButTexts, ToMap, IsFixturePath, Sound;
  }

  lemma RewrittenRefs(w: Reader, s: Listing, citing: string, text: string, more: seq<Target>)
    requires Copies(w, s, citing, text, more)
    ensures multiset(Own(w, Rewritten(s, citing, text)).refs)
         == multiset(Own(w, s).refs) + multiset(Cited(citing, more))
  {
    var h := Rewritten(s, citing, text);
    assert DocNames(h) == DocNames(s) by { RewrittenTree(w, s, citing, text); }
    hide Collect, Copies, Often, Times, Cited, TreeOf, DocNames, Rewritten;
    forall r
      ensures multiset(Own(w, h).refs)[r] == multiset(Own(w, s).refs)[r] + multiset(Cited(citing, more))[r]
    {
      CollectedOften(w, TreeOf(w, s), DocNames(s), r);
      CollectedOften(w, TreeOf(w, h), DocNames(h), r);
      CitedOften(citing, more, r);
      RewrittenOften(w, s, citing, text, more, r);
    }
  }

  lemma LiveOfBoth(a: multiset<Ref>, b: multiset<Ref>, t: Tree, target: Target)
    ensures LiveOf(a + b, t, target) == LiveOf(a, t, target) + LiveOf(b, t, target)
  {
    var x, y, z := Kept(a, t, target), Kept(b, t, target), Kept(a + b, t, target);
    hide Counted, Kept;
    forall r
      ensures z[r] == x[r] + y[r]
    {
      assert z[r] == if Counted(r, t, target) then (a + b)[r] else 0;
    }
    assert z == x + y;
  }

  lemma LiveOfCited(citing: string, more: seq<Target>, t: Tree, target: Target)
    requires citing != CHANGELOG
    ensures LiveOf(multiset(Cited(citing, more)), t, target)
         == if Resolve(target, t) == None then Times(more, target) else 0
  {
    var bag := multiset(Cited(citing, more));
    var one := Ref(citing, target);
    hide Resolve, Cited, Times, Kept;
    forall r
      ensures Kept(bag, t, target)[r] == if r == one && Resolve(target, t) == None then Times(more, target) else 0
    {
      CitedOften(citing, more, r);
    }
    if Resolve(target, t) == None {
      assert Kept(bag, t, target) == multiset{}[one := Times(more, target)];
    } else {
      assert Kept(bag, t, target) == multiset{};
    }
  }

  lemma LiveIgnoresTexts(refs: multiset<Ref>, t: Tree, files: map<string, string>, target: Target)
    ensures LiveOf(refs, t.(files := files), target) == LiveOf(refs, t, target)
  {
    SameResolve(target, t, files);
    hide Resolve;
    assert Kept(refs, t.(files := files), target) == Kept(refs, t, target);
  }

  /** The live broken references behind a copy. */
  lemma LiveBehindCopy(w: Reader, s: Listing, citing: string, text: string, more: seq<Target>, target: Target)
    requires Copies(w, s, citing, text, more)
    ensures var h := Rewritten(s, citing, text);
      Live(Own(w, h).refs, TreeOf(w, h))[target]
        == Live(Own(w, s).refs, TreeOf(w, s))[target]
           + if Resolve(target, TreeOf(w, s)) == None then Times(more, target) else 0
  {
    var h := Rewritten(s, citing, text);
    var a, b, t := multiset(Own(w, s).refs), multiset(Cited(citing, more)), TreeOf(w, s);
    assert citing != CHANGELOG;
    RewrittenRefs(w, s, citing, text, more);
    assert TreeOf(w, h) == t.(files := h.files) by { RewrittenTree(w, s, citing, text); }
    hide Copies, Collect, Cited, TreeOf, Live, LiveOf, Times, Resolve, Rewritten, DocNames;
    LiveCount(Own(w, h).refs, TreeOf(w, h), target);
    LiveCount(Own(w, s).refs, t, target);
    LiveIgnoresTexts(a + b, t, h.files, target);
    LiveOfBoth(a, b, t, target);
    LiveOfCited(citing, more, t, target);
  }

  /** The broken references of the changelog are untouched by a copy elsewhere. */
  lemma BrokenBehindCopy(w: Reader, s: Listing, citing: string, text: string, more: seq<Target>, target: Target)
    requires Copies(w, s, citing, text, more)
    ensures BrokenAt(w, Rewritten(s, citing, text), target)
         == BrokenAt(w, s, target) + if Resolve(target, TreeOf(w, s)) == None then Times(more, target) else 0
  {
    var h, r := Rewritten(s, citing, text), Ref(CHANGELOG, target);
    var t := TreeOf(w, s);
    RewrittenTree(w, s, citing, text);
    LiveBehindCopy(w, s, citing, text, more, target);
    RewrittenOften(w, s, citing, text, more, r);
    assert citing != CHANGELOG;
    CollectedOften(w, t, DocNames(s), r);
    CollectedOften(w, TreeOf(w, h), DocNames(h), r);
    SameResolve(target, t, h.files);
    BrokenIsLiveAndHistory(Own(w, s).refs, t, target);
    BrokenIsLiveAndHistory(Own(w, h).refs, TreeOf(w, h), target);
    hide *;
  }

  lemma SoundIgnoresTexts(t: Tree, files: map<string, string>, target: Target)
    ensures Sound(t.(files := files), target) == Sound(t, target)
  {
    SameResolve(target, t, files);
    hide Resolve, Carriers;
  }

  lemma LiveIsPart(w: Reader, l: Listing, target: Target)
    ensures Live(Own(w, l).refs, TreeOf(w, l))[target] <= BrokenAt(w, l, target)
  {
    hide Collect, TreeOf, Live, BrokenTargets, Resolve;
    BrokenIsLiveAndHistory(Own(w, l).refs, TreeOf(w, l), target);
  }

  /** A commit that changes nothing passes when every reference outside the changelog is broken or in order. */
  lemma PassesAlone(w: Reader, l: Listing)
    ensures Passes(CheckOf(w, l, l)) <==>
      TreeOf(w, l).docs != map[] && forall r :: r in Own(w, l).refs && !InHistory(r) ==> Sound(TreeOf(w, l), r.target)
  {
    OwnCheck(w, l, l);
    QuietPass(CheckOf(w, l, l));
    forall t
      ensures Live(Own(w, l).refs, TreeOf(w, l))[t] <= BrokenAt(w, l, t)
    {
      LiveIsPart(w, l, t);
    }
    hide Passes, Live, BrokenTargets, Sound, Collect, TreeOf, CheckOf;
  }

  lemma CopyIsSound(w: Reader, s: Listing, citing: string, text: string, more: seq<Target>, r: Ref)
    requires Copies(w, s, citing, text, more) && Passes(CheckOf(w, s, s))
    requires r in Own(w, Rewritten(s, citing, text)).refs && !InHistory(r)
    ensures Sound(TreeOf(w, s), r.target)
  {
    var h := Rewritten(s, citing, text);
    RewrittenRefs(w, s, citing, text, more);
    PassesAlone(w, s);
    CitedOften(citing, more, r);
    assert r in multiset(Own(w, h).refs);
    assert r in multiset(Own(w, s).refs) || r in multiset(Cited(citing, more));
    hide Collect, TreeOf, Sound, Cited, Rewritten, Passes;
    assert r in Own(w, s).refs || r.target in multiset(more);
  }

  lemma CopyFits(w: Reader, s: Listing, citing: string, text: string, more: seq<Target>, target: Target)
    requires Copies(w, s, citing, text, more)
    ensures var h := Rewritten(s, citing, text);
      Live(Own(w, h).refs, TreeOf(w, h))[target] <= BrokenAt(w, s, target)
  {
    LiveBehindCopy(w, s, citing, text, more, target);
    BrokenIsLiveAndHistory(Own(w, s).refs, TreeOf(w, s), target);
    ChangelogReads(w, s, target);
    hide Collect, TreeOf, Sound, Cited, Rewritten, Live, BrokenTargets, Resolve, Ordinary;
  }

  /** Where a file repeats what the changelog cites in vain, the commit passes, and the tree it leaves does too. */
  lemma OneIsLent(w: Reader, s: Listing, citing: string, text: string, more: seq<Target>)
    requires Valid(s) && Passes(CheckOf(w, s, s)) && Copies(w, s, citing, text, more)
    ensures var h := Rewritten(s, citing, text);
      Follows(w, s, h) && Passes(CheckOf(w, h, h))
  {
    var h := Rewritten(s, citing, text);
    var t := TreeOf(w, s);
    RewrittenTree(w, s, citing, text);
    OwnCheck(w, s, h);
    PassesAlone(w, s);
    PassesAlone(w, h);
    QuietPass(CheckOf(w, s, h));
    assert Valid(h) && s.names <= h.names;
    forall r | r in Own(w, h).refs && !InHistory(r)
      ensures Sound(t, r.target) && Sound(TreeOf(w, h), r.target)
    {
      CopyIsSound(w, s, citing, text, more, r);
      SoundIgnoresTexts(t, h.files, r.target);
    }
    forall x
      ensures Live(Own(w, h).refs, TreeOf(w, h))[x] <= BrokenAt(w, s, x)
    {
      CopyFits(w, s, citing, text, more, x);
    }
    hide Passes, Collect, TreeOf, Sound, Live, BrokenTargets, Untouched, SameButTexts, Rewritten, CheckOf;
  }

  // ---- when the promise holds, and how far it fails --------------------------

  /** The changelog cites the target, and it is broken. */
  ghost predicate CitedInVain(w: Reader, s: Listing, t: Target) {
    Ref(CHANGELOG, t) in Own(w, s).refs && Resolve(t, TreeOf(w, s)) == None
  }

  /** Whatever the changelog cites in vain some other file can be made to cite too. */
  ghost predicate Writable(w: Reader, s: Listing) {
    forall t :: CitedInVain(w, s, t) ==>
      exists citing, text, more :: Copies(w, s, citing, text, more) && t in more
  }

  /** From a tree that passes alone, no passing commit that removes no file and leaves the docs and the changelog
      alone breaks a target more often, exactly when the changelog cites nothing broken. */
  lemma HoldsIffChangelogClean(w: Reader, s: Listing)
    requires ReadsByName(w) && Valid(s) && Passes(CheckOf(w, s, s)) && Writable(w, s)
    ensures CleanChangelog(w, s) <==> forall h :: Follows(w, s, h) ==> NoMoreBroken(w, s, h)
  {
    hide Passes, Collect, CheckOf, BrokenAt, Valid, Untouched, Copies, TreeOf, ReadsByName;
    if CleanChangelog(w, s) {
      forall h | Follows(w, s, h)
        ensures NoMoreBroken(w, s, h)
      {
        FollowingIsClean(w, s, h);
        forall t
          ensures BrokenAt(w, h, t) <= BrokenAt(w, s, t)
        {
          PassingNeverRises(w, s, h, t);
        }
      }
    } else {
      var r :| r in Own(w, s).refs && InHistory(r) && IsBroken(r, TreeOf(w, s));
      assert r == Ref(CHANGELOG, r.target) && CitedInVain(w, s, r.target);
      var citing, text, more :| Copies(w, s, citing, text, more) && r.target in more;
      OneIsLent(w, s, citing, text, more);
      BrokenBehindCopy(w, s, citing, text, more, r.target);
      hide Follows, CleanChangelog;
      assert BrokenAt(w, Rewritten(s, citing, text), r.target) > BrokenAt(w, s, r.target);
    }
  }

  const README := "README.md"
  const A_DOC := "docs/a.md"
  const GONE := "docs/gone.md"
  const TO_GONE := Target(Path, GONE, "", false)

  /** The changelog names a doc that is gone, and the readme names nothing. */
  function Lender(): Listing {
    Listing(map[A_DOC := "", CHANGELOG := GONE, README := ""], {A_DOC, CHANGELOG, README})
  }

  /** The empty text cites nothing, and one that is the doc's path cites the doc. */
  ghost predicate ReadsPaths(w: Reader) {
    && (forall n :: w.cites(n, "", {A_DOC}) == [])
    && (forall n :: n in {CHANGELOG, README} ==> w.cites(n, GONE, {A_DOC}) == [TO_GONE])
  }

  lemma LenderPaths()
    ensures IsDoc(A_DOC) && Ordinary(README) && !IsDoc(CHANGELOG) && CHANGELOG != CLAUDE
    ensures |{A_DOC, CHANGELOG, README, CLAUDE}| == 4 && A_DOC != GONE
    ensures forall n :: n in {A_DOC, CHANGELOG, README} ==> !IsFixturePath(n)
  {
    assert A_DOC[0] == 'd' && CHANGELOG[0] == 'C' && README[0] == 'R';
    assert A_DOC[5] == 'a' && GONE[5] == 'g' && CHANGELOG[1] == 'H' && CLAUDE[1] == 'L';
    assert A_DOC[6..] == ".md";
  }

  lemma LenderTree(w: Reader)
    ensures var t := TreeOf(w, Lender());
      DocNames(Lender()) == t.docs.Keys == {A_DOC} && t.fixtures == {} && ToMap(t) == {}
      && Resolve(TO_GONE, t) == None && Valid(Lender())
  {
    LenderPaths();
    hide IsDoc, IsFixturePath;
  }

  lemma GoneIsLendable(w: Reader)
    requires ReadsPaths(w)
    ensures Copies(w, Lender(), README, GONE, [TO_GONE])
  {
    LenderPaths();
    LenderTree(w);
    BrokenIsSound(TreeOf(w, Lender()), TO_GONE);
    hide IsDoc, IsFixturePath, Sound, TreeOf, DocNames;
  }

  lemma BrokenIsSound(t: Tree, target: Target)
    requires Resolve(target, t) == None
    ensures Sound(t, target)
  {
    hide Resolve;
  }

  lemma LenderOften(w: Reader, r: Ref)
    requires ReadsPaths(w)
    ensures multiset(Own(w, Lender()).refs)[r] == if r == Ref(CHANGELOG, TO_GONE) then 1 else 0
    ensures r in Own(w, Lender()).refs ==> InHistory(r)
  {
    LenderPaths();
    LenderTree(w);
    CollectedOften(w, TreeOf(w, Lender()), DocNames(Lender()), r);
    hide Collect, IsDoc, IsFixturePath, DocNames;
  }

  lemma LenderPasses(w: Reader)
    requires ReadsPaths(w)
    ensures Passes(CheckOf(w, Lender(), Lender())) && BrokenAt(w, Lender(), TO_GONE) == 1
  {
    var s := Lender();
    LenderTree(w);
    LenderOften(w, Ref(CHANGELOG, TO_GONE));
    PassesAlone(w, s);
    BrokenIsLiveAndHistory(Own(w, s).refs, TreeOf(w, s), TO_GONE);
    hide ReadsPaths, Lender, Collect, Passes, CheckOf, Resolve, Live, BrokenTargets, Sound, DocNames, ToMap, TreeOf;
    forall r | r in Own(w, s).refs
      ensures InHistory(r)
    {
      LenderOften(w, r);
    }
    if Live(Own(w, s).refs, TreeOf(w, s))[TO_GONE] > 0 {
      var r := SomeLive(Own(w, s).refs, TreeOf(w, s), TO_GONE);
    }
  }

  /** The readme comes to name the doc too: the commit passes, and two references to it are broken. */
  lemma LentToReadme(w: Reader)
    requires ReadsPaths(w)
    ensures var h := Rewritten(Lender(), README, GONE);
      && Passes(CheckOf(w, Lender(), Lender())) && BrokenAt(w, Lender(), TO_GONE) == 1
      && Follows(w, Lender(), h) && BrokenAt(w, h, TO_GONE) == 2
  {
    LenderTree(w);
    LenderPasses(w);
    GoneIsLendable(w);
    hide ReadsPaths, Lender, Copies, Passes, CheckOf, Resolve, Rewritten, Follows, BrokenAt, Own, TreeOf, Valid;
    OneIsLent(w, Lender(), README, GONE, [TO_GONE]);
    BrokenBehindCopy(w, Lender(), README, GONE, [TO_GONE], TO_GONE);
  }

  /** The text of a file after `n` times the same addition. */
  function Written(text: string, write: string -> string, n: nat): string {
    if n == 0 then text else write(Written(text, write, n - 1))
  }

  /** The commits that make the addition, one after the other. */
  function Lending(s: Listing, citing: string, write: string -> string, n: nat): (run: seq<Listing>)
    requires citing in s.files
    ensures |run| == n + 1
    ensures forall k :: 0 <= k <= n ==> run[k] == Rewritten(s, citing, Written(s.files[citing], write, k))
  {
    if n == 0 then [Rewritten(s, citing, s.files[citing])]
    else Lending(s, citing, write, n - 1) + [Rewritten(s, citing, Written(s.files[citing], write, n))]
  }

  /** `write` adds the citations `more` to any text of the file. */
  ghost predicate Adds(w: Reader, names: set<string>, citing: string, write: string -> string, more: seq<Target>) {
    forall text ::
      multiset(w.cites(citing, write(text), names)) == multiset(w.cites(citing, text, names)) + multiset(more)
  }

  lemma LendableStays(w: Reader, s: Listing, citing: string, text: string, more: seq<Target>)
    requires Lendable(w, s, citing, more)
    ensures Lendable(w, Rewritten(s, citing, text), citing, more)
    ensures DocNames(Rewritten(s, citing, text)) == DocNames(s)
  {
    var h := Rewritten(s, citing, text);
    RewrittenTree(w, s, citing, text);
    hide Ordinary, Sound, Collect, TreeOf, DocNames, Untouched, SameButTexts;
    forall m | m in more
      ensures Sound(TreeOf(w, h), m)
    {
      SoundIgnoresTexts(TreeOf(w, s), h.files, m);
    }
  }

  lemma CopyAgain(w: Reader, s: Listing, citing: string, was: string, write: string -> string, more: seq<Target>,
                  t: Target)
    requires Lendable(w, s, citing, more) && Adds(w, DocNames(s), citing, write, more)
    ensures var a := Rewritten(s, citing, was);
      Copies(w, a, citing, write(was), more) && Resolve(t, TreeOf(w, a)) == Resolve(t, TreeOf(w, s))
  {
    LendableStays(w, s, citing, was, more);
    RewrittenTree(w, s, citing, was);
    SameResolve(t, TreeOf(w, s), Rewritten(s, citing, was).files);
    hide TreeOf, DocNames, Lendable, Untouched, SameButTexts, Resolve;
    assert Rewritten(s, citing, was).files[citing] == was;
  }

  lemma LendFrom(w: Reader, a: Listing, citing: string, text: string, more: seq<Target>, t: Target)
    requires Valid(a) && Passes(CheckOf(w, a, a)) && Copies(w, a, citing, text, more)
    requires Resolve(t, TreeOf(w, a)) == None
    ensures var b := Rewritten(a, citing, text);
      && Valid(b) && Passes(CheckOf(w, a, b)) && Passes(CheckOf(w, b, b))
      && BrokenAt(w, b, t) == BrokenAt(w, a, t) + Times(more, t)
  {
    OneIsLent(w, a, citing, text, more);
    BrokenBehindCopy(w, a, citing, text, more, t);
    hide Passes, CheckOf, BrokenAt, TreeOf, Untouched, Valid, Rewritten, Times, Resolve;
  }

  lemma RewrittenTwice(s: Listing, citing: string, was: string, text: string)
    ensures Rewritten(Rewritten(s, citing, was), citing, text) == Rewritten(s, citing, text)
  {
    assert s.files[citing := was][citing := text] == s.files[citing := text];
  }

  /** One more commit of the run. */
  lemma LendOnce(w: Reader, s: Listing, citing: string, was: string, write: string -> string, more: seq<Target>,
                 t: Target)
    requires Lendable(w, s, citing, more) && Adds(w, DocNames(s), citing, write, more)
    requires Resolve(t, TreeOf(w, s)) == None
    requires var a := Rewritten(s, citing, was); Valid(a) && Passes(CheckOf(w, a, a))
    ensures var a, b := Rewritten(s, citing, was), Rewritten(s, citing, write(was));
      && Valid(b) && Passes(CheckOf(w, a, b)) && Passes(CheckOf(w, b, b))
      && BrokenAt(w, b, t) == BrokenAt(w, a, t) + Times(more, t)
  {
    hide Passes, Collect, CheckOf, BrokenAt, TreeOf, DocNames, Copies, Lendable, Adds, Valid, Times, Resolve;
    hide Rewritten;
    CopyAgain(w, s, citing, was, write, more, t);
    RewrittenTwice(s, citing, was, write(was));
    LendFrom(w, Rewritten(s, citing, was), citing, write(was), more, t);
  }

  /** From any tree that passes alone and whose changelog cites something broken, every commit of a passing run may
      cite it once more in another file, to any number. */
  lemma {:induction false} ChangelogLends(w: Reader, s: Listing, citing: string, write: string -> string,
                                          more: seq<Target>, t: Target, n: nat)
    requires Valid(s) && Passes(CheckOf(w, s, s)) && CitedInVain(w, s, t)
    requires Lendable(w, s, citing, more) && Adds(w, DocNames(s), citing, write, more)
    ensures var run := Lending(s, citing, write, n);
      && run[0] == s && Chain(w, run) && Valid(run[n]) && Passes(CheckOf(w, run[n], run[n]))
      && BrokenAt(w, run[n], t) == BrokenAt(w, s, t) + n * Times(more, t)
  {
    hide Passes, Collect, CheckOf, BrokenAt, TreeOf, DocNames, Lendable, Adds, CitedInVain, Times, Valid;
    assert citing in s.files by { Unlent(w, s, citing, more, t); }
    var run := Lending(s, citing, write, n);
    assert Rewritten(s, citing, s.files[citing]) == s;
    if n > 0 {
      ChangelogLends(w, s, citing, write, more, t, n - 1);
      assert Resolve(t, TreeOf(w, s)) == None by { Unlent(w, s, citing, more, t); }
      LendOnce(w, s, citing, Written(s.files[citing], write, n - 1), write, more, t);
      var before := Lending(s, citing, write, n - 1);
      assert forall k :: 0 <= k < n ==> run[k] == before[k];
    }
  }

  lemma Unlent(w: Reader, s: Listing, citing: string, more: seq<Target>, t: Target)
    requires Lendable(w, s, citing, more) && CitedInVain(w, s, t)
    ensures citing in s.files && Resolve(t, TreeOf(w, s)) == None
  {
  }

  /** An edited doc carries nothing: a broken reference out of a doc the commit changed, or into one, fails. */
  lemma EditedDocLendsNothing(w: Reader, s: Listing, h: Listing, r: Ref, doc: string)
    requires r in CheckOf(w, s, h).head.refs && !InHistory(r) && IsBroken(r, TreeOf(w, h))
    requires doc in {r.citing, r.target.doc} && doc in DocNames(s) + DocNames(h)
    requires Lookup(h.files, doc) != Lookup(s.files, doc)
    ensures !Passes(CheckOf(w, s, h))
  {
    ChangedIsEdited(w, s, h, doc);
    hide Passes, Edited;
    if Passes(CheckOf(w, s, h)) { PassIsRatchet(CheckOf(w, s, h), r); }
  }
}
