/** The references of a tree, and the comparison of a tree with its base (scripts/check/doc_refs.py). */
module DocCollect {
  import opened Chars
  import opened DocResolve
  import opened DocRefs

  const CLAUDE := "CLAUDE.md"

  /** What the script reads out of a text: the targets a file cites under some doc names, the parts of a doc, the
      rows of the documentation map, and whether the first lines hold the fixture marker. */
  datatype Reader = Reader(cites: (string, string, set<string>) -> seq<Target>, parse: string -> Doc,
                           rows: string -> set<string>, marked: string -> bool)

  /** The text files of a tree, and every name it tracks. */
  datatype Listing = Listing(files: map<string, string>, names: set<string>)

  predicate Valid(l: Listing) {
    l.files.Keys <= l.names
  }

  /** `FIXTURE_PATH`: a script below `scripts/` with one of the two endings behind a name of its own. */
  predicate IsFixturePath(n: string) {
    && StartsAt(n, 0, "scripts/") && (forall k :: 7 <= k < |n| - 1 ==> !(n[k] == '/' && n[k + 1] == '/'))
    && (EndsBehindName(n, "_selftest.sh") || EndsBehindName(n, "_fixtures.sh"))
  }

  predicate EndsBehindName(n: string, tail: string) {
    EndsIn(n, tail) && |n| > |tail| && n[|n| - |tail| - 1] != '/'
  }

  /** `Tree.__init__`. */
  function TreeOf(w: Reader, l: Listing): Tree {
    Tree(l.files, l.names,
         map n | n in l.files && IsDoc(n) :: w.parse(l.files[n]),
         if CLAUDE in l.files then w.rows(l.files[CLAUDE]) else {},
         set n | n in l.files && IsFixturePath(n) && w.marked(l.files[n]))
  }

  function DocNames(l: Listing): set<string> {
    set n | n in l.files && IsDoc(n)
  }

  lemma DocsAreNamed(w: Reader, l: Listing)
    ensures TreeOf(w, l).docs.Keys == DocNames(l)
  {
  }

  // ---- collect ---------------------------------------------------------------

  function Cited(citing: string, targets: seq<Target>): seq<Ref> {
    seq(|targets|, i requires 0 <= i < |targets| => Ref(citing, targets[i]))
  }

  /** The references read from the texts of some files, in any order. */
  ghost function FromTexts(w: Reader, files: map<string, string>, names: set<string>, todo: set<string>): seq<Ref>
    requires todo <= files.Keys
  {
    if todo == {} then []
    else
      var n :| n in todo;
      Cited(n, w.cites(n, files[n], names)) + FromTexts(w, files, names, todo - {n})
  }

  function MapRef(doc: string): Ref {
    Ref(CLAUDE, Target(Map, doc, "", false))
  }

  ghost function MapRefs(docs: set<string>): seq<Ref> {
    if docs == {} then []
    else
      var d :| d in docs;
      [MapRef(d)] + MapRefs(docs - {d})
  }

  /** A doc with no directory of its own below `docs/`. */
  predicate IsTopLevel(doc: string) {
    |Slashes(doc)| == 1
  }

  function Slashes(s: string): set<nat> {
    set k: nat | k < |s| && s[k] == '/'
  }

  /** The docs the documentation map must name. */
  function ToMap(t: Tree): set<string> {
    if CLAUDE in t.files then set d | d in t.docs && IsTopLevel(d) else {}
  }

  /** `collect`, up to the order of the result. */
  ghost function Collect(w: Reader, t: Tree, names: set<string>): seq<Ref> {
    FromTexts(w, t.files, names, t.files.Keys - t.fixtures) + MapRefs(ToMap(t))
  }

  /** How often a text cites a target. */
  function Times(targets: seq<Target>, t: Target): nat {
    multiset(targets)[t]
  }

  /** How often a reference is collected. */
  function Often(w: Reader, t: Tree, names: set<string>, r: Ref): nat {
    (if r.citing in t.files && r.citing !in t.fixtures
     then Times(w.cites(r.citing, t.files[r.citing], names), r.target) else 0)
    + if r.target.doc in ToMap(t) && r == MapRef(r.target.doc) then 1 else 0
  }

  lemma {:induction false} CitedOften(citing: string, targets: seq<Target>, r: Ref)
    ensures multiset(Cited(citing, targets))[r] == if r.citing == citing then Times(targets, r.target) else 0
  {
    if targets != [] {
      var rest := targets[1..];
      CitedOften(citing, rest, r);
      assert targets == [targets[0]] + rest;
      assert Cited(citing, targets) == [Ref(citing, targets[0])] + Cited(citing, rest);
    }
  }

  lemma {:induction false} FromTextsOften(w: Reader, files: map<string, string>, names: set<string>,
                                          todo: set<string>, r: Ref)
    requires todo <= files.Keys
    ensures multiset(FromTexts(w, files, names, todo))[r]
         == if r.citing in todo then Times(w.cites(r.citing, files[r.citing], names), r.target) else 0
  {
    hide Times, Cited;
    if todo != {} {
      var n :| n in todo && FromTexts(w, files, names, todo)
                         == Cited(n, w.cites(n, files[n], names)) + FromTexts(w, files, names, todo - {n});
      CitedOften(n, w.cites(n, files[n], names), r);
      FromTextsOften(w, files, names, todo - {n}, r);
    }
  }

  lemma {:induction false} MapRefsOften(docs: set<string>, r: Ref)
    ensures multiset(MapRefs(docs))[r] == if r.target.doc in docs && r == MapRef(r.target.doc) then 1 else 0
  {
    if docs != {} {
      var d :| d in docs && MapRefs(docs) == [MapRef(d)] + MapRefs(docs - {d});
      MapRefsOften(docs - {d}, r);
      hide MapRefs;
      assert multiset([MapRef(d)] + MapRefs(docs - {d})) == multiset{MapRef(d)} + multiset(MapRefs(docs - {d}));
      assert MapRef(d).target.doc == d;
    }
  }

  lemma CollectedOften(w: Reader, t: Tree, names: set<string>, r: Ref)
    ensures multiset(Collect(w, t, names))[r] == Often(w, t, names, r)
    ensures r in Collect(w, t, names) <==> Often(w, t, names, r) > 0
  {
    hide Times, FromTexts, MapRefs;
    var a, b := FromTexts(w, t.files, names, t.files.Keys - t.fixtures), MapRefs(ToMap(t));
    FromTextsOften(w, t.files, names, t.files.Keys - t.fixtures, r);
    MapRefsOften(ToMap(t), r);
    assert multiset(a + b)[r] == multiset(a)[r] + multiset(b)[r];
    assert r in a + b <==> r in multiset(a + b);
  }

  // ---- a tree against its base -----------------------------------------------

  /** A tree with the references read under its own doc names. */
  ghost function Own(w: Reader, l: Listing): Snapshot {
    Snapshot(TreeOf(w, l), Collect(w, TreeOf(w, l), DocNames(l)))
  }

  /** `main --base`: both trees read under the doc names of either. */
  ghost function CheckOf(w: Reader, base: Listing, head: Listing): Check {
    var names := DocNames(base) + DocNames(head);
    Check(Snapshot(TreeOf(w, base), Collect(w, TreeOf(w, base), names)),
          Snapshot(TreeOf(w, head), Collect(w, TreeOf(w, head), names)))
  }

  /** How many references to a target are broken. */
  ghost function BrokenAt(w: Reader, l: Listing, target: Target): nat {
    BrokenTargets(Own(w, l).refs, Own(w, l).tree)[target]
  }

  /** What is known of the reading of references: no text makes one of the map's; a doc name that no reference of a
      text is read as may be left out; and leaving names out takes no reference to another doc away. */
  ghost predicate ReadsByName(w: Reader) {
    && (forall n, text, names, t :: t in w.cites(n, text, names) ==> t.kind != Map)
    && (forall n, text, names, more :: NoneInto(w.cites(n, text, names + more), more) ==>
          multiset(w.cites(n, text, names + more)) == multiset(w.cites(n, text, names)))
    && (forall n, text, names, more, t: Target :: t.doc !in more ==>
          Times(w.cites(n, text, names + more), t) <= Times(w.cites(n, text, names), t))
  }

  predicate NoneInto(targets: seq<Target>, docs: set<string>) {
    forall t :: t in targets ==> t.doc !in docs
  }

  // ---- counting in bags ------------------------------------------------------

  lemma {:induction false} BrokenIsLiveAndHistory(refs: seq<Ref>, t: Tree, target: Target)
    ensures BrokenTargets(refs, t)[target] == Live(refs, t)[target]
      + if Resolve(target, t) == None then multiset(refs)[Ref(CHANGELOG, target)] else 0
    decreases |refs|
  {
    hide Resolve;
    if refs != [] {
      var init, r := refs[..|refs| - 1], refs[|refs| - 1];
      assert refs == init + [r];
      BrokenIsLiveAndHistory(init, t, target);
      assert multiset(refs) == multiset(init) + multiset{r};
    }
  }

  lemma LiveGrows(a: seq<Ref>, b: seq<Ref>, t: Tree, target: Target)
    requires forall r: Ref :: r.target == target && !InHistory(r) ==> multiset(a)[r] <= multiset(b)[r]
    ensures Live(a, t)[target] <= Live(b, t)[target]
  {
    LiveCount(a, t, target);
    LiveCount(b, t, target);
    var x, y := Kept(multiset(a), t, target), Kept(multiset(b), t, target);
    hide Live, IsBroken, Kept;
    forall r
      ensures x[r] <= y[r]
    {
      assert x[r] == if Counted(r, t, target) then multiset(a)[r] else 0;
      assert y[r] == if Counted(r, t, target) then multiset(b)[r] else 0;
    }
    assert y == x + (y - x);
  }
}
