/** What a reference into the docs lands on (scripts/check/doc_refs.py). */
module DocResolve {
  import opened Chars
  import opened StringOrder

  datatype Kind = MapRow | Map | Link | Path | Anchor | Section | Quote | LineNumber

  /** What a reference names; where it is cited plays no part in what it lands on. */
  datatype Target = Target(kind: Kind, doc: string, key: string, runsOn: bool)

  /** A heading or run-in name, with what `heading_words` and `short_names` make of it in lower case. */
  datatype Heading = Heading(title: string, number: string, name: string, shorts: set<string>)

  datatype Doc = Doc(lines: seq<string>, headings: seq<Heading>, named: seq<Heading>, anchors: set<string>,
                     flat: string)

  datatype Tree = Tree(files: map<string, string>, names: set<string>, docs: map<string, Doc>,
                       mapped: set<string>, fixtures: set<string>)

  function LowerChar(c: char): char {
    if 'A' <= c <= 'Z' then c - 'A' + 'a' else c
  }

  function Lower(s: string): string {
    seq(|s|, k requires 0 <= k < |s| => LowerChar(s[k]))
  }

  // ---- heading_candidates ----------------------------------------------------

  function Exact(named: seq<Heading>, want: string): seq<string> {
    if named == [] then []
    else (if named[0].name == want then [named[0].title] else []) + Exact(named[1..], want)
  }

  function Short(named: seq<Heading>, want: string): seq<string> {
    if named == [] then []
    else (if want in named[0].shorts then [named[0].title] else []) + Short(named[1..], want)
  }

  /** The phrase runs on past the name. */
  predicate RunsPast(h: Heading, want: string) {
    h.name != "" && StartsAt(want + " ", 0, h.name + " ")
  }

  function Inside(named: seq<Heading>, want: string): seq<Heading> {
    if named == [] then []
    else (if RunsPast(named[0], want) then [named[0]] else []) + Inside(named[1..], want)
  }

  /** The order of the pairs `(len(name), title)`. */
  predicate NotLonger(a: Heading, b: Heading) {
    |a.name| < |b.name| || (|a.name| == |b.name| && AtMost(a.title, b.title))
  }

  /** `max(inside)`. */
  function Longest(hs: seq<Heading>): (h: Heading)
    requires hs != []
    ensures h in hs
  {
    if |hs| == 1 then hs[0]
    else
      var best := Longest(hs[..|hs| - 1]);
      if NotLonger(hs[|hs| - 1], best) then best else hs[|hs| - 1]
  }

  function Before(named: seq<Heading>, want: string): seq<string> {
    if named == [] then []
    else if StartsAt(named[0].name, 0, want) then [named[0].title]
    else Before(named[1..], want)
  }

  /** `heading_candidates`: the first tier that answers. */
  function Candidates(d: Doc, phrase: string, runsOn: bool): seq<string> {
    var want := Lower(phrase);
    var exact, short := Exact(d.named, want), Short(d.named, want);
    if exact != [] then exact
    else if short != [] || !runsOn then short
    else if Inside(d.named, want) != [] then [Longest(Inside(d.named, want)).title]
    else Before(d.named, want)
  }

  function HeadingNamed(d: Doc, phrase: string, runsOn: bool): Option<string> {
    if Candidates(d, phrase, runsOn) == [] then None else Some(Candidates(d, phrase, runsOn)[0])
  }

  function Numbered(hs: seq<Heading>, number: string): seq<string> {
    if hs == [] then [] else (if hs[0].number == number then [hs[0].title] else []) + Numbered(hs[1..], number)
  }

  predicate StartsWithDigit(key: string) {
    key != "" && '0' <= key[0] <= '9'
  }

  /** `carriers`: how many headings the reference could mean. */
  function Carriers(d: Doc, t: Target): nat {
    if StartsWithDigit(t.key) then |Numbered(d.headings, t.key)| else |Candidates(d, t.key, t.runsOn)|
  }

  // ---- resolve ---------------------------------------------------------------

  predicate Contains(text: string, word: string) {
    exists i :: 0 <= i <= |text| && StartsAt(text, i, word)
  }

  predicate EndsIn(s: string, tail: string) {
    |tail| <= |s| && s[|s| - |tail|..] == tail
  }

  predicate IsDoc(name: string) {
    StartsAt(name, 0, "docs/") && EndsIn(name, ".md")
  }

  function WithoutSlash(s: string): string {
    if s != "" && s[|s| - 1] == '/' then WithoutSlash(s[..|s| - 1]) else s
  }

  /** A tracked file, or a directory that holds one. */
  predicate Tracked(t: Tree, path: string) {
    path in t.names || exists n :: n in t.names && StartsAt(n, 0, path + "/")
  }

  /** `int(key)` of a key of digits. */
  function Value(key: string): nat {
    if key == "" then 0
    else 10 * Value(key[..|key| - 1]) + if '0' <= key[|key| - 1] <= '9' then (key[|key| - 1] - '0') as nat else 0
  }

  datatype Landed =
    | OnFile(doc: string)
    | OnAnchor(id: string)
    | OnHeading(title: string)
    | OnText
    | OnLine(text: string)

  function Headed(found: Option<string>): Option<Landed> {
    match found
    case None => None
    case Some(title) => Some(OnHeading(title))
  }

  function First(titles: seq<string>): Option<string> {
    if titles == [] then None else Some(titles[0])
  }

  function ResolveIn(t: Target, d: Doc): Option<Landed> {
    match t.kind
    case Path => Some(OnFile(t.doc))
    case Link => if t.key == "" then Some(OnFile(t.doc)) else if t.key in d.anchors then Some(OnAnchor(t.key)) else None
    case Anchor => if t.key in d.anchors then Some(OnAnchor(t.key)) else None
    case Section =>
      if StartsWithDigit(t.key) then Headed(First(Numbered(d.headings, t.key)))
      else Headed(HeadingNamed(d, t.key, t.runsOn))
    case Quote =>
      var title := HeadingNamed(d, t.key, false);
      if title.Some? then Headed(title) else if Contains(d.flat, t.key) then Some(OnText) else None
    case _ =>
      var n := Value(t.key);
      if 0 < n <= |d.lines| then Some(OnLine(d.lines[n - 1])) else None
  }

  /** `resolve`. */
  function Resolve(t: Target, tree: Tree): Option<Landed> {
    if t.kind == MapRow then None
    else if t.kind == Map then if t.doc in tree.mapped then Some(OnFile(t.doc)) else None
    else if t.kind == Link && !IsDoc(t.doc) then
      if Tracked(tree, WithoutSlash(t.doc)) then Some(OnFile(t.doc)) else None
    else if t.doc !in tree.docs then None
    else ResolveIn(t, tree.docs[t.doc])
  }

  // ---- what the tiers promise ------------------------------------------------

  lemma {:induction false} ExactIs(named: seq<Heading>, want: string, title: string)
    ensures title in Exact(named, want)
      <==> exists k :: 0 <= k < |named| && named[k].name == want && named[k].title == title
  {
    if named != [] {
      ExactIs(named[1..], want, title);
      assert forall k :: 1 <= k < |named| ==> named[k] == named[1..][k - 1];
    }
  }

  lemma {:induction false} InsideIs(named: seq<Heading>, want: string, h: Heading)
    ensures h in Inside(named, want) <==> h in named && RunsPast(h, want)
  {
    hide RunsPast;
    if named != [] {
      InsideIs(named[1..], want, h);
      assert named == [named[0]] + named[1..];
    }
  }

  lemma {:induction false} LongestIsMax(hs: seq<Heading>, h: Heading)
    requires h in hs
    ensures NotLonger(h, Longest(hs))
    decreases |hs|
  {
    AtMostTotal(h.title, h.title);
    if |hs| > 1 {
      var init, last := hs[..|hs| - 1], hs[|hs| - 1];
      assert hs == init + [last];
      if h in init { LongestIsMax(init, h); }
      AtMostTotal(last.title, Longest(init).title);
      if !NotLonger(last, Longest(init)) && h in init {
        if |h.name| == |Longest(init).name| == |last.name| {
          AtMostTransitive(h.title, Longest(init).title, last.title);
        }
      }
    }
  }

  /** Neither a title nor a short name is `want`. */
  predicate NoTitleIs(d: Doc, want: string) {
    Exact(d.named, want) == [] && Short(d.named, want) == []
  }

  /** An exact title silences the other tiers; a phrase that may run on names the longest title it runs past. */
  lemma TiersAnswerInOrder(d: Doc, phrase: string, runsOn: bool, h: Heading)
    requires h in d.named
    ensures h.name == Lower(phrase) ==>
      h.title in Candidates(d, phrase, runsOn)
      && forall k :: 0 <= k < |Candidates(d, phrase, runsOn)| ==>
           exists g :: g in d.named && g.title == Candidates(d, phrase, runsOn)[k] && g.name == Lower(phrase)
    ensures runsOn && RunsPast(h, Lower(phrase)) && NoTitleIs(d, Lower(phrase)) ==>
      exists g :: g in d.named && RunsPast(g, Lower(phrase)) && NotLonger(h, g)
        && Candidates(d, phrase, runsOn) == [g.title]
  {
    hide Lower, NotLonger, RunsPast;
    var want := Lower(phrase);
    if h.name == want {
      ExactIs(d.named, want, h.title);
      var k :| 0 <= k < |d.named| && d.named[k] == h;
      forall j | 0 <= j < |Exact(d.named, want)|
        ensures exists g :: g in d.named && g.title == Exact(d.named, want)[j] && g.name == want
      {
        ExactIs(d.named, want, Exact(d.named, want)[j]);
      }
    }
    if runsOn && RunsPast(h, want) && NoTitleIs(d, want) {
      InsideIs(d.named, want, h);
      var g := Longest(Inside(d.named, want));
      InsideIs(d.named, want, g);
      LongestIsMax(Inside(d.named, want), h);
      assert Candidates(d, phrase, runsOn) == [g.title];
    }
  }

  /** Section references: what resolves is what has a carrier. A quoted phrase too, unless it starts with a
      digit: then headings are counted by section number. */
  lemma ResolvedHasCarrier(t: Target, d: Doc)
    requires t.kind == Section || (t.kind == Quote && !t.runsOn && !StartsWithDigit(t.key))
    ensures (ResolveIn(t, d).Some? && ResolveIn(t, d).value != OnText) <==> Carriers(d, t) >= 1
  {
    hide Candidates, Numbered, Contains;
  }

  /** A quote that several headings answer to counts as ambiguous, unless it starts with a digit and no two
      headings have it for a section number. */
  lemma DigitQuoteIsCountedByNumber(d: Doc, t: Target)
    requires t.kind == Quote && !t.runsOn && |Candidates(d, t.key, false)| >= 2
    ensures Carriers(d, t) >= 2 <==> !StartsWithDigit(t.key) || |Numbered(d.headings, t.key)| >= 2
  {
    hide Candidates, Numbered;
  }

  /** Two headings of one title: a quote of it that starts with a digit has no carrier, so it is not ambiguous. */
  lemma DigitQuoteHasNoCarrier(title: string)
    requires StartsWithDigit(title)
    ensures var h := Heading(title, "", Lower(title), {});
      var d := Doc([], [h, h], [h, h], {}, "");
      var t := Target(Quote, "", title, false);
      ResolveIn(t, d) == Some(OnHeading(title)) && |Candidates(d, title, false)| == 2 && Carriers(d, t) == 0
  {
    hide Lower;
    var h := Heading(title, "", Lower(title), {});
    assert [h, h][1..] == [h] && [h][1..] == [];
    assert Exact([h], Lower(title)) == [title];
    assert Exact([h, h], Lower(title)) == [title, title];
    assert Numbered([h], title) == [];
  }

  /** Two headings with their own section number for a name: a quote of the number counts them both. */
  lemma DigitQuoteIsCounted(number: string)
    requires StartsWithDigit(number)
    ensures var h := Heading(number + " " + number, number, Lower(number), {});
      var d := Doc([], [h, h], [h, h], {}, "");
      |Candidates(d, number, false)| == 2 && Carriers(d, Target(Quote, "", number, false)) == 2
  {
    hide Lower, Short;
    var h := Heading(number + " " + number, number, Lower(number), {});
    assert [h, h][1..] == [h] && [h][1..] == [];
    assert Exact([h], Lower(number)) == [h.title];
    assert Exact([h, h], Lower(number)) == [h.title] + [h.title];
    assert Numbered([h], number) == [h.title];
    assert Numbered([h, h], number) == [h.title] + [h.title];
  }
}
