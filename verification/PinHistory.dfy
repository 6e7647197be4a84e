/** The pin list as a ratchet: what one gated commit may do to it, and what that means
    for a whole history (scripts/report/scripts_gate.py). */
module PinHistory {
  import opened Chars
  import opened StringOrder
  import opened PinList

  // ---- paths at the base -----------------------------------------------------

  function Rename(renames: map<string, string>, path: string): string {
    if path in renames then renames[path] else path
  }

  /** `path.split("+")`. */
  function Halves(path: string): (r: seq<string>)
    ensures r != []
  {
    if path == "" then [""]
    else
      var r := Halves(path[1..]);
      if path[0] == '+' then [""] + r else [[path[0]] + r[0]] + r[1..]
  }

  /** `"+".join(parts)`. */
  function Pair(parts: seq<string>): string {
    if parts == [] then "" else if |parts| == 1 then parts[0] else parts[0] + "+" + Pair(parts[1..])
  }

  function RenameAll(renames: map<string, string>, parts: seq<string>): (r: seq<string>)
    ensures |r| == |parts|
  {
    if parts == [] then [] else [Rename(renames, parts[0])] + RenameAll(renames, parts[1..])
  }

  /** The path a pin had at the base: a moved file's old path; for a pair, both old paths in order. */
  function BasePath(rule: string, path: string, renames: map<string, string>): string {
    if rule == TWIN then Pair(SortBy(Self, RenameAll(renames, Halves(path)))) else Rename(renames, path)
  }

  // ---- pin_growth ------------------------------------------------------------

  /** Members the base did not pin. A member of `lib-run` is a path, and may have moved. */
  function AddedMembers(pin: Pin, base: Pin, renames: map<string, string>): set<string> {
    set m | m in pin.codes && m !in base.codes && !(pin.rule == LIB_RUN && Rename(renames, m) in base.codes)
  }

  function PinGrowth(g: Rules, pin: Pin, before: Pins, renames: map<string, string>): seq<Report> {
    if before.pinnable.None? || pin.rule !in before.pinnable.value then []
    else
      var base := FindPin(before.pins, Key(pin.rule, BasePath(pin.rule, pin.path, renames)));
      if base.None? then [NewPin(PinKey(pin))]
      else
        var added := AddedMembers(pin, base.value, renames);
        (if pin.rule in g.figures && Grows(pin.figure, base.value.figure) then [FigureAboveBase(PinKey(pin))] else [])
        + if added == {} then [] else [NewMembers(PinKey(pin), added)]
  }

  function PinsGrowth(g: Rules, pins: seq<Pin>, before: Pins, renames: map<string, string>): seq<Report> {
    if pins == [] then []
    else PinsGrowth(g, pins[..|pins| - 1], before, renames) + PinGrowth(g, pins[|pins| - 1], before, renames)
  }

  /** Nothing is compared when either side has no list. */
  function Growth(g: Rules, pins: Pins, before: Pins, renames: map<string, string>): seq<Report> {
    if !pins.present || !before.present then [] else PinsGrowth(g, pins.pins, before, renames)
  }

  method CheckGrowth(g: Rules, pins: Pins, before: Pins, renames: map<string, string>) returns (out: seq<Report>)
    ensures out == Growth(g, pins, before, renames)
  {
    hide PinGrowth;
    if !pins.present || !before.present {
      return [];
    }
    out := [];
    for k := 0 to |pins.pins|
      invariant out == PinsGrowth(g, pins.pins[..k], before, renames)
    {
      assert pins.pins[..k + 1][..k] == pins.pins[..k];
      out := out + PinGrowth(g, pins.pins[k], before, renames);
    }
    assert pins.pins[..|pins.pins|] == pins.pins;
  }

  lemma {:induction false} NoGrowthAtPin(g: Rules, pins: seq<Pin>, before: Pins, renames: map<string, string>, k: nat)
    requires k < |pins| && PinsGrowth(g, pins, before, renames) == []
    ensures PinGrowth(g, pins[k], before, renames) == []
  {
    if k < |pins| - 1 {
      NoGrowthAtPin(g, pins[..|pins| - 1], before, renames, k);
    }
  }

  // ---- one gated commit ------------------------------------------------------

  /** What a commit is gated on: its violations and its list. */
  datatype Commit = Commit(found: seq<Violation>, pins: Pins)

  /** `load_pins`: a list that is there must name the pinnable rules exactly. */
  function Loaded(g: Rules, pins: Pins): Pins {
    if !pins.present || pins.pinnable == Some(g.pinnable) then pins
    else pins.(problems := pins.problems + ["pin-header"])
  }

  predicate Clean(g: Rules, c: Commit) {
    Reports(g, c.found, Loaded(g, c.pins)) == []
  }

  /** Both commits pass the gate, `cur` with `prev` as its base; a list that is not there holds no pin. */
  predicate Gated(g: Rules, prev: Commit, cur: Commit, renames: map<string, string>) {
    && Clean(g, prev) && Clean(g, cur)
    && (!prev.pins.present ==> prev.pins.pins == []) && (!cur.pins.present ==> cur.pins.pins == [])
    && Growth(g, cur.pins, prev.pins, renames) == []
  }

  /** A gated commit that does not bring in its list while it violates something. */
  predicate Step(g: Rules, prev: Commit, cur: Commit, renames: map<string, string>) {
    Gated(g, prev, cur, renames) && (prev.pins.present || cur.found == [])
  }

  function Group(c: Commit, key: Key): seq<Violation> {
    GroupOf(c.found, key)
  }

  predicate Violated(c: Commit, key: Key) {
    Group(c, key) != []
  }

  function BaseKey(key: Key, renames: map<string, string>): Key {
    Key(key.rule, BasePath(key.rule, key.path, renames))
  }

  lemma {:induction false} FoundPin(pins: seq<Pin>, key: Key)
    ensures FindPin(pins, key).Some? ==>
      exists k :: 0 <= k < |pins| && pins[k] == FindPin(pins, key).value && PinKey(pins[k]) == key
  {
    if pins != [] && PinKey(pins[0]) != key {
      FoundPin(pins[1..], key);
      if FindPin(pins, key).Some? {
        var k :| 0 <= k < |pins[1..]| && pins[1..][k] == FindPin(pins, key).value && PinKey(pins[1..][k]) == key;
        assert pins[k + 1] == pins[1..][k];
      }
    }
  }

  /** In a clean commit, what is violated is pinned exactly, and what is pinned is violated. */
  lemma CleanPins(g: Rules, c: Commit, key: Key)
    requires Clean(g, c)
    ensures Violated(c, key) ==> Accepts(g, key, Group(c, key), FindPin(c.pins.pins, key))
    ensures FindPin(c.pins.pins, key).Some? ==> Violated(c, key)
    ensures c.pins.present ==> c.pins.pinnable == Some(g.pinnable)
  {
    NothingActiveIffExact(g, c.found, Loaded(g, c.pins));
    KeysAreViolated(c.found, key);
    FoundPin(c.pins.pins, key);
    assert Loaded(g, c.pins).pins == c.pins.pins;
    assert Loaded(g, c.pins).problems == [];
  }

  /** The pin of a violated key had a pin at the base, and did not grow beyond it. */
  lemma PinHadBase(g: Rules, prev: Commit, cur: Commit, renames: map<string, string>, key: Key)
    requires Step(g, prev, cur, renames) && FindPin(cur.pins.pins, key).Some? && key.rule in g.pinnable
    ensures var pin, base := FindPin(cur.pins.pins, key).value, FindPin(prev.pins.pins, BaseKey(key, renames));
      && PinKey(pin) == key && base.Some? && AddedMembers(pin, base.value, renames) == {}
      && (key.rule in g.figures ==> !Grows(pin.figure, base.value.figure))
  {
    FoundPin(cur.pins.pins, key);
    CleanPins(g, cur, key);
    assert cur.found != [] && cur.pins.pins != [];
    var pin := FindPin(cur.pins.pins, key).value;
    var k :| 0 <= k < |cur.pins.pins| && cur.pins.pins[k] == pin && PinKey(pin) == key;
    NoGrowthAtPin(g, cur.pins.pins, prev.pins, renames, k);
    CleanPins(g, prev, key);
  }

  /** What a group shows after a step is at most what its base showed before it. */
  ghost predicate AtMostBase(g: Rules, prev: Commit, cur: Commit, renames: map<string, string>, key: Key) {
    var now, before := Group(cur, key), Group(prev, BaseKey(key, renames));
    && before != []
    && (key.rule in g.figures ==> !Grows(Reduce(g.figures[key.rule], now), Reduce(g.figures[key.rule], before)))
    && (key.rule in g.sets && key.rule !in g.figures ==>
          forall m :: m in Members(now) ==>
            m in Members(before) || (key.rule == LIB_RUN && Rename(renames, m) in Members(before)))
  }

  /** One gated commit: every violation was there at the base under its old path, no figure grew,
      and no member was added. */
  lemma StepShrinks(g: Rules, prev: Commit, cur: Commit, renames: map<string, string>, key: Key)
    requires Step(g, prev, cur, renames) && Violated(cur, key)
    ensures AtMostBase(g, prev, cur, renames, key) && Violated(prev, BaseKey(key, renames))
  {
    CleanPins(g, cur, key);
    PinHadBase(g, prev, cur, renames, key);
    CleanPins(g, prev, BaseKey(key, renames));
    var pin, base := FindPin(cur.pins.pins, key).value, FindPin(prev.pins.pins, BaseKey(key, renames)).value;
    hide Group, Clean, Growth, FindPin;
    forall m | m in pin.codes
      ensures m in base.codes || (key.rule == LIB_RUN && Rename(renames, m) in base.codes)
    {
      assert m !in AddedMembers(pin, base, renames);
    }
  }

  // ---- a list that was not there ---------------------------------------------

  /** A commit without a list passes the gate only when nothing at all is violated. */
  lemma NoListNoViolation(g: Rules, c: Commit)
    requires Clean(g, c) && !c.pins.present && c.pins.pins == []
    ensures c.found == []
  {
    hide Clean;
    if c.found != [] {
      var key := KeyOf(c.found[|c.found| - 1]);
      assert Violated(c, key);
      CleanPins(g, c, key);
    }
  }

  /** Of the commits that pass the gate, exactly the steps shrink: a commit keeps every violation at its base
      unless it brings in its list while it violates something. */
  lemma ShrinksIffListStays(g: Rules, prev: Commit, cur: Commit, renames: map<string, string>)
    requires Gated(g, prev, cur, renames)
    ensures (forall key :: Violated(cur, key) ==> Violated(prev, BaseKey(key, renames)))
        <==> prev.pins.present || cur.found == []
    ensures (forall key :: Violated(cur, key) ==> AtMostBase(g, prev, cur, renames, key))
        <==> Step(g, prev, cur, renames)
  {
    hide Clean, Growth, Grows, Reduce, Members;
    if prev.pins.present || cur.found == [] {
      forall key | Violated(cur, key)
        ensures AtMostBase(g, prev, cur, renames, key)
      {
        StepShrinks(g, prev, cur, renames, key);
      }
    } else {
      NoListNoViolation(g, prev);
      var key := KeyOf(cur.found[|cur.found| - 1]);
      assert Violated(cur, key) && !Violated(prev, BaseKey(key, renames));
    }
  }

  /** The pin that holds one violation. */
  function PinOf(g: Rules, v: Violation): Pin {
    Pin(v.rule, KeyOf(v).path, {v.key}, if v.rule in g.figures then Reduce(g.figures[v.rule], [v]) else [])
  }

  function Pinned(g: Rules, vs: seq<Violation>): Commit {
    Commit(vs, Pins(true, seq(|vs|, i requires 0 <= i < |vs| => PinOf(g, vs[i])), Some(g.pinnable), []))
  }

  lemma GroupsOfOne(v: Violation, key: Key)
    ensures KeysOf([v]) == [KeyOf(v)]
    ensures GroupOf([v], key) == if key == KeyOf(v) then [v] else []
  {
    assert [v][..0] == [];
    assert GroupOf([v][..0], key) == [];
  }

  lemma OneAccepted(g: Rules, v: Violation)
    requires v.rule in g.pinnable
    ensures Accepts(g, KeyOf(v), [v], Some(PinOf(g, v)))
  {
    hide Reduce;
    assert Members([v]) == {v.key};
  }

  lemma CleanIfExact(g: Rules, vs: seq<Violation>, keys: seq<Key>, pins: seq<Pin>)
    requires Pinned(g, vs).pins.pins == pins && KeysOf(vs) == keys
    requires AllAccepted(g, vs, pins, keys) && AllViolated(g, keys, pins)
    ensures Clean(g, Pinned(g, vs))
  {
    NothingActiveIffExact(g, vs, Pinned(g, vs).pins);
    hide AllAccepted, AllViolated, Reports, KeysOf;
  }

  lemma OnePinned(g: Rules, v: Violation)
    requires v.rule in g.pinnable
    ensures Clean(g, Pinned(g, [v])) && Violated(Pinned(g, [v]), KeyOf(v))
  {
    GroupsOfOne(v, KeyOf(v));
    OneAccepted(g, v);
    PinOfIs(g, v);
    assert Pinned(g, [v]).pins.pins == [PinOf(g, v)];
    hide Clean, KeysOf, GroupOf, Accepts, PinOf, KeyOf, Reduce;
    CleanIfExact(g, [v], [KeyOf(v)], [PinOf(g, v)]);
  }

  lemma PinOfIs(g: Rules, v: Violation)
    ensures PinKey(PinOf(g, v)) == KeyOf(v) && PinOf(g, v).rule == v.rule
  {
  }

  /** Any violation of a rule that can be pinned passes in together with a list where the base had none. */
  lemma ListBroughtBack(g: Rules, v: Violation, renames: map<string, string>)
    requires v.rule in g.pinnable
    ensures var prev, cur := Commit([], Pins(false, [], None, [])), Pinned(g, [v]);
      && Gated(g, prev, cur, renames)
      && Violated(cur, KeyOf(v)) && forall key :: !Violated(prev, key)
  {
    OnePinned(g, v);
  }

  // ---- a whole history -------------------------------------------------------

  /** Commits that each pass the gate on top of the one before; `moves[k]` leads from commit k + 1 back to commit k. */
  predicate History(g: Rules, commits: seq<Commit>, moves: seq<map<string, string>>) {
    && |commits| == |moves| + 1
    && forall k :: 0 <= k < |moves| ==> Step(g, commits[k], commits[k + 1], moves[k])
  }

  /** The key a violation had at the first commit. */
  function Origin(key: Key, moves: seq<map<string, string>>): Key
    decreases |moves|
  {
    if moves == [] then key else Origin(BaseKey(key, moves[|moves| - 1]), moves[..|moves| - 1])
  }

  /** `m` is `o`, kept at every commit under its name or moved from its old path. */
  predicate Descends(m: string, moves: seq<map<string, string>>, o: string)
    decreases |moves|
  {
    if moves == [] then m == o
    else
      var before := moves[..|moves| - 1];
      Descends(m, before, o) || Descends(Rename(moves[|moves| - 1], m), before, o)
  }

  /** What the last group shows is at most what the first one showed. */
  ghost predicate AtMostOrigin(g: Rules, first: Commit, last: Commit, moves: seq<map<string, string>>, key: Key) {
    var now, then_ := Group(last, key), Group(first, Origin(key, moves));
    && then_ != []
    && (key.rule in g.figures ==> !Grows(Reduce(g.figures[key.rule], now), Reduce(g.figures[key.rule], then_)))
    && (key.rule in g.sets && key.rule !in g.figures ==>
          if key.rule != LIB_RUN then Members(now) <= Members(then_)
          else forall m :: m in Members(now) ==> exists o :: o in Members(then_) && Descends(m, moves, o))
  }

  lemma OriginThroughStep(g: Rules, first: Commit, prev: Commit, cur: Commit, moves: seq<map<string, string>>,
                          renames: map<string, string>, key: Key)
    requires AtMostBase(g, prev, cur, renames, key)
    requires AtMostOrigin(g, first, prev, moves, BaseKey(key, renames))
    ensures AtMostOrigin(g, first, cur, moves + [renames], key)
  {
    assert (moves + [renames])[..|moves|] == moves;
    var b := BaseKey(key, renames);
    var now, mid, then_ := Group(cur, key), Group(prev, b), Group(first, Origin(b, moves));
    hide Group, Grows, Reduce, BaseKey, Members;
    if key.rule in g.figures {
      var r := g.figures[key.rule];
      GrowsTransitive(Reduce(r, now), Reduce(r, mid), Reduce(r, then_));
    } else if key.rule in g.sets && key.rule == LIB_RUN {
      forall m | m in Members(now)
        ensures exists o :: o in Members(then_) && Descends(m, moves + [renames], o)
      {
        var n := if m in Members(mid) then m else Rename(renames, m);
        var o :| o in Members(then_) && Descends(n, moves, o);
        assert Descends(m, moves + [renames], o);
      }
    }
  }

  lemma OwnOrigin(g: Rules, c: Commit, key: Key)
    requires Violated(c, key)
    ensures AtMostOrigin(g, c, c, [], key)
  {
    if key.rule in g.figures { GrowsIsNotReflexive(Reduce(g.figures[key.rule], Group(c, key))); }
    forall m | m in Members(Group(c, key))
      ensures exists o :: o in Members(Group(c, key)) && Descends(m, [], o)
    {
      assert Descends(m, [], m);
    }
  }

  /** Over any history: every violation of commit `n` goes back to one of the first under the same
      rule, no figure grew, and no member was added. */
  lemma {:induction false} HistoryShrinks(g: Rules, commits: seq<Commit>, moves: seq<map<string, string>>,
                                          n: nat, key: Key)
    requires History(g, commits, moves) && n <= |moves| && Violated(commits[n], key)
    ensures AtMostOrigin(g, commits[0], commits[n], moves[..n], key)
  {
    hide AtMostOrigin, AtMostBase, Violated, Step, BaseKey;
    if n == 0 {
      OwnOrigin(g, commits[0], key);
      assert moves[..0] == [];
    } else {
      HistoryStep(g, commits, moves, n - 1, key);
      HistoryShrinks(g, commits, moves, n - 1, BaseKey(key, moves[n - 1]));
      OriginThroughStep(g, commits[0], commits[n - 1], commits[n], moves[..n - 1], moves[n - 1], key);
      assert moves[..n] == moves[..n - 1] + [moves[n - 1]];
    }
  }

  lemma HistoryStep(g: Rules, commits: seq<Commit>, moves: seq<map<string, string>>, n: nat, key: Key)
    requires History(g, commits, moves) && n < |moves| && Violated(commits[n + 1], key)
    ensures AtMostBase(g, commits[n], commits[n + 1], moves[n], key) && Violated(commits[n], BaseKey(key, moves[n]))
  {
    StepShrinks(g, commits[n], commits[n + 1], moves[n], key);
  }

  // ---- how many violations ---------------------------------------------------

  function PathsOf(c: Commit, rule: string): set<string> {
    set key | key in KeysOf(c.found) && key.rule == rule :: key.path
  }

  lemma PathIsViolated(c: Commit, rule: string, path: string)
    ensures path in PathsOf(c, rule) <==> Violated(c, Key(rule, path))
  {
    KeysAreViolated(c.found, Key(rule, path));
    assert path in PathsOf(c, rule) ==> Key(rule, path) in KeysOf(c.found);
  }

  /** No two violated paths of a rule come from one path of the base. */
  predicate DistinctBases(c: Commit, rule: string, renames: map<string, string>) {
    forall p, q :: p in PathsOf(c, rule) && q in PathsOf(c, rule) ==>
      BasePath(rule, p, renames) == BasePath(rule, q, renames) ==> p == q
  }

  lemma {:induction false} InjectionBounds(xs: set<string>, ys: set<string>, f: string -> string)
    requires forall x :: x in xs ==> f(x) in ys
    requires forall x, y :: x in xs && y in xs && f(x) == f(y) ==> x == y
    ensures |xs| <= |ys|
  {
    if xs != {} {
      var x :| x in xs;
      InjectionBounds(xs - {x}, ys - {f(x)}, f);
    }
  }

  lemma StepCount(g: Rules, prev: Commit, cur: Commit, renames: map<string, string>, rule: string)
    requires Step(g, prev, cur, renames) && DistinctBases(cur, rule, renames)
    ensures |PathsOf(cur, rule)| <= |PathsOf(prev, rule)|
  {
    hide BasePath;
    var f := p => BasePath(rule, p, renames);
    forall p | p in PathsOf(cur, rule)
      ensures f(p) in PathsOf(prev, rule)
    {
      PathIsViolated(cur, rule, p);
      StepShrinks(g, prev, cur, renames, Key(rule, p));
      PathIsViolated(prev, rule, f(p));
    }
    hide PathsOf;
    InjectionBounds(PathsOf(cur, rule), PathsOf(prev, rule), f);
  }

  /** Over any history whose moves keep old paths apart, a rule is never violated at more paths than at first. */
  lemma {:induction false} HistoryCount(g: Rules, commits: seq<Commit>, moves: seq<map<string, string>>, n: nat,
                                        rule: string)
    requires History(g, commits, moves) && n <= |moves|
    requires forall k :: 0 <= k < n ==> DistinctBases(commits[k + 1], rule, moves[k])
    ensures |PathsOf(commits[n], rule)| <= |PathsOf(commits[0], rule)|
  {
    hide PathsOf, DistinctBases, Step;
    if n > 0 {
      assert Step(g, commits[n - 1], commits[n - 1 + 1], moves[n - 1]);
      HistoryCount(g, commits, moves, n - 1, rule);
      StepCount(g, commits[n - 1], commits[n], moves[n - 1], rule);
    }
  }

  // ---- when moves keep old paths apart ---------------------------------------

  /** No two files of the tree have one old path, and no old path holds the `+` that joins a pair. */
  predicate CleanMoves(files: set<string>, renames: map<string, string>) {
    && (forall p, q :: p in files && q in files && Rename(renames, p) == Rename(renames, q) ==> p == q)
    && (forall p :: p in renames ==> '+' !in renames[p])
  }

  /** No two moved files have one old path. */
  predicate Injective(renames: map<string, string>) {
    forall p, q :: p in renames && q in renames && renames[p] == renames[q] ==> p == q
  }

  /** The moves `git diff -M` lists: each from a path of the base that is tracked no more to one the base did not
      have, and no path is moved twice. */
  predicate GitMoves(renames: map<string, string>, files: set<string>) {
    Injective(renames) && renames.Keys !! files && renames.Values <= files
  }

  /** Injective moves keep the old paths of a tree apart exactly when no file moved from a path that is a file
      again without having moved there itself. */
  lemma ApartIffNoneKept(files: set<string>, renames: map<string, string>)
    requires Injective(renames)
    ensures (forall p, q :: p in files && q in files && Rename(renames, p) == Rename(renames, q) ==> p == q)
      <==> forall p :: p in files && p in renames && renames[p] in files ==> renames[p] in renames
  {
    if p :| p in files && p in renames && renames[p] in files && renames[p] !in renames {
      assert Rename(renames, p) == Rename(renames, renames[p]) && p != renames[p];
    }
  }

  /** Moves whose old paths have left the tree are clean. */
  lemma MovedAwayIsClean(files: set<string>, renames: map<string, string>)
    requires Injective(renames) && forall p :: p in renames ==> renames[p] !in files && '+' !in renames[p]
    ensures CleanMoves(files, renames)
  {
    ApartIffNoneKept(files, renames);
  }

  predicate AllIn(parts: seq<string>, files: set<string>) {
    forall k :: 0 <= k < |parts| ==> parts[k] in files
  }

  predicate NoPlus(parts: seq<string>) {
    forall k :: 0 <= k < |parts| ==> '+' !in parts[k]
  }

  lemma {:induction false} HalvesHoldNoPlus(path: string)
    ensures NoPlus(Halves(path)) && Pair(Halves(path)) == path
  {
    if path != "" {
      var r := Halves(path[1..]);
      HalvesHoldNoPlus(path[1..]);
      assert path == [path[0]] + path[1..];
      if path[0] == '+' {
        assert ([""] + r)[1..] == r;
        assert Pair(Halves(path)) == "" + "+" + Pair(r);
      } else {
        var s := [[path[0]] + r[0]] + r[1..];
        assert s[1..] == r[1..];
        if |r| == 1 { assert Pair(s) == [path[0]] + r[0]; }
        else { assert Pair(s) == [path[0]] + r[0] + "+" + Pair(r[1..]); }
      }
    }
  }

  lemma {:induction false} HalvesOfPrefixed(part: string, rest: string)
    requires '+' !in part
    ensures Halves(part + "+" + rest) == [part] + Halves(rest)
    ensures Halves(part) == [part]
  {
    if part == "" {
      assert (part + "+" + rest)[1..] == rest;
    } else {
      HalvesOfPrefixed(part[1..], rest);
      assert (part + "+" + rest)[1..] == part[1..] + "+" + rest;
      assert part == [part[0]] + part[1..];
    }
  }

  lemma {:induction false} HalvesUndoPair(parts: seq<string>)
    requires parts != [] && NoPlus(parts)
    ensures Halves(Pair(parts)) == parts
  {
    HalvesOfPrefixed(parts[0], Pair(parts[1..]));
    if |parts| > 1 {
      HalvesUndoPair(parts[1..]);
    }
  }

  lemma {:induction false} RenameKeepsCounts(files: set<string>, renames: map<string, string>,
                                             parts: seq<string>, x: string)
    requires CleanMoves(files, renames) && AllIn(parts, files) && x in files
    ensures multiset(RenameAll(renames, parts))[Rename(renames, x)] == multiset(parts)[x]
  {
    if parts != [] {
      RenameKeepsCounts(files, renames, parts[1..], x);
      assert parts == [parts[0]] + parts[1..];
      assert parts[0] in files;
      assert Rename(renames, parts[0]) == Rename(renames, x) <==> parts[0] == x;
      hide Rename, CleanMoves;
    }
  }

  lemma {:induction false} RenameHoldsNoPlus(files: set<string>, renames: map<string, string>, parts: seq<string>)
    requires CleanMoves(files, renames) && NoPlus(parts)
    ensures NoPlus(RenameAll(renames, parts))
  {
    if parts != [] {
      RenameHoldsNoPlus(files, renames, parts[1..]);
    }
  }

  lemma SameRenamedCounts(files: set<string>, renames: map<string, string>, a: seq<string>, b: seq<string>)
    requires CleanMoves(files, renames) && AllIn(a, files) && AllIn(b, files)
    requires multiset(RenameAll(renames, a)) == multiset(RenameAll(renames, b))
    ensures multiset(a) == multiset(b)
  {
    forall x
      ensures multiset(a)[x] == multiset(b)[x]
    {
      if x in files {
        RenameKeepsCounts(files, renames, a, x);
        RenameKeepsCounts(files, renames, b, x);
      } else {
        assert x !in a && x !in b;
      }
    }
  }

  /** The sorted pairs of two twins that had one pair at the base are one pair. */
  lemma PairsStayApart(files: set<string>, renames: map<string, string>, p: string, q: string)
    requires CleanMoves(files, renames) && AllIn(Halves(p), files) && AllIn(Halves(q), files)
    requires SortedBy(Self, Halves(p)) && SortedBy(Self, Halves(q))
    requires BasePath(TWIN, p, renames) == BasePath(TWIN, q, renames)
    ensures p == q
  {
    var a, b := Halves(p), Halves(q);
    HalvesHoldNoPlus(p);
    HalvesHoldNoPlus(q);
    RenameHoldsNoPlus(files, renames, a);
    RenameHoldsNoPlus(files, renames, b);
    SortedPairsAgree(RenameAll(renames, a), RenameAll(renames, b));
    SameRenamedCounts(files, renames, a, b);
    SortedIsUnique(a, b);
  }

  lemma SortedPairsAgree(a: seq<string>, b: seq<string>)
    requires a != [] && b != [] && NoPlus(a) && NoPlus(b)
    requires Pair(SortBy(Self, a)) == Pair(SortBy(Self, b))
    ensures multiset(a) == multiset(b)
  {
    SortedHoldsNoPlus(a);
    SortedHoldsNoPlus(b);
    HalvesUndoPair(SortBy(Self, a));
    HalvesUndoPair(SortBy(Self, b));
  }

  lemma SortedHoldsNoPlus(a: seq<string>)
    requires a != [] && NoPlus(a)
    ensures SortBy(Self, a) != [] && NoPlus(SortBy(Self, a)) && multiset(SortBy(Self, a)) == multiset(a)
  {
    SortBySorts(Self, a);
    var s := SortBy(Self, a);
    assert |multiset(s)| == |multiset(a)|;
    forall k | 0 <= k < |s|
      ensures '+' !in s[k]
    {
      assert s[k] in multiset(s);
      assert s[k] in a;
    }
  }

  /** Moves that give no two files one old path keep the bases of every rule apart, pairs included. */
  lemma CleanMovesKeepApart(c: Commit, rule: string, files: set<string>, renames: map<string, string>)
    requires CleanMoves(files, renames)
    requires forall p :: p in PathsOf(c, rule) ==>
      if rule == TWIN then SortedBy(Self, Halves(p)) && AllIn(Halves(p), files) else p in files
    ensures DistinctBases(c, rule, renames)
  {
    forall p, q | p in PathsOf(c, rule) && q in PathsOf(c, rule)
      && BasePath(rule, p, renames) == BasePath(rule, q, renames)
      ensures p == q
    {
      if rule == TWIN { PairsStayApart(files, renames, p, q); }
    }
  }

  lemma GroupsOfTwo(v: Violation, w: Violation, key: Key)
    requires KeyOf(v) != KeyOf(w)
    ensures KeysOf([v, w]) == [KeyOf(v), KeyOf(w)]
    ensures GroupOf([v, w], key) == if key == KeyOf(v) then [v] else if key == KeyOf(w) then [w] else []
  {
    GroupsOfOne(v, key);
    assert [v, w][..1] == [v];
    assert KeysOf([v, w]) == KeysOf([v]) + [KeyOf(w)];
  }

  lemma FoundOfTwo(p: Pin, q: Pin)
    requires PinKey(p) != PinKey(q)
    ensures FindPin([p, q], PinKey(p)) == Some(p) && FindPin([p, q], PinKey(q)) == Some(q)
  {
    assert [p, q][1..] == [q];
  }

  lemma BothAccepted(g: Rules, v: Violation, w: Violation)
    requires v.rule in g.pinnable && w.rule in g.pinnable && KeyOf(v) != KeyOf(w)
    ensures AllAccepted(g, [v, w], [PinOf(g, v), PinOf(g, w)], [KeyOf(v), KeyOf(w)])
  {
    hide KeysOf, GroupOf, FindPin, Accepts, PinOf, KeyOf;
    PinOfIs(g, v);
    PinOfIs(g, w);
    FoundOfTwo(PinOf(g, v), PinOf(g, w));
    GroupsOfTwo(v, w, KeyOf(v));
    GroupsOfTwo(v, w, KeyOf(w));
    OneAccepted(g, v);
    OneAccepted(g, w);
  }

  lemma TwoPinned(g: Rules, v: Violation, w: Violation)
    requires v.rule in g.pinnable && w.rule in g.pinnable && KeyOf(v) != KeyOf(w)
    ensures Clean(g, Pinned(g, [v, w]))
  {
    hide Clean, KeysOf, GroupOf, Accepts, AllAccepted, PinOf, KeyOf, Reduce;
    var pins, keys := [PinOf(g, v), PinOf(g, w)], [KeyOf(v), KeyOf(w)];
    assert Pinned(g, [v, w]).pins.pins == pins;
    PinOfIs(g, v);
    PinOfIs(g, w);
    GroupsOfTwo(v, w, KeyOf(v));
    BothAccepted(g, v, w);
    assert AllViolated(g, keys, pins) by { assert PinKey(pins[0]) == keys[0] && PinKey(pins[1]) == keys[1]; }
    CleanIfExact(g, [v, w], keys, pins);
  }

  lemma NoGrowthOfTwo(g: Rules, p: Pin, q: Pin, before: Pins, renames: map<string, string>)
    requires PinGrowth(g, p, before, renames) == [] && PinGrowth(g, q, before, renames) == []
    ensures PinsGrowth(g, [p, q], before, renames) == []
  {
    hide PinGrowth;
    assert [p, q][..1] == [p] && [p][..0] == [];
    assert PinsGrowth(g, [p], before, renames) == [];
  }

  lemma KeptIsNoGrowth(g: Rules, v: Violation, w: Violation)
    requires v.rule in g.pinnable && v.rule !in g.figures && v.rule != TWIN && v.key == w.key
    requires v.rule == w.rule && KeyOf(v) != KeyOf(w)
    ensures Growth(g, Pinned(g, [v, w]).pins, Pinned(g, [v]).pins, map[KeyOf(w).path := KeyOf(v).path]) == []
  {
    var before, renames := Pinned(g, [v]).pins, map[KeyOf(w).path := KeyOf(v).path];
    var p, q := PinOf(g, v), PinOf(g, w);
    assert before.pins == [p] && Pinned(g, [v, w]).pins.pins == [p, q];
    assert FindPin([p], KeyOf(v)) == Some(p);
    assert AddedMembers(p, p, renames) == {} && AddedMembers(q, p, renames) == {};
    NoGrowthOfTwo(g, p, q, before, renames);
    hide PinsGrowth, FindPin, AddedMembers;
  }

  /** Moves that git lists are not enough: with one file moved and another there again at its old path, one pinned
      violation passes as two. */
  lemma KeptOldPathDoubles(g: Rules, v: Violation, w: Violation)
    requires v.rule in g.pinnable && v.rule !in g.figures && v.rule != TWIN && v.key == w.key
    requires v.rule == w.rule && KeyOf(v) != KeyOf(w)
    ensures var renames := map[KeyOf(w).path := KeyOf(v).path];
      && GitMoves(renames, {KeyOf(v).path}) && Step(g, Pinned(g, [v]), Pinned(g, [v, w]), renames)
      && PathsOf(Pinned(g, [v]), v.rule) == {KeyOf(v).path}
      && PathsOf(Pinned(g, [v, w]), v.rule) == {KeyOf(v).path, KeyOf(w).path}
  {
    hide Clean, Growth, KeysOf, GroupOf;
    OnePinned(g, v);
    TwoPinned(g, v, w);
    KeptIsNoGrowth(g, v, w);
    GroupsOfOne(v, KeyOf(v));
    GroupsOfTwo(v, w, KeyOf(v));
    assert [KeyOf(v)][0] == KeyOf(v) && [KeyOf(v), KeyOf(w)][0] == KeyOf(v) && [KeyOf(v), KeyOf(w)][1] == KeyOf(w);
  }

  // ---- lib-run members -------------------------------------------------------

  /** What a `lib-run` member is accepted as: itself when the base pins that name, else its old path. */
  function BaseMember(base: set<string>, renames: map<string, string>, m: string): string {
    if m in base then m else Rename(renames, m)
  }

  /** No two members are accepted as one. */
  predicate Embeds(codes: set<string>, base: set<string>, renames: map<string, string>) {
    forall m, n :: m in codes && n in codes ==> BaseMember(base, renames, m) == BaseMember(base, renames, n) ==> m == n
  }

  /** A new member moved away from a path that is still a member. */
  predicate MovedFromKept(codes: set<string>, base: set<string>, renames: map<string, string>, n: string) {
    n in codes && n !in base && n in renames && renames[n] in codes
  }

  /** Members of an accepted `lib-run` pin embed into the base's exactly when no new one moved away from a path that
      is still a member. */
  lemma LibRunEmbeds(pin: Pin, base: Pin, renames: map<string, string>)
    requires pin.rule == LIB_RUN && AddedMembers(pin, base, renames) == {} && Injective(renames)
    ensures forall m :: m in pin.codes ==> BaseMember(base.codes, renames, m) in base.codes
    ensures Embeds(pin.codes, base.codes, renames)
        <==> !exists n :: MovedFromKept(pin.codes, base.codes, renames, n)
    ensures (!exists n :: MovedFromKept(pin.codes, base.codes, renames, n)) ==> |pin.codes| <= |base.codes|
  {
    forall m | m in pin.codes
      ensures BaseMember(base.codes, renames, m) in base.codes
    {
      assert m !in AddedMembers(pin, base, renames);
    }
    if n :| MovedFromKept(pin.codes, base.codes, renames, n) {
      assert BaseMember(base.codes, renames, n) == BaseMember(base.codes, renames, renames[n]);
    } else {
      forall m, n | m in pin.codes && n in pin.codes
                 && BaseMember(base.codes, renames, m) == BaseMember(base.codes, renames, n)
        ensures m == n
      {
        assert !MovedFromKept(pin.codes, base.codes, renames, m) && !MovedFromKept(pin.codes, base.codes, renames, n);
      }
      InjectionBounds(pin.codes, base.codes, m => BaseMember(base.codes, renames, m));
    }
  }

  /** So, with the base pinning files of its own, exactly when no member was moved away from a member. */
  lemma LibRunEmbedsByPath(pin: Pin, base: Pin, renames: map<string, string>, files: set<string>)
    requires pin.rule == LIB_RUN && AddedMembers(pin, base, renames) == {}
    requires GitMoves(renames, files) && base.codes <= files
    ensures Embeds(pin.codes, base.codes, renames)
        <==> forall n :: n in pin.codes && n in renames ==> renames[n] !in pin.codes
  {
    LibRunEmbeds(pin, base, renames);
    forall n
      ensures MovedFromKept(pin.codes, base.codes, renames, n) <==>
              n in pin.codes && n in renames && renames[n] in pin.codes
    {
    }
    hide Embeds;
  }

  /** The list that pins some members of one library. */
  function LibList(g: Rules, path: string, members: set<string>): Pins {
    Pins(true, [Pin(LIB_RUN, path, members, [])], Some(g.pinnable), [])
  }

  /** Moves that git lists are not enough: with `b` moved from `a`, and `a` there again as an untracked file, the one
      member `a` passes as two. */
  lemma LibRunGrows(g: Rules, path: string, a: string, b: string)
    requires a != b && path != b && LIB_RUN in g.pinnable && LIB_RUN !in g.figures
    ensures var renames := map[b := a];
      && GitMoves(renames, {a, path}) && Growth(g, LibList(g, path, {a, b}), LibList(g, path, {a}), renames) == []
      && BaseMember({a}, renames, a) == BaseMember({a}, renames, b) && |{a, b}| == 2 && |{a}| == 1
  {
    var renames := map[b := a];
    var pin, base := Pin(LIB_RUN, path, {a, b}, []), LibList(g, path, {a});
    assert Injective(renames);
    assert AddedMembers(pin, base.pins[0], renames) == {};
    assert PinGrowth(g, pin, base, renames) == [];
    hide PinGrowth;
    assert [pin][..0] == [];
    assert PinsGrowth(g, [pin][..0], base, renames) == [];
  }
}
