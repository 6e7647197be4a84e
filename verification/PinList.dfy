/** The pin list of the scripts gate (scripts/report/scripts_gate.py): what it accepts,
    and what a commit may add to it. */
module PinList {
  import opened Chars

  // ---- the gate's tables -----------------------------------------------------

  /** How the figures of one group reduce to the measure a pin holds. */
  datatype Reduction = Total | Descending

  /** The rules a pin may name, the ones that pin a measure, the ones that pin a set. */
  datatype Rules = Rules(pinnable: set<string>, figures: map<string, Reduction>, sets: set<string>)

  const TWIN := "twin"
  const LIB_RUN := "lib-run"

  /** The rules of this repository's gate; what is proved holds for any. */
  const GATE := Rules(
    {"class", "purpose", "usage", "exit-undeclared", "caller", "recall-missing", "silenced", "lib-consumers", "lib-run",
     "shebang", "exec-bit", "dead-path", "set-mode", "name", "size", "heredoc", "twin", "lib-shadow", "binary-literal",
     "env-knob", "unguarded-array"},
    map["size" := Total, "twin" := Total, "binary-literal" := Total, "heredoc" := Descending],
    {"exit-undeclared", "recall-missing", "silenced", "lib-run", "dead-path", "name", "lib-shadow", "env-knob",
     "unguarded-array"})

  // ---- violations and pins ---------------------------------------------------

  datatype Violation = Violation(rule: string, path: string, key: string, figure: int, pinPath: string)

  datatype Key = Key(rule: string, path: string)

  datatype Pin = Pin(rule: string, path: string, codes: set<string>, figure: seq<int>)

  /** A parsed list, or the absence of one. */
  datatype Pins = Pins(present: bool, pins: seq<Pin>, pinnable: Option<set<string>>, problems: seq<string>)

  /** What the gate reports; the wording is left out. */
  datatype Report =
    | Problem(what: string)
    | Unaccepted(v: Violation)
    | FigureGrew(key: Key)
    | FigureShrank(key: Key)
    | StaleMembers(key: Key, members: set<string>)
    | NotPinnable(key: Key)
    | NoLongerViolated(key: Key)
    | NewPin(key: Key)
    | FigureAboveBase(key: Key)
    | NewMembers(key: Key, members: set<string>)

  function KeyOf(v: Violation): Key {
    Key(v.rule, if v.pinPath != "" then v.pinPath else v.path)
  }

  function PinKey(p: Pin): Key {
    Key(p.rule, p.path)
  }

  /** The violations filed under one key, in the order found. */
  function GroupOf(found: seq<Violation>, key: Key): seq<Violation> {
    if found == [] then []
    else
      var v := found[|found| - 1];
      GroupOf(found[..|found| - 1], key) + if KeyOf(v) == key then [v] else []
  }

  /** The keys in the order their first violation was found. */
  function KeysOf(found: seq<Violation>): seq<Key> {
    if found == [] then []
    else
      var keys, key := KeysOf(found[..|found| - 1]), KeyOf(found[|found| - 1]);
      if key in keys then keys else keys + [key]
  }

  lemma {:induction false} KeysAreViolated(found: seq<Violation>, key: Key)
    ensures key in KeysOf(found) <==> GroupOf(found, key) != []
  {
    if found != [] {
      KeysAreViolated(found[..|found| - 1], key);
    }
  }

  function FindPin(pins: seq<Pin>, key: Key): Option<Pin> {
    if pins == [] then None else if PinKey(pins[0]) == key then Some(pins[0]) else FindPin(pins[1..], key)
  }

  // ---- figures ---------------------------------------------------------------

  function SumOf(vs: seq<Violation>): int {
    if vs == [] then 0 else vs[0].figure + SumOf(vs[1..])
  }

  function InsertDown(n: int, ns: seq<int>): seq<int> {
    if ns == [] || n >= ns[0] then [n] + ns else [ns[0]] + InsertDown(n, ns[1..])
  }

  function FiguresDown(vs: seq<Violation>): seq<int> {
    if vs == [] then [] else InsertDown(vs[0].figure, FiguresDown(vs[1..]))
  }

  function Reduce(r: Reduction, vs: seq<Violation>): seq<int> {
    if r == Total then [SumOf(vs)] else FiguresDown(vs)
  }

  /** A figure grew when it has more members, or a member above its pin's. */
  predicate Grows(now: seq<int>, pinned: seq<int>) {
    |now| > |pinned| || exists i :: 0 <= i < |now| && now[i] > pinned[i]
  }

  lemma GrowsTransitive(a: seq<int>, b: seq<int>, c: seq<int>)
    requires !Grows(a, b) && !Grows(b, c)
    ensures !Grows(a, c)
  {
    forall i | 0 <= i < |a|
      ensures a[i] <= c[i]
    {
      assert a[i] <= b[i] && b[i] <= c[i];
    }
  }

  // ---- apply_pins ------------------------------------------------------------

  function Members(vs: seq<Violation>): set<string> {
    set v | v in vs :: v.key
  }

  function AllUnaccepted(vs: seq<Violation>): seq<Report> {
    seq(|vs|, i requires 0 <= i < |vs| => Unaccepted(vs[i]))
  }

  function Outside(vs: seq<Violation>, codes: set<string>): seq<Violation> {
    if vs == [] then [] else (if vs[0].key !in codes then [vs[0]] else []) + Outside(vs[1..], codes)
  }

  function FigureReports(g: Rules, key: Key, vs: seq<Violation>, pin: Pin): seq<Report>
    requires key.rule in g.figures
  {
    var now := Reduce(g.figures[key.rule], vs);
    if Grows(now, pin.figure) then [FigureGrew(key)]
    else if now != pin.figure then [FigureShrank(key)]
    else []
  }

  function SetReports(key: Key, vs: seq<Violation>, pin: Pin): seq<Report> {
    var stale := pin.codes - Members(vs);
    AllUnaccepted(Outside(vs, pin.codes)) + if stale == {} then [] else [StaleMembers(key, stale)]
  }

  /** What is left of one group when its pin, if any, is applied. */
  function GroupReports(g: Rules, key: Key, vs: seq<Violation>, pin: Option<Pin>): seq<Report> {
    if pin.None? || key.rule !in g.pinnable then AllUnaccepted(vs)
    else if key.rule in g.figures then FigureReports(g, key, vs, pin.value)
    else if key.rule in g.sets then SetReports(key, vs, pin.value)
    else []
  }

  function GroupsReports(g: Rules, found: seq<Violation>, pins: seq<Pin>, keys: seq<Key>): seq<Report> {
    if keys == [] then []
    else
      var key := keys[|keys| - 1];
      GroupsReports(g, found, pins, keys[..|keys| - 1]) + GroupReports(g, key, GroupOf(found, key), FindPin(pins, key))
  }

  function PinReports(g: Rules, keys: seq<Key>, pins: seq<Pin>): seq<Report> {
    if pins == [] then []
    else
      var p := pins[|pins| - 1];
      PinReports(g, keys, pins[..|pins| - 1])
      + if p.rule !in g.pinnable then [NotPinnable(PinKey(p))]
        else if PinKey(p) !in keys then [NoLongerViolated(PinKey(p))]
        else []
  }

  function Problems(what: seq<string>): seq<Report> {
    seq(|what|, i requires 0 <= i < |what| => Problem(what[i]))
  }

  function Reports(g: Rules, found: seq<Violation>, pins: Pins): seq<Report> {
    Problems(pins.problems)
    + GroupsReports(g, found, pins.pins, KeysOf(found))
    + PinReports(g, KeysOf(found), pins.pins)
  }

  lemma GroupAndKeysGrow(found: seq<Violation>, i: nat)
    requires i < |found|
    ensures var key := KeyOf(found[i]);
      && KeysOf(found[..i + 1]) == KeysOf(found[..i]) + (if key in KeysOf(found[..i]) then [] else [key])
      && forall k :: GroupOf(found[..i + 1], k) == GroupOf(found[..i], k) + if k == key then [found[i]] else []
  {
    assert found[..i + 1][..i] == found[..i];
  }

  /** The dictionary of violations by key, in the order of first sight. */
  method GroupViolations(found: seq<Violation>) returns (keys: seq<Key>, groups: map<Key, seq<Violation>>)
    ensures keys == KeysOf(found)
    ensures forall key :: key in groups <==> key in keys
    ensures forall key :: key in groups ==> groups[key] == GroupOf(found, key)
  {
    keys, groups := [], map[];
    ghost var seen := found[..0];
    for i := 0 to |found|
      invariant seen == found[..i] && keys == KeysOf(seen)
      invariant forall key :: key in groups <==> key in keys
      invariant forall key :: if key in groups then groups[key] == GroupOf(seen, key) else GroupOf(seen, key) == []
    {
      GroupAndKeysGrow(found, i);
      hide GroupOf, KeysOf, KeyOf;
      var v := found[i];
      var key := KeyOf(v);
      if key !in groups {
        keys := keys + [key];
        groups := groups[key := []];
      }
      groups := groups[key := groups[key] + [v]];
      seen := found[..i + 1];
    }
    assert found[..|found|] == found;
  }

  method ApplyPins(g: Rules, found: seq<Violation>, pins: Pins) returns (active: seq<Report>, held: seq<Key>)
    ensures active == Reports(g, found, pins)
    ensures forall key ::
      key in held <==> key in KeysOf(found) && key.rule in g.pinnable && FindPin(pins.pins, key).Some?
  {
    hide Problems, GroupReports, PinReports, GroupOf, KeysOf;
    active, held := Problems(pins.problems), [];
    var keys, groups := GroupViolations(found);
    for k := 0 to |keys|
      invariant active == Problems(pins.problems) + GroupsReports(g, found, pins.pins, keys[..k])
      invariant forall key ::
        key in held <==> key in keys[..k] && key.rule in g.pinnable && FindPin(pins.pins, key).Some?
    {
      assert keys[..k + 1][..k] == keys[..k];
      var pin := FindPin(pins.pins, keys[k]);
      active := active + GroupReports(g, keys[k], groups[keys[k]], pin);
      if pin.Some? && keys[k].rule in g.pinnable {
        held := held + [keys[k]];
      }
    }
    assert keys[..|keys|] == keys;
    var more := CheckPins(g, keys, pins.pins);
    active := active + more;
  }

  method CheckPins(g: Rules, keys: seq<Key>, pins: seq<Pin>) returns (active: seq<Report>)
    ensures active == PinReports(g, keys, pins)
  {
    active := [];
    for k := 0 to |pins|
      invariant active == PinReports(g, keys, pins[..k])
    {
      assert pins[..k + 1][..k] == pins[..k];
      var p := pins[k];
      if p.rule !in g.pinnable {
        active := active + [NotPinnable(PinKey(p))];
      } else if PinKey(p) !in keys {
        active := active + [NoLongerViolated(PinKey(p))];
      }
    }
    assert pins[..|pins|] == pins;
  }

  // ---- when nothing is left --------------------------------------------------

  /** The pin holds what the group shows: the figure, or the set of members, exactly. */
  predicate Holds(g: Rules, key: Key, vs: seq<Violation>, pin: Pin) {
    if key.rule in g.figures then Reduce(g.figures[key.rule], vs) == pin.figure
    else if key.rule in g.sets then Members(vs) == pin.codes
    else true
  }

  predicate Accepts(g: Rules, key: Key, vs: seq<Violation>, pin: Option<Pin>) {
    pin.Some? && key.rule in g.pinnable && Holds(g, key, vs, pin.value)
  }

  predicate AllAccepted(g: Rules, found: seq<Violation>, pins: seq<Pin>, keys: seq<Key>) {
    forall k :: 0 <= k < |keys| ==> Accepts(g, keys[k], GroupOf(found, keys[k]), FindPin(pins, keys[k]))
  }

  predicate AllViolated(g: Rules, keys: seq<Key>, pins: seq<Pin>) {
    forall k :: 0 <= k < |pins| ==> pins[k].rule in g.pinnable && PinKey(pins[k]) in keys
  }

  /** The list pins exactly what is violated, and nothing that cannot be pinned is either. */
  predicate Exact(g: Rules, found: seq<Violation>, pins: Pins) {
    && pins.problems == []
    && AllAccepted(g, found, pins.pins, KeysOf(found))
    && AllViolated(g, KeysOf(found), pins.pins)
  }

  lemma {:induction false} NothingOutside(vs: seq<Violation>, codes: set<string>)
    ensures Outside(vs, codes) == [] <==> Members(vs) <= codes
  {
    if vs != [] {
      NothingOutside(vs[1..], codes);
      assert vs == [vs[0]] + vs[1..];
      assert Members(vs) == {vs[0].key} + Members(vs[1..]);
    } else {
      assert Members(vs) == {};
    }
  }

  lemma GrowsIsNotReflexive(figure: seq<int>)
    ensures !Grows(figure, figure)
  {
  }

  lemma GroupIsQuiet(g: Rules, key: Key, vs: seq<Violation>, pin: Option<Pin>)
    requires vs != []
    ensures GroupReports(g, key, vs, pin) == [] <==> Accepts(g, key, vs, pin)
  {
    if pin.Some? {
      var codes, members := pin.value.codes, Members(vs);
      NothingOutside(vs, codes);
      GrowsIsNotReflexive(pin.value.figure);
      assert codes - members == {} ==> forall c :: c in codes ==> c !in codes - members;
      assert codes <= members ==> codes - members == {};
    }
  }

  lemma {:induction false} GroupsAreQuiet(g: Rules, found: seq<Violation>, pins: seq<Pin>, keys: seq<Key>)
    requires forall k :: 0 <= k < |keys| ==> GroupOf(found, keys[k]) != []
    ensures GroupsReports(g, found, pins, keys) == [] <==> AllAccepted(g, found, pins, keys)
  {
    hide Accepts, GroupReports, GroupOf, FindPin;
    if keys != [] {
      var key := keys[|keys| - 1];
      GroupsAreQuiet(g, found, pins, keys[..|keys| - 1]);
      GroupIsQuiet(g, key, GroupOf(found, key), FindPin(pins, key));
    }
  }

  lemma {:induction false} PinsAreQuiet(g: Rules, keys: seq<Key>, pins: seq<Pin>)
    ensures PinReports(g, keys, pins) == [] <==> AllViolated(g, keys, pins)
  {
    if pins != [] {
      PinsAreQuiet(g, keys, pins[..|pins| - 1]);
    }
  }

  /** Nothing is left active exactly when the list and the violations are the same thing. */
  lemma NothingActiveIffExact(g: Rules, found: seq<Violation>, pins: Pins)
    ensures Reports(g, found, pins) == [] <==> Exact(g, found, pins)
  {
    var keys := KeysOf(found);
    forall k | 0 <= k < |keys|
      ensures GroupOf(found, keys[k]) != []
    {
      KeysAreViolated(found, keys[k]);
    }
    GroupsAreQuiet(g, found, pins.pins, keys);
    PinsAreQuiet(g, keys, pins.pins);
    hide GroupsReports, PinReports, AllAccepted, AllViolated, KeysOf;
  }
}
