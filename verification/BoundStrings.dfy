/** `bound_strings` (scripts/report/scripts_gate_text.py): the string constants every assigned name can hold. */
module BoundStrings {

  /** What stands inside an assigned value. */
  datatype Sub = Text(value: string) | Reference(id: string) | Other

  /** An assignment to plain names, and everything inside its value. */
  datatype Assign = Assign(targets: seq<string>, value: seq<Sub>)

  type Table = map<string, set<string>>

  /** A `defaultdict(set)` entry. */
  function At(t: Table, name: string): set<string> {
    if name in t then t[name] else {}
  }

  predicate Has(t: Table, name: string, value: string) {
    value in At(t, name)
  }

  predicate Says(tree: seq<Assign>, name: string, value: string) {
    exists a :: 0 <= a < |tree| && name in tree[a].targets && Text(value) in tree[a].value
  }

  predicate Uses(tree: seq<Assign>, name: string, other: string) {
    exists a :: 0 <= a < |tree| && name in tree[a].targets && Reference(other) in tree[a].value
  }

  // ---- the least solution ----------------------------------------------------

  predicate IsWalk(tree: seq<Assign>, walk: seq<string>) {
    walk != [] && forall k :: 0 <= k < |walk| - 1 ==> Uses(tree, walk[k], walk[k + 1])
  }

  /** `value` is a constant of a name that `name` leads to through the uses of its assignments. */
  predicate Shows(tree: seq<Assign>, walk: seq<string>, name: string, value: string) {
    IsWalk(tree, walk) && walk[0] == name && Says(tree, walk[|walk| - 1], value)
  }

  ghost predicate Holds(tree: seq<Assign>, name: string, value: string) {
    exists walk :: Shows(tree, walk, name, value)
  }

  /** A table that holds every name's own constants and those of the names it uses. */
  ghost predicate Solves(tree: seq<Assign>, t: Table) {
    && (forall name, value :: Says(tree, name, value) ==> value in At(t, name))
    && (forall name, other :: Uses(tree, name, other) ==> At(t, other) <= At(t, name))
  }

  lemma OwnHolds(tree: seq<Assign>, name: string, value: string)
    requires Says(tree, name, value)
    ensures Holds(tree, name, value)
  {
    assert Shows(tree, [name], name, value);
  }

  lemma UsedHolds(tree: seq<Assign>, name: string, other: string, value: string)
    requires Uses(tree, name, other) && Holds(tree, other, value)
    ensures Holds(tree, name, value)
  {
    hide Says, Uses;
    var walk: seq<string> :| Shows(tree, walk, other, value);
    var on := [name] + walk;
    assert forall k :: 0 < k < |on| ==> on[k] == walk[k - 1];
    assert Shows(tree, on, name, value);
  }

  /** Every solution holds what the walks show: the walks give the least one. */
  lemma {:induction false} LeastSolution(tree: seq<Assign>, t: Table, walk: seq<string>, name: string, value: string)
    requires Solves(tree, t) && Shows(tree, walk, name, value)
    ensures value in At(t, name)
    decreases |walk|
  {
    hide Says, Uses;
    if |walk| > 1 {
      var rest := walk[1..];
      assert forall k :: 0 <= k < |rest| ==> rest[k] == walk[k + 1];
      LeastSolution(tree, t, rest, walk[1], value);
      assert Uses(tree, walk[0], walk[0 + 1]);
    }
  }

  // ---- collecting ------------------------------------------------------------

  function Put(t: Table, name: string, value: string): (r: Table)
    ensures forall n, v :: Has(r, n, v) <==> Has(t, n, v) || (n == name && v == value)
  {
    t[name := At(t, name) + {value}]
  }

  predicate SaysSome(a: Assign, name: string, value: string) {
    name in a.targets && Text(value) in a.value
  }

  predicate UsesSome(a: Assign, name: string, other: string) {
    name in a.targets && Reference(other) in a.value
  }

  lemma OneAssignMore(tree: seq<Assign>, i: nat, name: string, x: string)
    requires i < |tree|
    ensures Says(tree[..i + 1], name, x) <==> Says(tree[..i], name, x) || SaysSome(tree[i], name, x)
    ensures Uses(tree[..i + 1], name, x) <==> Uses(tree[..i], name, x) || UsesSome(tree[i], name, x)
  {
    var before, after := tree[..i], tree[..i + 1];
    assert after == before + [tree[i]];
    assert forall a :: 0 <= a < i ==> before[a] == after[a];
    if SaysSome(tree[i], name, x) || UsesSome(tree[i], name, x) { assert after[i] == tree[i]; }
  }

  method CollectValue(target: string, value: seq<Sub>, direct0: Table, uses0: Table)
    returns (direct: Table, uses: Table)
    ensures forall n, v :: Has(direct, n, v) <==> Has(direct0, n, v) || (n == target && Text(v) in value)
    ensures forall n, v :: Has(uses, n, v) <==> Has(uses0, n, v) || (n == target && Reference(v) in value)
  {
    hide At, Put;
    direct, uses := direct0, uses0;
    for k := 0 to |value|
      invariant forall n, v :: Has(direct, n, v) <==> Has(direct0, n, v) || (n == target && Text(v) in value[..k])
      invariant forall n, v :: Has(uses, n, v) <==> Has(uses0, n, v) || (n == target && Reference(v) in value[..k])
    {
      assert value[..k + 1] == value[..k] + [value[k]];
      match value[k] {
        case Text(v) => direct := Put(direct, target, v);
        case Reference(id) => uses := Put(uses, target, id);
        case Other =>
      }
    }
    assert value[..|value|] == value;
  }

  method Collect(tree: seq<Assign>) returns (direct: Table, uses: Table)
    ensures forall n, v :: Has(direct, n, v) <==> Says(tree, n, v)
    ensures forall n, v :: Has(uses, n, v) <==> Uses(tree, n, v)
  {
    direct, uses := map[], map[];
    assert forall n :: At(direct, n) == {} && At(uses, n) == {};
    hide At, Put, Says, Uses;
    for i := 0 to |tree|
      invariant forall n, v :: Has(direct, n, v) <==> Says(tree[..i], n, v)
      invariant forall n, v :: Has(uses, n, v) <==> Uses(tree[..i], n, v)
    {
      var a := tree[i];
      ghost var direct0, uses0 := direct, uses;
      for k := 0 to |a.targets|
        invariant forall n, v ::
          Has(direct, n, v) <==> Has(direct0, n, v) || (n in a.targets[..k] && Text(v) in a.value)
        invariant forall n, v ::
          Has(uses, n, v) <==> Has(uses0, n, v) || (n in a.targets[..k] && Reference(v) in a.value)
      {
        assert a.targets[..k + 1] == a.targets[..k] + [a.targets[k]];
        direct, uses := CollectValue(a.targets[k], a.value, direct, uses);
      }
      assert a.targets[..|a.targets|] == a.targets;
      forall n, v
        ensures Has(direct, n, v) <==> Says(tree[..i + 1], n, v)
        ensures Has(uses, n, v) <==> Uses(tree[..i + 1], n, v)
      {
        OneAssignMore(tree, i, n, v);
      }
    }
    assert tree[..|tree|] == tree;
  }

  // ---- the fixpoint ----------------------------------------------------------

  /** `direct[name] |= direct[other]`, reading `direct[other]` first. */
  function Join(t: Table, name: string, other: string): (r: Table)
    ensures forall n :: At(r, n) == if n == name then At(t, n) + At(t, other) else At(t, n)
  {
    var read := if other in t then t else t[other := {}];
    read[name := At(read, name) + At(read, other)]
  }

  ghost function Pairs(t: Table): set<(string, string)> {
    set n, v | n in t && v in t[n] :: (n, v)
  }

  lemma PairIs(t: Table, n: string, v: string)
    ensures (n, v) in Pairs(t) <==> Has(t, n, v)
  {
  }

  /** All the table can ever hold: an own or used name with a constant. */
  ghost function Room(direct: Table, uses: Table): set<(string, string)> {
    set n, m, v | n in direct.Keys + uses.Keys && m in direct && v in direct[m] :: (n, v)
  }

  ghost predicate Sound(tree: seq<Assign>, t: Table) {
    forall n, v :: Has(t, n, v) ==> Holds(tree, n, v)
  }

  ghost predicate Grown(direct: Table, t: Table) {
    forall n :: At(direct, n) <= At(t, n)
  }

  ghost predicate Closed(t: Table, uses: Table, name: string) {
    forall other :: other in At(uses, name) ==> At(t, other) <= At(t, name)
  }

  lemma JoinIsSound(tree: seq<Assign>, t: Table, name: string, other: string)
    requires Sound(tree, t) && Uses(tree, name, other)
    ensures Sound(tree, Join(t, name, other))
  {
    hide Holds, Uses, At;
    forall n, v | v in At(Join(t, name, other), n)
      ensures Holds(tree, n, v)
    {
      if n == name && v !in At(t, n) { UsedHolds(tree, name, other, v); }
    }
  }

  lemma JoinStaysInRoom(direct: Table, uses: Table, t: Table, name: string, other: string)
    requires Pairs(t) <= Room(direct, uses) && name in uses
    ensures Pairs(Join(t, name, other)) <= Room(direct, uses)
  {
    hide Join;
    forall p | p in Pairs(Join(t, name, other))
      ensures p in Room(direct, uses)
    {
      PairIs(Join(t, name, other), p.0, p.1);
      PairIs(t, p.0, p.1);
      PairIs(t, other, p.1);
    }
  }

  lemma JoinAdds(t: Table, name: string, other: string)
    requires !(At(t, other) <= At(t, name))
    ensures Pairs(t) < Pairs(Join(t, name, other))
  {
    hide Join, Pairs;
    var r := Join(t, name, other);
    forall n, v | (n, v) in Pairs(t)
      ensures (n, v) in Pairs(r)
    {
      PairIs(t, n, v);
      PairIs(r, n, v);
    }
    var v :| v in At(t, other) && v !in At(t, name);
    PairIs(t, name, v);
    PairIs(r, name, v);
    PairsAreSubset(t, r);
  }

  lemma PairsAreSubset(t: Table, r: Table)
    requires forall n, v :: (n, v) in Pairs(t) ==> (n, v) in Pairs(r)
    ensures Pairs(t) <= Pairs(r)
  {
    forall p | p in Pairs(t)
      ensures p in Pairs(r)
    {
      assert p == (p.0, p.1);
    }
  }

  /** What the passes keep. */
  ghost predicate Inv(tree: seq<Assign>, direct: Table, uses: Table, t: Table) {
    Sound(tree, t) && Grown(direct, t) && Pairs(t) <= Room(direct, uses)
  }

  lemma JoinKeeps(tree: seq<Assign>, direct: Table, uses: Table, t: Table, name: string, other: string)
    requires Inv(tree, direct, uses, t) && name in uses && other in uses[name]
    requires Uses(tree, name, other) && !(At(t, other) <= At(t, name))
    ensures Inv(tree, direct, uses, Join(t, name, other))
    ensures |Room(direct, uses) - Pairs(Join(t, name, other))| < |Room(direct, uses) - Pairs(t)|
  {
    hide Uses, Holds, Room, Pairs, Sound, At;
    JoinIsSound(tree, t, name, other);
    JoinStaysInRoom(direct, uses, t, name, other);
    JoinAdds(t, name, other);
    var room := Room(direct, uses);
    var before, after := room - Pairs(t), room - Pairs(Join(t, name, other));
    assert after < before;
    assert before == after + (before - after) && |before| == |after| + |before - after|;
  }

  /** One pass over the uses of one name. */
  method PassName(tree: seq<Assign>, direct: Table, uses: Table, t0: Table, name: string)
    returns (t: Table, changed: bool)
    requires Inv(tree, direct, uses, t0) && name in uses
    requires forall n, o :: Has(uses, n, o) <==> Uses(tree, n, o)
    ensures Inv(tree, direct, uses, t)
    ensures changed ==> |Room(direct, uses) - Pairs(t)| < |Room(direct, uses) - Pairs(t0)|
    ensures !changed ==> t == t0 && Closed(t, uses, name)
  {
    hide Inv, Uses, Room, Pairs;
    t, changed := t0, false;
    var todo := uses[name];
    while todo != {}
      invariant todo <= uses[name]
      invariant Inv(tree, direct, uses, t)
      invariant changed ==> |Room(direct, uses) - Pairs(t)| < |Room(direct, uses) - Pairs(t0)|
      invariant !changed ==> t == t0 && forall o :: o in uses[name] - todo ==> At(t, o) <= At(t, name)
      decreases |todo|
    {
      var other :| other in todo;
      assert other in At(uses, name);
      if !(At(t, other) <= At(t, name)) {
        JoinKeeps(tree, direct, uses, t, name, other);
        t := Join(t, name, other);
        changed := true;
      }
      todo := todo - {other};
    }
  }

  lemma StartHolds(tree: seq<Assign>, direct: Table, uses: Table)
    requires forall n, v :: Has(direct, n, v) <==> Says(tree, n, v)
    ensures Inv(tree, direct, uses, direct)
  {
    hide Says, Holds;
    forall n, v | Has(direct, n, v)
      ensures Holds(tree, n, v)
    {
      OwnHolds(tree, n, v);
    }
  }

  lemma EndIsLeast(tree: seq<Assign>, direct: Table, uses: Table, t: Table)
    requires forall n, v :: Has(direct, n, v) <==> Says(tree, n, v)
    requires forall n, o :: Has(uses, n, o) <==> Uses(tree, n, o)
    requires Inv(tree, direct, uses, t) && forall n :: n in uses ==> Closed(t, uses, n)
    ensures Solves(tree, t)
    ensures forall n, v :: Has(t, n, v) <==> Holds(tree, n, v)
  {
    hide Says, Uses, Room, Pairs;
    assert Solves(tree, t) by {
      forall n, o | Uses(tree, n, o)
        ensures At(t, o) <= At(t, n)
      {
        assert Has(uses, n, o) && n in uses;
        assert Closed(t, uses, n);
      }
      forall n, v | Says(tree, n, v)
        ensures Has(t, n, v)
      {
        assert Has(direct, n, v) && At(direct, n) <= At(t, n);
      }
    }
    forall n, v | Holds(tree, n, v)
      ensures Has(t, n, v)
    {
      var walk: seq<string> :| Shows(tree, walk, n, v);
      LeastSolution(tree, t, walk, n, v);
    }
  }

  /** The passes end, whatever order names are taken in, with the least solution. */
  method BoundStringsOf(tree: seq<Assign>) returns (direct: Table)
    ensures forall n, v :: Has(direct, n, v) <==> Holds(tree, n, v)
    ensures Solves(tree, direct)
  {
    var start, uses := Collect(tree);
    hide Inv, Says, Uses, Room, Pairs, Closed, At;
    direct := start;
    StartHolds(tree, start, uses);
    var changed := true;
    while changed
      invariant Inv(tree, start, uses, direct)
      invariant !changed ==> forall n :: n in uses ==> Closed(direct, uses, n)
      decreases |Room(start, uses) - Pairs(direct)|, changed
    {
      changed := false;
      ghost var before := direct;
      var todo := uses.Keys;
      while todo != {}
        invariant todo <= uses.Keys && Inv(tree, start, uses, direct)
        invariant changed ==> |Room(start, uses) - Pairs(direct)| < |Room(start, uses) - Pairs(before)|
        invariant !changed ==> direct == before && forall n :: n in uses.Keys - todo ==> Closed(direct, uses, n)
        decreases |todo|
      {
        var name :| name in todo;
        var more;
        direct, more := PassName(tree, start, uses, direct, name);
        changed := changed || more;
        todo := todo - {name};
      }
    }
    EndIsLeast(tree, start, uses, direct);
  }
}
