/** The names a shell file gets from the files it sources (scripts/report/scripts_gate_env.py). */
module Sourcing {

  /** Each shell file's own assignments and the files it sources; `sourced` stays within its own keys. */
  datatype Shell = Shell(own: map<string, set<string>>, sourced: map<string, set<string>>)

  predicate Valid(s: Shell) {
    s.own.Keys == s.sourced.Keys && forall f :: f in s.sourced ==> s.sourced[f] <= s.sourced.Keys
  }

  // ---- reaching a file without entering `seen` -------------------------------

  /** `from` sources `to`, which is outside `seen`. */
  predicate Step(s: Shell, seen: set<string>, from: string, to: string) {
    from in s.sourced && to in s.sourced[from] && to !in seen
  }

  predicate IsWalk(s: Shell, seen: set<string>, walk: seq<string>) {
    |walk| >= 2 && forall k :: 0 <= k < |walk| - 1 ==> Step(s, seen, walk[k], walk[k + 1])
  }

  predicate Leads(s: Shell, seen: set<string>, walk: seq<string>, rel: string, file: string)
    requires Valid(s)
  {
    IsWalk(s, seen, walk) && walk[0] == rel && walk[|walk| - 1] == file
  }

  /** `file` is sourced by `rel`, in one step or more, through files outside `seen`. */
  ghost predicate Sources(s: Shell, seen: set<string>, rel: string, file: string)
    requires Valid(s)
  {
    exists walk :: Leads(s, seen, walk, rel, file)
  }

  /** The files whose names `inherited` collects: the sourced ones, but `rel` itself only if it sources itself. */
  ghost predicate Gives(s: Shell, seen: set<string>, rel: string, file: string)
    requires Valid(s)
  {
    if file == rel then rel in s.sourced && rel in s.sourced[rel] - seen else Sources(s, seen, rel, file)
  }

  ghost predicate Inherits(s: Shell, seen: set<string>, rel: string, name: string)
    requires Valid(s)
  {
    exists file :: file in s.own && Gives(s, seen, rel, file) && name in s.own[file]
  }

  lemma OneStep(s: Shell, seen: set<string>, rel: string, file: string)
    requires Valid(s) && rel in s.sourced && file in s.sourced[rel] - seen
    ensures Sources(s, seen, rel, file) && file in s.sourced
  {
    assert Leads(s, seen, [rel, file], rel, file);
  }

  lemma EndIsOutside(s: Shell, seen: set<string>, walk: seq<string>)
    requires IsWalk(s, seen, walk)
    ensures walk[|walk| - 1] !in seen
  {
    assert Step(s, seen, walk[|walk| - 2], walk[|walk| - 2 + 1]);
  }

  lemma WalkBehind(s: Shell, seen: set<string>, more: set<string>, rel: string, walk: seq<string>)
    requires IsWalk(s, seen + more, walk) && Step(s, seen, rel, walk[0])
    ensures IsWalk(s, seen, [rel] + walk)
  {
    var on := [rel] + walk;
    forall k | 0 <= k < |on| - 1
      ensures Step(s, seen, on[k], on[k + 1])
    {
      if k > 0 { assert Step(s, seen + more, walk[k - 1], walk[k - 1 + 1]); }
    }
  }

  lemma WalkFrom(s: Shell, seen: set<string>, walk: seq<string>, i: nat)
    requires IsWalk(s, seen, walk) && i < |walk| - 1
    ensures IsWalk(s, seen, walk[i..])
  {
    var rest := walk[i..];
    forall k | 0 <= k < |rest| - 1
      ensures Step(s, seen, rest[k], rest[k + 1])
    {
      assert Step(s, seen, walk[i + k], walk[i + k + 1]);
    }
  }

  lemma StepBefore(s: Shell, seen: set<string>, more: set<string>, rel: string, other: string, file: string)
    requires Valid(s) && rel in s.sourced && other in s.sourced[rel] - seen
    requires Sources(s, seen + more, other, file)
    ensures Sources(s, seen, rel, file) && file !in seen + more
  {
    hide Step;
    var walk: seq<string> :| Leads(s, seen + more, walk, other, file);
    EndIsOutside(s, seen + more, walk);
    assert Step(s, seen, rel, other) by { IsStep(s, seen, rel, other); }
    WalkBehind(s, seen, more, rel, walk);
    assert Leads(s, seen, [rel] + walk, rel, file);
  }

  lemma IsStep(s: Shell, seen: set<string>, rel: string, other: string)
    requires rel in s.sourced
    ensures Step(s, seen, rel, other) <==> other in s.sourced[rel] - seen
  {
  }

  /** The last place of a file on a walk. */
  function LastOf(walk: seq<string>, file: string): (i: nat)
    requires file in walk
    ensures i < |walk| && walk[i] == file && forall k :: i < k < |walk| ==> walk[k] != file
  {
    if walk[|walk| - 1] == file then |walk| - 1 else LastOf(walk[..|walk| - 1], file)
  }

  /** A walk goes on from the last place of its file without coming back to it. */
  lemma FromLast(s: Shell, seen: set<string>, walk: seq<string>, file: string)
    requires Valid(s) && IsWalk(s, seen, walk) && file in walk && file != walk[|walk| - 1]
    ensures var rest := walk[LastOf(walk, file)..];
      IsWalk(s, seen + {file}, rest) && rest[0] == file && rest[|rest| - 1] == walk[|walk| - 1] && |rest| <= |walk|
  {
    var i := LastOf(walk, file);
    var rest := walk[i..];
    WalkFrom(s, seen, walk, i);
    forall k | 0 <= k < |rest| - 1
      ensures Step(s, seen + {file}, rest[k], rest[k + 1])
    {
      assert Step(s, seen, rest[k], rest[k + 1]) && rest[k + 1] == walk[i + k + 1];
    }
  }

  /** From any walk to another file: the step out of `rel`, and a shorter walk on that comes back to neither. */
  lemma Shorter(s: Shell, seen: set<string>, walk: seq<string>, rel: string, file: string) returns (other: string)
    requires Valid(s) && Leads(s, seen, walk, rel, file) && file != rel
    ensures Step(s, seen, rel, other)
    ensures other == file || Sources(s, seen + {rel, other}, other, file)
  {
    hide Step;
    FromLast(s, seen, walk, rel);
    var out := walk[LastOf(walk, rel)..];
    other := out[1];
    assert Step(s, seen + {rel}, out[0], out[0 + 1]);
    assert Step(s, seen, rel, other) by { StepOutside(s, seen, {rel}, rel, other); }
    if other != file {
      WalkFrom(s, seen + {rel}, out, 1);
      var rest := out[1..];
      FromLast(s, seen + {rel}, rest, other);
      assert seen + {rel} + {other} == seen + {rel, other};
      assert Leads(s, seen + {rel, other}, rest[LastOf(rest, other)..], other, file);
    }
  }

  lemma StepOutside(s: Shell, seen: set<string>, more: set<string>, from: string, to: string)
    requires Step(s, seen + more, from, to)
    ensures Step(s, seen, from, to)
  {
  }

  /** What one round of the loop adds: the other file's own names and what it inherits further on. */
  ghost predicate Adds(s: Shell, seen: set<string>, rel: string, other: string, name: string)
    requires Valid(s)
  {
    other in s.own && (name in s.own[other] || Inherits(s, seen + {rel, other}, other, name))
  }

  lemma RoundsAreExact(s: Shell, seen: set<string>, rel: string, name: string)
    requires Valid(s) && rel in s.sourced
    ensures Inherits(s, seen, rel, name) <==>
      exists other :: other in s.sourced[rel] - seen && Adds(s, seen, rel, other, name)
  {
    if Inherits(s, seen, rel, name) {
      var file :| file in s.own && Gives(s, seen, rel, file) && name in s.own[file];
      if file == rel {
        assert Adds(s, seen, rel, rel, name);
      } else {
        var walk: seq<string> :| Leads(s, seen, walk, rel, file);
        var other := Shorter(s, seen, walk, rel, file);
        assert other != file ==> Gives(s, seen + {rel, other}, other, file);
        assert Adds(s, seen, rel, other, name);
      }
    }
    if other :| other in s.sourced[rel] - seen && Adds(s, seen, rel, other, name) {
      OneStep(s, seen, rel, other);
      if name in s.own[other] {
        assert Gives(s, seen, rel, other);
      } else {
        var file :| file in s.own && Gives(s, seen + {rel, other}, other, file) && name in s.own[file];
        StepBefore(s, seen, {rel, other}, rel, other, file);
        assert Gives(s, seen, rel, file);
      }
    }
  }

  /** `inherited`, with its own `seen` on every path. It ends on cyclic graphs too: each call has one file less
      outside `seen`. */
  method Inherited(s: Shell, rel: string, seen: set<string>) returns (names: set<string>)
    requires Valid(s) && rel in s.sourced
    ensures forall n :: n in names <==> Inherits(s, seen, rel, n)
    decreases s.sourced.Keys - seen
  {
    hide Inherits, Valid;
    names := {};
    assert s.sourced[rel] <= s.sourced.Keys && s.own.Keys == s.sourced.Keys by { Closed(s, rel); }
    var todo := s.sourced[rel] - seen;
    while todo != {}
      invariant todo <= s.sourced[rel] - seen
      invariant forall n ::
        n in names <==> exists other :: other in s.sourced[rel] - seen - todo && Adds(s, seen, rel, other, n)
      decreases |todo|
    {
      var other :| other in todo;
      assert other in s.sourced.Keys - seen && other !in s.sourced.Keys - (seen + {rel, other});
      var further := Inherited(s, other, seen + {rel, other});
      ghost var before := names;
      names := names + s.own[other] + further;
      forall n
        ensures n in names <==> n in before || Adds(s, seen, rel, other, n)
      {
      }
      hide Adds;
      todo := todo - {other};
    }
    forall n
      ensures n in names <==> Inherits(s, seen, rel, n)
    {
      RoundsAreExact(s, seen, rel, n);
    }
  }

  lemma Closed(s: Shell, rel: string)
    requires Valid(s) && rel in s.sourced
    ensures s.sourced[rel] <= s.sourced.Keys && s.own.Keys == s.sourced.Keys
  {
  }

  /** The files that source `rel`: the callers that do not only run it, as far as they are shell files. */
  function Consumers(s: Shell, scripts: set<string>, runBy: set<string>): set<string> {
    set c | c in scripts - runBy && c in s.sourced
  }

  ghost predicate Has(s: Shell, rel: string, consumer: string, name: string)
    requires Valid(s)
  {
    consumer in s.own && (name in s.own[consumer] || Inherits(s, {rel}, consumer, name))
  }

  /** `consumer_names`: the names every consumer has, and none where there is no consumer. */
  method ConsumerNames(s: Shell, rel: string, scripts: set<string>, runBy: set<string>) returns (names: set<string>)
    requires Valid(s)
    ensures forall n :: n in names <==>
      Consumers(s, scripts, runBy) != {} && forall c :: c in Consumers(s, scripts, runBy) ==> Has(s, rel, c, n)
  {
    hide Inherits;
    var consumers := Consumers(s, scripts, runBy);
    if consumers == {} { return {}; }
    var first :| first in consumers;
    var own := Inherited(s, first, {rel});
    names := s.own[first] + own;
    assert consumers - (consumers - {first}) == {first};
    assert forall n :: n in names <==> Has(s, rel, first, n);
    var todo := consumers - {first};
    while todo != {}
      invariant todo <= consumers - {first}
      invariant forall n :: n in names <==> forall c :: c in consumers - todo ==> Has(s, rel, c, n)
      decreases |todo|
    {
      var c :| c in todo;
      own := Inherited(s, c, {rel});
      ghost var before := names;
      names := names * (s.own[c] + own);
      assert forall n :: n in names <==> n in before && Has(s, rel, c, n);
      hide Has;
      todo := todo - {c};
    }
  }

  /** Two files that source each other: the second is collected, the first's own names are not, though it is
      reached. */
  lemma CycleLeavesOutItself(a: string, b: string, name: string)
    requires a != b
    ensures var s := Shell(map[a := {name}, b := {}], map[a := {b}, b := {a}]);
      Valid(s) && Sources(s, {}, a, a) && !Inherits(s, {}, a, name)
  {
    var s := Shell(map[a := {name}, b := {}], map[a := {b}, b := {a}]);
    assert Leads(s, {}, [a, b, a], a, a);
  }

  /** What is collected is every name of every file reached, as long as no other file leads back to `rel`. */
  lemma AllReachedUnlessCyclic(s: Shell, seen: set<string>, rel: string)
    requires Valid(s) && rel in s.sourced
    ensures (Sources(s, seen, rel, rel) ==> rel in s.sourced[rel])
      <==> forall file :: file in s.own ==> (Gives(s, seen, rel, file) <==> Sources(s, seen, rel, file))
  {
    if rel in s.sourced[rel] - seen { OneStep(s, seen, rel, rel); }
    if Sources(s, seen, rel, rel) {
      var walk: seq<string> :| Leads(s, seen, walk, rel, rel);
      EndIsOutside(s, seen, walk);
    }
  }
}
