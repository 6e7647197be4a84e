/** `reachable` (scripts/report/scripts_gate_recall.py): the files a script runs, sources or imports, and
    what those do in turn. */
module CallGraph {

  /** A file and the scripts that call it. */
  datatype Callers = Callers(rel: string, scripts: seq<string>)

  predicate Calls(callers: seq<Callers>, from: string, to: string) {
    exists k :: 0 <= k < |callers| && callers[k].rel == to && from in callers[k].scripts
  }

  /** A walk of one call or more. */
  predicate IsWalk(callers: seq<Callers>, walk: seq<string>) {
    |walk| >= 2 && forall k :: 0 <= k < |walk| - 1 ==> Calls(callers, walk[k], walk[k + 1])
  }

  predicate Leads(callers: seq<Callers>, walk: seq<string>, start: string, end: string) {
    IsWalk(callers, walk) && walk[0] == start && walk[|walk| - 1] == end
  }

  ghost predicate Reaches(callers: seq<Callers>, start: string, end: string) {
    exists walk :: Leads(callers, walk, start, end)
  }

  /** `callees.get(name, [])`. */
  function CalleesOf(callees: map<string, seq<string>>, name: string): seq<string> {
    if name in callees then callees[name] else []
  }

  /** The loop that turns the caller lists around. */
  method Callees(callers: seq<Callers>) returns (callees: map<string, seq<string>>)
    ensures forall from, to :: to in CalleesOf(callees, from) <==> Calls(callers, from, to)
  {
    callees := map[];
    for i := 0 to |callers|
      invariant forall from, to :: to in CalleesOf(callees, from) <==> Calls(callers[..i], from, to)
    {
      var c := callers[i];
      for k := 0 to |c.scripts|
        invariant forall from, to ::
          to in CalleesOf(callees, from) <==> Calls(callers[..i], from, to) || (to == c.rel && from in c.scripts[..k])
      {
        hide Calls;
        var from := c.scripts[k];
        assert c.scripts[..k + 1] == c.scripts[..k] + [from];
        callees := callees[from := CalleesOf(callees, from) + [c.rel]];
      }
      assert c.scripts[..|c.scripts|] == c.scripts;
      forall from, to
        ensures Calls(callers[..i + 1], from, to)
          <==> Calls(callers[..i], from, to) || (to == c.rel && from in c.scripts)
      {
        OneMore(callers, i, from, to);
      }
      hide Calls;
    }
    assert callers[..|callers|] == callers;
  }

  lemma OneMore(callers: seq<Callers>, i: nat, from: string, to: string)
    requires i < |callers|
    ensures Calls(callers[..i + 1], from, to)
      <==> Calls(callers[..i], from, to) || (to == callers[i].rel && from in callers[i].scripts)
  {
    var before, after := callers[..i], callers[..i + 1];
    if Calls(before, from, to) {
      var k :| 0 <= k < |before| && before[k].rel == to && from in before[k].scripts;
      assert after[k] == before[k];
    }
    if to == callers[i].rel && from in callers[i].scripts { assert after[i] == callers[i]; }
    if Calls(after, from, to) {
      var k :| 0 <= k < |after| && after[k].rel == to && from in after[k].scripts;
      assert k < i ==> before[k] == after[k];
    }
  }

  ghost function Files(callers: seq<Callers>): set<string> {
    set k | 0 <= k < |callers| :: callers[k].rel
  }

  lemma CalledIsFile(callers: seq<Callers>, from: string, to: string)
    requires Calls(callers, from, to)
    ensures to in Files(callers)
  {
  }

  lemma OneCall(callers: seq<Callers>, start: string, end: string)
    requires Calls(callers, start, end)
    ensures Reaches(callers, start, end)
  {
    assert Leads(callers, [start, end], start, end);
  }

  lemma OneCallMore(callers: seq<Callers>, start: string, name: string, end: string)
    requires Reaches(callers, start, name) && Calls(callers, name, end)
    ensures Reaches(callers, start, end)
  {
    hide Calls;
    var walk: seq<string> :| Leads(callers, walk, start, name);
    assert Leads(callers, walk + [end], start, end);
  }

  // ---- the worklist ----------------------------------------------------------

  /** What `from` calls is seen, or still to be taken from the loop at hand. */
  ghost predicate Followed(callers: seq<Callers>, from: string, seen: set<string>) {
    forall to :: Calls(callers, from, to) ==> to in seen
  }

  ghost predicate Inv(callers: seq<Callers>, start: string, seen: set<string>, pending: seq<string>) {
    && seen <= Files(callers)
    && (forall n :: n in seen ==> Reaches(callers, start, n))
    && (forall n :: n in pending ==> n == start || n in seen)
    && (start in pending || Followed(callers, start, seen))
    && (forall n :: n in seen ==> n in pending || Followed(callers, n, seen))
  }

  lemma {:induction false} WalkIsSeen(callers: seq<Callers>, start: string, seen: set<string>, walk: seq<string>)
    requires Inv(callers, start, seen, []) && IsWalk(callers, walk) && walk[0] == start
    ensures walk[|walk| - 1] in seen
    decreases |walk|
  {
    hide Calls, Reaches, Files;
    assert Calls(callers, walk[|walk| - 2], walk[|walk| - 1]);
    if |walk| > 2 {
      WalkIsSeen(callers, start, seen, walk[..|walk| - 1]);
      assert Followed(callers, walk[|walk| - 2], seen);
    }
  }

  /** One name taken from the worklist and its callees gone through. */
  lemma Turn(callers: seq<Callers>, start: string, seen: set<string>, pending: seq<string>, name: string,
             seen': set<string>, pending': seq<string>)
    requires Inv(callers, start, seen, pending + [name])
    requires seen <= seen' && pending <= pending' && Followed(callers, name, seen')
    requires forall n :: n in seen' && n !in seen ==> Calls(callers, name, n) && n in pending'
    requires forall n :: n in pending' ==> n in pending || n in seen'
    ensures Inv(callers, start, seen', pending')
  {
    hide Calls, Reaches, Files;
    assert forall n :: n in pending + [name] <==> n in pending || n == name;
    assert forall n :: n in pending ==> n in pending';
    forall n | n in seen' && n !in seen
      ensures n in Files(callers) && Reaches(callers, start, n)
    {
      CalledIsFile(callers, name, n);
      if name == start {
        OneCall(callers, start, n);
      } else {
        OneCallMore(callers, start, name, n);
      }
    }
  }

  lemma Smaller<T>(a: set<T>, b: set<T>)
    requires a <= b
    ensures |a| <= |b| && (|a| == |b| ==> a == b)
  {
    if a != b {
      assert b == a + (b - a) && |b| == |a| + |b - a|;
    }
  }

  /** Exactly the files reached by one call or more. */
  method Reachable(callers: seq<Callers>, start: string) returns (seen: set<string>)
    ensures forall n :: n in seen <==> Reaches(callers, start, n)
  {
    var callees := Callees(callers);
    hide Calls, Reaches, Files, CalleesOf;
    seen := {};
    var pending := [start];
    while pending != []
      invariant Inv(callers, start, seen, pending)
      decreases |Files(callers) - seen|, |pending|
    {
      var name := pending[|pending| - 1];
      ghost var seen0, rest := seen, pending[..|pending| - 1];
      assert pending == rest + [name];
      pending := pending[..|pending| - 1];
      var called := CalleesOf(callees, name);
      for k := 0 to |called|
        invariant seen0 <= seen && rest <= pending
        invariant forall n :: n in seen && n !in seen0 ==> n in called && n in pending
        invariant forall n :: n in called[..k] ==> n in seen
        invariant forall n :: n in pending ==> n in rest || n in seen
        invariant seen == seen0 ==> pending == rest
      {
        assert called[..k + 1] == called[..k] + [called[k]];
        if called[k] !in seen {
          seen := seen + {called[k]};
          pending := pending + [called[k]];
        }
      }
      assert called[..|called|] == called;
      Turn(callers, start, seen0, rest, name, seen, pending);
      Smaller(Files(callers) - seen, Files(callers) - seen0);
      if seen != seen0 { assert exists n :: n in seen && n !in seen0; }
    }
    forall n | Reaches(callers, start, n)
      ensures n in seen
    {
      ReachedIsSeen(callers, start, seen, n);
    }
  }

  lemma ReachedIsSeen(callers: seq<Callers>, start: string, seen: set<string>, n: string)
    requires Inv(callers, start, seen, []) && Reaches(callers, start, n)
    ensures n in seen
  {
    hide Inv;
    var walk: seq<string> :| Leads(callers, walk, start, n);
    WalkIsSeen(callers, start, seen, walk);
  }
}
