/** The memoising counter and the loops of `fit` (scripts/published/fixed_prompt.py). */
module FixedPromptRun {
  import opened Chars
  import opened FixedPrompt
  import opened Powers

  /** `Counter`: asks the server once for each body, and counts how often it was answered. */
  class Counter {
    const server: string -> Answer
    var probes: nat
    var seen: map<string, int>

    constructor (server: string -> Answer)
      ensures this.server == server && Valid() && probes == 0 && seen == map[]
    {
      this.server := server;
      probes, seen := 0, map[];
    }

    /** The table holds what the server says, and was filled by one probe a body. */
    ghost predicate Valid()
      reads this
    {
      |seen| == probes && forall body :: body in seen ==> Ask(server, body) == Some(seen[body])
    }

    /** `__call__`: a body in the table costs nothing, another at most one probe. */
    method Call(body: string) returns (r: Option<int>)
      requires Valid()
      modifies this`probes, this`seen
      ensures r == Ask(server, body)
      ensures r.Some? ==> Valid() && seen == old(seen)[body := r.value]
      ensures r == None ==> seen == old(seen)
      ensures old(probes) <= probes <= old(probes) + if body in old(seen) then 0 else 1
    {
      if body in seen { return Some(seen[body]); }
      match server(body) {
        case Silent => return None;
        case NoCount => probes := probes + 1; return None;
        case Tokens(count) =>
          probes := probes + 1;
          if count <= 0 { return None; }
          seen := seen[body := count];
          return Some(count);
      }
    }
  }

  lemma HalvingSaves(lo: nat, hi: nat)
    requires lo < hi
    ensures var mid := (lo + hi + 1) / 2;
      && lo < mid <= hi
      && CeilLog2(hi - mid + 1) + 1 <= CeilLog2(hi - lo + 1) && CeilLog2(mid - lo) + 1 <= CeilLog2(hi - lo + 1)
  {
    var mid := (lo + hi + 1) / 2;
    CeilLog2Grows(mid - lo, (hi - lo + 2) / 2);
    CeilLog2Grows(hi - mid + 1, (hi - lo + 2) / 2);
  }

  // ---- fit -------------------------------------------------------------------

  ghost predicate Ready(job: Job, counter: Counter)
    reads counter
  {
    counter.server == job.server && counter.Valid()
  }

  /** The prefix of that many words is in the table. */
  ghost predicate Asked(job: Job, counter: Counter, words: nat)
    reads counter
  {
    1 <= words <= |Ends(job)| && BodyFor(job, words, 0) in counter.seen
  }

  /** One probe of `fit`; what was in the table stays there. */
  method Probe(job: Job, counter: Counter, words: nat, fillers: nat, ghost held: nat) returns (r: Option<int>)
    requires 1 <= words <= |Ends(job)| && Ready(job, counter)
    modifies counter`probes, counter`seen
    ensures r == Count(job, words, fillers)
    ensures r.Some? ==> Ready(job, counter)
    ensures r.Some? && fillers == 0 ==> Asked(job, counter, words)
    ensures old(Asked(job, counter, held)) ==> Asked(job, counter, held)
    ensures old(counter.probes) <= counter.probes
    ensures counter.probes <= old(counter.probes) + if fillers == 0 && old(Asked(job, counter, words)) then 0 else 1
  {
    hide BodyFor, Ends;
    r := counter.Call(BodyFor(job, words, fillers));
  }

  /** The halving loop: at most one probe for each halving, and the prefix it settles on has been asked for. */
  method Halve(job: Job, counter: Counter) returns (r: Option<nat>)
    requires |Ends(job)| > 0 && Ready(job, counter) && Asked(job, counter, 1)
    modifies counter`probes, counter`seen
    ensures r == Search(job, 1, |Ends(job)|)
    ensures r.Some? ==> Ready(job, counter) && Asked(job, counter, r.value)
    ensures old(counter.probes) <= counter.probes <= old(counter.probes) + CeilLog2(|Ends(job)|)
  {
    hide Ends, Count, CeilLog2, Ready, Asked;
    var n := |Ends(job)|;
    var lo, hi := 1, n;
    while lo < hi
      invariant 1 <= lo <= hi <= n && Ready(job, counter) && Asked(job, counter, lo)
      invariant Search(job, 1, n) == Search(job, lo, hi)
      invariant old(counter.probes) <= counter.probes
      invariant counter.probes + CeilLog2(hi - lo + 1) <= old(counter.probes) + CeilLog2(n)
    {
      var mid := (lo + hi + 1) / 2;
      HalvingSaves(lo, hi);
      var count := Probe(job, counter, mid, 0, lo);
      if count == None { return None; }
      if count.value <= job.target {
        lo := mid;
      } else {
        hi := mid - 1;
      }
    }
    return Some(lo);
  }

  /** The correction loop. */
  method Adjust(job: Job, counter: Counter, words: nat, perFiller: int, fillers: nat, base: int) returns (r: Fit)
    requires 1 <= words <= |Ends(job)| && Ready(job, counter) && perFiller > 0
    modifies counter`probes, counter`seen
    ensures r == Correct(job, words, perFiller, fillers, 3, base)
    ensures old(counter.probes) <= counter.probes <= old(counter.probes) + 3
  {
    hide Ends, Count, Ready, Asked;
    var reps: nat, landed := fillers, base;
    for round := 0 to 3
      invariant Ready(job, counter)
      invariant Correct(job, words, perFiller, fillers, 3, base)
          == Correct(job, words, perFiller, reps, 3 - round, landed)
      invariant old(counter.probes) <= counter.probes <= old(counter.probes) + round
    {
      var count := Probe(job, counter, words, reps, words);
      if count == None { return Refused; }
      landed := count.value;
      if landed == job.target { return Fitted(words, reps, landed); }
      var step := (job.target - landed) / perFiller;
      if step == 0 || reps + step < 1 { break; }
      reps := reps + step;
    }
    r := FillerVaries(words, reps, landed);
  }

  /** `fit`, with the number of probes it may cost. */
  method FitRun(job: Job, counter: Counter) returns (r: Fit)
    requires Ready(job, counter)
    modifies counter`probes, counter`seen
    ensures r == FitOf(job)
    ensures counter.probes <= old(counter.probes) + CeilLog2(|Ends(job)|) + 6
  {
    hide Ends, Count, Search, Correct, CeilLog2, Ready, Asked;
    var n := |Ends(job)|;
    if n == 0 { return NoWord; }
    var full := Probe(job, counter, n, 0, n);
    if full == None { return Refused; }
    if full.value < job.target { return CorpusTooShort(full.value); }
    var one := Probe(job, counter, 1, 0, n);
    if one == None { return Refused; }
    if one.value > job.target { return WordTooLong; }
    var words := Halve(job, counter);
    if words == None { return Refused; }
    var base := Probe(job, counter, words.value, 0, n);
    if base == None { return Refused; }
    var residual := job.target - base.value;
    if residual == 0 { return Fitted(words.value, 0, base.value); }
    var filled := Probe(job, counter, words.value, 1, n);
    if filled == None { return Refused; }
    var perFiller := filled.value - base.value;
    if perFiller <= 0 || residual % perFiller != 0 { return FillerMisses(base.value, perFiller); }
    r := Adjust(job, counter, words.value, perFiller, residual / perFiller, base.value);
  }
}
