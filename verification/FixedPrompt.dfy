/** Fitting a prompt to an exact token count (scripts/published/fixed_prompt.py): what the fit returns. */
module FixedPrompt {
  import opened Chars
  import opened Powers

  const INSTRUCTION := "Summarise the following document in a few sentences.\n\n"
  const FILLER := " the"

  /** What the server says of one body: nothing, no count, or a count. */
  datatype Answer = Silent | NoCount | Tokens(count: int)

  /** One fit. No body is asked twice, so one run sees the server as a function. */
  datatype Job = Job(server: string -> Answer, text: string, target: int)

  datatype Fit =
    | Fitted(words: nat, fillers: nat, count: int)
    | NoWord
    | Refused
    | CorpusTooShort(full: int)
    | WordTooLong
    | FillerMisses(base: int, perFiller: int)
    | FillerVaries(words: nat, fillers: nat, landed: int)

  /** `[m.end() for m in re.finditer(r"\S+", text)]` over the first `n` characters, a run at their end included. */
  function EndsTo(text: string, n: nat): (ends: seq<nat>)
    requires n <= |text|
    ensures forall k :: 0 <= k < |ends| ==> 0 < ends[k] <= n
    ensures forall k :: 0 <= k < |ends| - 1 ==> ends[k] < ends[k + 1]
    ensures n > 0 && !IsSpace(text[n - 1]) ==> ends != [] && ends[|ends| - 1] == n
  {
    if n == 0 then []
    else
      var before := EndsTo(text, n - 1);
      if IsSpace(text[n - 1]) then before
      else if n > 1 && !IsSpace(text[n - 2]) then before[..|before| - 1] + [n]
      else before + [n]
  }

  /** A word ends at `k` within the first `n` characters. */
  predicate IsEnd(text: string, n: nat, k: nat)
    requires n <= |text|
  {
    0 < k <= n && !IsSpace(text[k - 1]) && (k == n || IsSpace(text[k]))
  }

  /** A word ends where white space or the text ends it. */
  lemma {:induction false} EndsAreWordEnds(text: string, n: nat, k: nat)
    requires n <= |text|
    ensures k in EndsTo(text, n) <==> 0 < k <= n && !IsSpace(text[k - 1]) && (k == n || IsSpace(text[k]))
  {
    hide IsSpace, EndsTo;
    if n == 0 {
      NoEnds(text);
    } else {
      var before := EndsTo(text, n - 1);
      EndsAreWordEnds(text, n - 1, k);
      assert k in before <==> IsEnd(text, n - 1, k);
      EndsStep(text, n);
      EndStep(text, n, k);
      if n > 1 && !IsSpace(text[n - 2]) {
        InInit(before, k);
        InAppend(before[..|before| - 1], n, k);
      }
      InAppend(before, n, k);
      assert k in EndsTo(text, n) <==> IsEnd(text, n, k) by { hide IsEnd; }
    }
  }

  lemma EndStep(text: string, n: nat, k: nat)
    requires 0 < n <= |text|
    ensures IsEnd(text, n, k) <==>
      if IsSpace(text[n - 1]) then IsEnd(text, n - 1, k)
      else if n > 1 && !IsSpace(text[n - 2]) then (IsEnd(text, n - 1, k) && k != n - 1) || k == n
      else IsEnd(text, n - 1, k) || k == n
  {
    hide IsSpace;
  }

  lemma NoEnds(text: string)
    ensures EndsTo(text, 0) == []
  {
  }

  lemma InAppend(s: seq<nat>, x: nat, k: nat)
    ensures k in s + [x] <==> k in s || k == x
  {
  }

  lemma EndsStep(text: string, n: nat)
    requires 0 < n <= |text|
    ensures EndsTo(text, n) ==
      if IsSpace(text[n - 1]) then EndsTo(text, n - 1)
      else if n > 1 && !IsSpace(text[n - 2]) then EndsTo(text, n - 1)[..|EndsTo(text, n - 1)| - 1] + [n]
      else EndsTo(text, n - 1) + [n]
  {
  }

  lemma InInit(s: seq<nat>, k: nat)
    requires s != [] && forall j :: 0 <= j < |s| - 1 ==> s[j] < s[j + 1]
    ensures k in s[..|s| - 1] <==> k in s && k != s[|s| - 1]
  {
    var init := s[..|s| - 1];
    assert s == init + [s[|s| - 1]];
    forall j | 0 <= j < |init|
      ensures init[j] < s[|s| - 1]
    {
      Increasing(s, j, |s| - 1);
    }
  }

  lemma {:induction false} Increasing(s: seq<nat>, a: nat, b: nat)
    requires a < b < |s| && forall k :: 0 <= k < |s| - 1 ==> s[k] < s[k + 1]
    ensures s[a] < s[b]
    decreases b
  {
    if a < b - 1 { Increasing(s, a, b - 1); }
  }

  function Ends(job: Job): (ends: seq<nat>)
    ensures forall k :: 0 <= k < |ends| ==> ends[k] <= |job.text|
  {
    EndsTo(job.text, |job.text|)
  }

  function Copies(s: string, n: nat): string {
    if n == 0 then "" else Copies(s, n - 1) + s
  }

  /** `body_for`: the instruction, the first `words` words as they stand, and the fillers. */
  function BodyFor(job: Job, words: nat, fillers: nat): string
    requires 1 <= words <= |Ends(job)|
  {
    INSTRUCTION + job.text[..Ends(job)[words - 1]] + Copies(FILLER, fillers)
  }

  /** A count the fit can use. */
  function Ask(server: string -> Answer, body: string): Option<int> {
    match server(body)
    case Tokens(count) => if count > 0 then Some(count) else None
    case _ => None
  }

  function Count(job: Job, words: nat, fillers: nat): Option<int>
    requires 1 <= words <= |Ends(job)|
  {
    Ask(job.server, BodyFor(job, words, fillers))
  }

  /** The prefix counts at most the target. */
  predicate AtMost(job: Job, words: nat)
    requires 1 <= words <= |Ends(job)|
  {
    Count(job, words, 0).Some? && Count(job, words, 0).value <= job.target
  }

  predicate Above(job: Job, words: nat)
    requires 1 <= words <= |Ends(job)|
  {
    Count(job, words, 0).Some? && Count(job, words, 0).value > job.target
  }

  /** The halving search for the prefix; None when the server refuses a probe. */
  function Search(job: Job, lo: nat, hi: nat): (r: Option<nat>)
    requires 1 <= lo <= hi <= |Ends(job)|
    ensures r.Some? ==> lo <= r.value <= hi
    ensures r.Some? && AtMost(job, lo) ==> AtMost(job, r.value)
    ensures r.Some? && (hi < |Ends(job)| ==> Above(job, hi + 1)) ==> r.value < |Ends(job)| ==> Above(job, r.value + 1)
    decreases hi - lo
  {
    if lo == hi then Some(lo)
    else
      var mid := (lo + hi + 1) / 2;
      match Count(job, mid, 0)
      case None => None
      case Some(n) => if n <= job.target then Search(job, mid, hi) else Search(job, lo, mid - 1)
  }

  /** At most `rounds` corrections of the number of fillers. */
  function Correct(job: Job, words: nat, perFiller: int, fillers: nat, rounds: nat, landed: int): Fit
    requires 1 <= words <= |Ends(job)| && perFiller > 0
    decreases rounds
  {
    if rounds == 0 then FillerVaries(words, fillers, landed)
    else
      match Count(job, words, fillers)
      case None => Refused
      case Some(n) =>
        var step := (job.target - n) / perFiller;
        if n == job.target then Fitted(words, fillers, n)
        else if step == 0 || fillers + step < 1 then FillerVaries(words, fillers, n)
        else Correct(job, words, perFiller, fillers + step, rounds - 1, n)
  }

  /** From the chosen prefix on. */
  function Pad(job: Job, words: nat): Fit
    requires 1 <= words <= |Ends(job)| && AtMost(job, words)
  {
    var base := Count(job, words, 0).value;
    var residual := job.target - base;
    if residual == 0 then Fitted(words, 0, base)
    else
      match Count(job, words, 1)
      case None => Refused
      case Some(one) =>
        var perFiller := one - base;
        if perFiller <= 0 || residual % perFiller != 0 then FillerMisses(base, perFiller)
        else Correct(job, words, perFiller, residual / perFiller, 3, base)
  }

  /** `fit`. */
  function FitOf(job: Job): Fit {
    var n := |Ends(job)|;
    if n == 0 then NoWord
    else
      match Count(job, n, 0)
      case None => Refused
      case Some(full) =>
        if full < job.target then CorpusTooShort(full)
        else
          match Count(job, 1, 0)
          case None => Refused
          case Some(one) =>
            if one > job.target then WordTooLong
            else
              match Search(job, 1, n)
              case None => Refused
              case Some(words) => Pad(job, words)
  }

  // ---- what a fit means ------------------------------------------------------

  lemma {:induction false} CorrectLands(job: Job, words: nat, perFiller: int, fillers: nat, rounds: nat, landed: int)
    requires 1 <= words <= |Ends(job)| && perFiller > 0
    ensures match Correct(job, words, perFiller, fillers, rounds, landed)
      case Fitted(w, f, n) => w == words && n == job.target && Count(job, words, f) == Some(job.target)
      case other => other.Refused? || other.FillerVaries?
    decreases rounds
  {
    hide Count, Ends;
    if rounds > 0 && Count(job, words, fillers).Some? {
      var n := Count(job, words, fillers).value;
      var step := (job.target - n) / perFiller;
      if n != job.target && step != 0 && fillers + step >= 1 {
        CorrectLands(job, words, perFiller, fillers + step, rounds - 1, n);
      }
    }
  }

  /** A fit is never a near miss: its body counts exactly the target, its prefix at most the target, and
      the prefix one word longer, if there is one, more. */
  lemma NeverNearMiss(job: Job)
    requires FitOf(job).Fitted?
    ensures var r := FitOf(job);
      && 1 <= r.words <= |Ends(job)| && r.count == job.target
      && Count(job, r.words, r.fillers) == Some(job.target)
      && AtMost(job, r.words) && (r.words < |Ends(job)| ==> Above(job, r.words + 1))
  {
    hide Count, Ends, Correct;
    var words := Search(job, 1, |Ends(job)|).value;
    var base := Count(job, words, 0).value;
    var residual := job.target - base;
    if residual != 0 {
      var perFiller := Count(job, words, 1).value - base;
      CorrectLands(job, words, perFiller, residual / perFiller, 3, base);
    }
  }

  /** The counts of the prefixes do not fall. */
  ghost predicate Monotone(job: Job) {
    forall a, b :: 1 <= a <= b <= |Ends(job)| ==>
      Count(job, a, 0).Some? && Count(job, b, 0).Some? && Count(job, a, 0).value <= Count(job, b, 0).value
  }

  /** With counts that do not fall the prefix of a fit is the longest at or below the target. */
  lemma LongestPrefix(job: Job, words: nat)
    requires Monotone(job) && FitOf(job).Fitted? && FitOf(job).words < words <= |Ends(job)|
    ensures Above(job, words)
  {
    hide FitOf, Count, Ends;
    NeverNearMiss(job);
    assert Count(job, FitOf(job).words + 1, 0).value <= Count(job, words, 0).value;
  }

  /** The prefix the search settles on, once both ends allow a search. */
  ghost predicate Chosen(job: Job, words: nat) {
    var n := |Ends(job)|;
    && n > 0 && Count(job, n, 0).Some? && Count(job, n, 0).value >= job.target
    && AtMost(job, 1) && Search(job, 1, n) == Some(words)
  }

  /** A tokenizer that charges `joint` for joining fillers to the prefix and `each` for every one of them. */
  ghost predicate Charges(job: Job, words: nat, joint: int, each: int)
    requires 1 <= words <= |Ends(job)|
  {
    && Count(job, words, 0).Some?
    && forall f: nat :: f >= 1 ==> Count(job, words, f) == Some(Count(job, words, 0).value + joint + f * each)
  }

  lemma ChosenFits(job: Job, words: nat)
    requires Chosen(job, words)
    ensures 1 <= words <= |Ends(job)| && AtMost(job, words) && FitOf(job) == Pad(job, words)
  {
    hide Count, Ends, Pad, Correct;
  }

  lemma Divides(a: int, b: int)
    requires b > 0
    ensures a % b == 0 <==> (a / b) * b == a
    ensures (a / b) * b <= a < (a / b) * b + b
    ensures a > 0 && a % b == 0 ==> a / b >= 1
  {
  }

  /** With a constant price and nothing for joining, the fit succeeds exactly when the price divides the
      residual, which is exactly when some number of fillers lands on the target. */
  lemma ConstantFiller(job: Job, words: nat, each: int)
    requires Chosen(job, words) && 1 <= words <= |Ends(job)| && Charges(job, words, 0, each)
    ensures var residual := job.target - Count(job, words, 0).value;
      FitOf(job).Fitted? <==> residual == 0 || (each > 0 && residual % each == 0)
    ensures FitOf(job).Fitted? <==> exists f: nat :: Count(job, words, f) == Some(job.target)
  {
    hide FitOf, Ends, Count, Search;
    ChosenFits(job, words);
    var base := Count(job, words, 0).value;
    var residual := job.target - base;
    assert Count(job, words, 1) == Some(base + 1 * each);
    if residual != 0 && each > 0 {
      Divides(residual, each);
      var f: nat := residual / each;
      if residual % each == 0 {
        assert Count(job, words, f) == Some(base + f * each);
        assert Correct(job, words, each, f, 3, base) == Fitted(words, f, job.target);
      }
    }
    if exists f: nat :: Count(job, words, f) == Some(job.target) {
      var f: nat :| Count(job, words, f) == Some(job.target);
      if f > 0 { Landing(residual, f, each); }
    }
  }

  lemma Landing(residual: int, f: nat, each: int)
    requires residual >= 0 && f >= 1 && residual == f * each
    ensures residual == 0 || (each > 0 && residual % each == 0)
  {
    if residual > 0 {
      Times(0, f, if each <= 0 then -each else 0);
      Multiple(f, each);
    }
  }

  lemma {:induction false} Multiple(f: nat, each: int)
    requires each > 0
    ensures (f * each) % each == 0 && (f * each) / each == f
  {
    Divides(f * each, each);
    var q := (f * each) / each;
    assert q * each <= f * each < q * each + each;
    if q < f { Times(q + 1, f, each); }
    if q > f { Times(f + 1, q, each); }
  }

  /** A correction by the measured price never makes up for a charge for joining. */
  lemma StillShort(missing: int, joint: int, each: int)
    requires missing > 0 && joint >= 1 && each >= 1
    ensures missing - (missing / (joint + each)) * each > 0
  {
    var price := joint + each;
    var q := missing / price;
    Divides(missing, price);
    assert q * price == q * joint + q * each;
    if q >= 1 { assert q * joint >= 1; }
  }

  lemma StaysShort(short: int, joint: int, each: int, fillers: nat)
    requires short > 0 && joint >= 1 && joint + each >= 1
    ensures short / (joint + each) >= 0
    ensures (fillers + short / (joint + each)) * each < fillers * each + short
  {
    var step := short / (joint + each);
    Divides(short, joint + each);
    if each >= 1 { StillShort(short, joint, each); } else { Times(0, step, -each); }
    assert (fillers + step) * each == fillers * each + step * each;
  }

  lemma {:induction false} CorrectFallsShort(job: Job, words: nat, joint: int, each: int, fillers: nat,
                                             rounds: nat, landed: int)
    requires 1 <= words <= |Ends(job)| && joint >= 1 && joint + each >= 1 && fillers >= 1
    requires Charges(job, words, joint, each)
    requires Count(job, words, 0).value + joint + fillers * each < job.target
    ensures !Correct(job, words, joint + each, fillers, rounds, landed).Fitted?
    decreases rounds
  {
    hide Count, Ends;
    if rounds > 0 {
      var n := Count(job, words, 0).value + joint + fillers * each;
      assert Count(job, words, fillers) == Some(n);
      var step := (job.target - n) / (joint + each);
      StaysShort(job.target - n, joint, each, fillers);
      if step != 0 {
        CorrectFallsShort(job, words, joint, each, fillers + step, rounds - 1, n);
      }
    }
  }

  lemma MoreThanOne(f: nat, joint: int, each: int)
    requires f >= 2 && joint >= 1
    ensures f * (joint + each) > joint + f * each
  {
    assert f * (joint + each) == f * joint + f * each;
    Times(2, f, joint);
  }

  /** With a charge for joining the fit succeeds only when no filler or exactly one is needed, however many
      would land on the target. */
  lemma JoiningCharge(job: Job, words: nat, joint: int, each: int)
    requires Chosen(job, words) && 1 <= words <= |Ends(job)|
    requires joint >= 1 && Charges(job, words, joint, each)
    ensures var residual := job.target - Count(job, words, 0).value;
      && (FitOf(job).Fitted? <==> residual == 0 || residual == joint + each)
      && (each >= 1 ==>
            ((exists f: nat :: Count(job, words, f) == Some(job.target))
             <==> residual == 0 || (residual > joint && (residual - joint) % each == 0)))
  {
    hide FitOf, Ends, Count, Search, Correct;
    ChosenFits(job, words);
    var base := Count(job, words, 0).value;
    var residual := job.target - base;
    var price := joint + each;
    assert Count(job, words, 1) == Some(base + joint + 1 * each);
    if residual != 0 && price > 0 && residual % price == 0 {
      Divides(residual, price);
      var f: nat := residual / price;
      if f == 1 {
        LandsAtOnce(job, words, price, base);
      } else {
        MoreThanOne(f, joint, each);
        CorrectFallsShort(job, words, joint, each, f, 3, base);
      }
    }
    if price > 0 { Multiple(1, price); }
    if each >= 1 { ReachableWithCharge(job, words, joint, each); }
  }

  lemma LandsAtOnce(job: Job, words: nat, perFiller: int, base: int)
    requires 1 <= words <= |Ends(job)| && perFiller > 0 && Count(job, words, 1) == Some(job.target)
    ensures Correct(job, words, perFiller, 1, 3, base) == Fitted(words, 1, job.target)
  {
  }

  lemma ReachableWithCharge(job: Job, words: nat, joint: int, each: int)
    requires 1 <= words <= |Ends(job)| && AtMost(job, words)
    requires joint >= 1 && each >= 1 && Charges(job, words, joint, each)
    ensures var residual := job.target - Count(job, words, 0).value;
      (exists f: nat :: Count(job, words, f) == Some(job.target))
      <==> residual == 0 || (residual > joint && (residual - joint) % each == 0)
  {
    hide Count, Ends;
    var base := Count(job, words, 0).value;
    var residual := job.target - base;
    if residual == 0 { assert Count(job, words, 0) == Some(job.target); }
    if residual > joint && (residual - joint) % each == 0 {
      Divides(residual - joint, each);
      var f: nat := (residual - joint) / each;
      assert Count(job, words, f) == Some(base + joint + f * each);
    }
    if exists f: nat :: Count(job, words, f) == Some(job.target) {
      var f: nat :| Count(job, words, f) == Some(job.target);
      if f > 0 {
        Times(1, f, each);
        Multiple(f, each);
      }
    }
  }

  // ---- a charge below zero: joining saves tokens -----------------------------

  function CeilOf(n: int, d: int): int
    requires d > 0
  {
    -((-n) / d)
  }

  /** The first guess `residual / price` is too high; the first correction takes the surplus off and `back` more,
      the second puts `back` on again. That works out when both stay within a price and above zero. */
  predicate Settles(residual: int, saved: int, each: int)
    requires saved >= 1
  {
    var price := each - saved;
    && price > 0 && residual % price == 0 && (residual + saved) % each == 0
    && var fillers := (residual + saved) / each;
       var back := CeilOf(saved * (residual / price - fillers), price);
       back < fillers && saved * back < price
  }

  lemma DivIs(n: int, d: int, q: int, rest: int)
    requires d > 0 && n == q * d + rest && 0 <= rest < d
    ensures n / d == q && n % d == rest
  {
    var x := n / d;
    assert x * d <= n < x * d + d;
    if x < q { Times(x + 1, q, d); }
    if x > q { Times(q + 1, x, d); }
  }

  lemma DivPlus(t: int, n: int, d: int)
    requires d > 0
    ensures (t * d + n) / d == t + n / d
  {
    assert (t + n / d) * d == t * d + n / d * d;
    DivIs(t * d + n, d, t + n / d, n % d);
  }

  /** The corrections after a first guess of `k`, as arithmetic. */
  predicate Corrected(k: int, saved: int, price: int)
    requires price > 0
  {
    var c := CeilOf(saved * (k - 1), price);
    var missing := (price + saved) * c - saved * (k - 1);
    k == 1 || (k - c >= 1 && missing / price >= 1 && missing == (price + saved) * (missing / price))
  }

  lemma SplitCeil(t: int, saved: int, price: int)
    requires price > 0
    ensures CeilOf((price + saved) * t, price) == t + CeilOf(saved * t, price)
  {
    assert -((price + saved) * t) == (-t) * price + -(saved * t);
    DivPlus(-t, -(saved * t), price);
  }

  lemma SettlesFrom(k: int, t: int, saved: int, price: int)
    requires price > 0 && saved >= 1 && k >= 1 && saved * (k - 1) == (price + saved) * t
    ensures Settles(k * price, saved, price + saved)
      <==> CeilOf(saved * t, price) < k - t && saved * CeilOf(saved * t, price) < price
  {
    var each := price + saved;
    DivIs(k * price, price, k, 0);
    assert k * price + saved == (k - t) * each by {
      assert (k - t) * each == k * price + k * saved - each * t;
      assert k * saved == saved * (k - 1) + saved;
    }
    DivIs(k * price + saved, each, k - t, 0);
    assert k * price / price - (k * price + saved) / each == t;
  }

  lemma SettlesHasSurplus(k: int, saved: int, price: int) returns (t: int)
    requires price > 0 && saved >= 1 && k >= 1 && Settles(k * price, saved, price + saved)
    ensures saved * (k - 1) == (price + saved) * t
  {
    var each := price + saved;
    var f := (k * price + saved) / each;
    Whole(k * price + saved, each);
    hide Settles;
    Surplus(k, saved, price, f);
    t := k - f;
  }

  lemma Whole(n: int, d: int)
    requires d > 0 && n % d == 0
    ensures n == n / d * d
  {
  }

  lemma Surplus(k: int, saved: int, price: int, f: int)
    requires k * price + saved == f * (price + saved)
    ensures saved * (k - 1) == (price + saved) * (k - f)
  {
    var each := price + saved;
    assert each * (k - f) == k * each - f * each;
    assert k * each == k * price + k * saved;
    assert saved * (k - 1) == k * saved - saved;
  }

  lemma SettledIsCorrected(k: int, saved: int, price: int)
    requires price > 0 && saved >= 1 && k >= 2 && Settles(k * price, saved, price + saved)
    ensures Corrected(k, saved, price)
  {
    hide CeilOf, Settles;
    var each, short := price + saved, saved * (k - 1);
    var t := SettlesHasSurplus(k, saved, price);
    SettlesFrom(k, t, saved, price);
    SplitCeil(t, saved, price);
    SurplusIsPositive(k, t, saved, price);
    var c, back := CeilOf(short, price), CeilOf(saved * t, price);
    assert each * c - short == back * price + saved * back by { assert each * c - each * t == each * back; }
    DivIs(each * c - short, price, back, saved * back);
  }

  lemma CorrectedSettles(k: int, saved: int, price: int)
    requires price > 0 && saved >= 1 && k >= 2 && Corrected(k, saved, price)
    ensures Settles(k * price, saved, price + saved)
  {
    hide CeilOf, Settles;
    var each, short := price + saved, saved * (k - 1);
    var c := CeilOf(short, price);
    var again := (each * c - short) / price;
    var t := c - again;
    assert each * t == each * c - each * again;
    SettlesFrom(k, t, saved, price);
    SplitCeil(t, saved, price);
    assert each * again == again * price + saved * again;
    DivPlus(again, saved * again, price);
    SmallDividend(saved * again, price);
  }

  lemma CorrectedIff(k: int, saved: int, price: int)
    requires price > 0 && saved >= 1 && k >= 1
    ensures Corrected(k, saved, price) <==> Settles(k * price, saved, price + saved)
  {
    hide CeilOf, Settles;
    if k == 1 {
      SettlesFrom(1, 0, saved, price);
      NoCeil(price);
    } else {
      hide Corrected;
      if Settles(k * price, saved, price + saved) { SettledIsCorrected(k, saved, price); }
      if Corrected(k, saved, price) { CorrectedSettles(k, saved, price); }
    }
  }

  lemma NoCeil(price: int)
    requires price > 0
    ensures CeilOf(0, price) == 0
  {
  }

  lemma SmallDividend(n: int, d: int)
    requires d > 0 && n / d == 0
    ensures n < d
  {
  }

  lemma SurplusIsPositive(k: int, t: int, saved: int, price: int)
    requires price > 0 && saved >= 1 && k >= 2 && saved * (k - 1) == (price + saved) * t
    ensures CeilOf(saved * t, price) >= 1 && saved * CeilOf(saved * t, price) >= 0
  {
    Times(1, k - 1, saved);
    if t <= 0 { Times(0, -t, price + saved); }
    Times(1, t, saved);
    CeilIsPositive(saved * t, price);
    Times(1, CeilOf(saved * t, price), saved);
  }

  lemma CeilIsPositive(n: int, d: int)
    requires d > 0 && n > 0
    ensures CeilOf(n, d) >= 1
  {
    var q := (-n) / d;
    assert q * d <= -n;
    if q >= 0 { Times(0, q, d); }
  }

  lemma MissingIsPositive(k: int, saved: int, price: int)
    requires price > 0 && saved >= 1 && k >= 2
    ensures var c := CeilOf(saved * (k - 1), price);
      c >= 1 && (price + saved) * c - saved * (k - 1) > 0
  {
    var short := saved * (k - 1);
    var c := CeilOf(short, price);
    Times(1, k - 1, saved);
    CeilIsPositive(short, price);
    assert -c * price <= -short;
    Times(1, c, saved);
    assert (price + saved) * c == c * price + saved * c;
  }

  /** How many tokens `fillers` of them leave to the target. */
  function Left(k: int, saved: int, price: int, fillers: int): int {
    k * price + saved - fillers * (price + saved)
  }

  lemma LeftIs(job: Job, words: nat, saved: int, price: int, k: int, fillers: nat)
    requires 1 <= words <= |Ends(job)| && Charges(job, words, -saved, price + saved) && fillers >= 1
    requires job.target == Count(job, words, 0).value + k * price
    ensures Count(job, words, fillers) == Some(job.target - Left(k, saved, price, fillers))
  {
    hide Count, Ends;
  }

  /** One round of the corrections. */
  lemma OneRound(job: Job, words: nat, saved: int, price: int, k: int, fillers: nat, rounds: nat, landed: int)
    requires 1 <= words <= |Ends(job)| && price > 0 && Charges(job, words, -saved, price + saved) && fillers >= 1
    requires job.target == Count(job, words, 0).value + k * price && rounds >= 1
    ensures var left := Left(k, saved, price, fillers);
      Correct(job, words, price, fillers, rounds, landed).Fitted? <==>
        left == 0 || (left / price != 0 && fillers + left / price >= 1
          && Correct(job, words, price, fillers + left / price, rounds - 1, job.target - left).Fitted?)
  {
    LeftIs(job, words, saved, price, k, fillers);
    hide Count, Ends, Charges, Left;
  }

  lemma LastRounds(job: Job, words: nat, saved: int, price: int, k: int, fillers: nat, landed: int)
    requires 1 <= words <= |Ends(job)| && price > 0 && Charges(job, words, -saved, price + saved) && fillers >= 1
    requires job.target == Count(job, words, 0).value + k * price && Left(k, saved, price, fillers) > 0
    ensures var again := Left(k, saved, price, fillers) / price;
      Correct(job, words, price, fillers, 2, landed).Fitted? <==>
        again >= 1 && Left(k, saved, price, fillers + again) == 0
  {
    var again := Left(k, saved, price, fillers) / price;
    OneRound(job, words, saved, price, k, fillers, 2, landed);
    NotNegative(Left(k, saved, price, fillers), price);
    hide Left;
    if again >= 1 {
      OneRound(job, words, saved, price, k, fillers + again, 1, job.target - Left(k, saved, price, fillers));
    }
    hide Count, Ends, Charges;
  }

  /** The three rounds in terms of what they leave. */
  predicate ThreeRounds(k: int, saved: int, price: int)
    requires price > 0
  {
    var first := Left(k, saved, price, k);
    var fillers := k + first / price;
    var second := Left(k, saved, price, fillers);
    first == 0
    || (fillers >= 1 && second / price >= 1 && Left(k, saved, price, fillers + second / price) == 0)
  }

  lemma GuessRounds(job: Job, words: nat, saved: int, price: int, k: nat)
    requires 1 <= words <= |Ends(job)| && saved >= 1 && price > 0 && k >= 1
    requires Charges(job, words, -saved, price + saved)
    requires job.target == Count(job, words, 0).value + k * price
    requires k >= 2 ==> Left(k, saved, price, k) / price != 0
    requires k >= 2 ==> Left(k, saved, price, k + Left(k, saved, price, k) / price) > 0
    requires Left(k, saved, price, k) == 0 <==> k == 1
    ensures Correct(job, words, price, k, 3, Count(job, words, 0).value).Fitted? <==> ThreeRounds(k, saved, price)
  {
    OneRound(job, words, saved, price, k, k, 3, Count(job, words, 0).value);
    hide Left;
    var first := Left(k, saved, price, k);
    var fillers := k + first / price;
    if k >= 2 && fillers >= 1 {
      LastRounds(job, words, saved, price, k, fillers, job.target - first);
    }
    hide Count, Ends, Charges, Correct;
  }

  lemma CorrectFromGuess(job: Job, words: nat, saved: int, price: int, k: nat)
    requires 1 <= words <= |Ends(job)| && saved >= 1 && price > 0 && k >= 1
    requires Charges(job, words, -saved, price + saved)
    requires job.target == Count(job, words, 0).value + k * price
    ensures Correct(job, words, price, k, 3, Count(job, words, 0).value).Fitted? <==> Corrected(k, saved, price)
  {
    RoundsAreCorrected(k, saved, price);
    hide Left, Corrected, ThreeRounds, Correct;
    GuessRounds(job, words, saved, price, k);
  }

  lemma RoundsAreCorrected(k: int, saved: int, price: int)
    requires saved >= 1 && price > 0 && k >= 1
    ensures k >= 2 ==> Left(k, saved, price, k) / price != 0
    ensures k >= 2 ==> Left(k, saved, price, k + Left(k, saved, price, k) / price) > 0
    ensures Left(k, saved, price, k) == 0 <==> k == 1
    ensures ThreeRounds(k, saved, price) <==> Corrected(k, saved, price)
  {
    LeftOfGuess(k, saved, price);
    var c := CeilOf(saved * (k - 1), price);
    var missing := (price + saved) * c - saved * (k - 1);
    if k >= 2 { MissingIsPositive(k, saved, price); }
    LeftAfter(k, saved, price, k, c);
    LeftAfter(k, saved, price, k - c, -(missing / price));
    hide Left, CeilOf;
  }

  lemma LeftOfGuess(k: int, saved: int, price: int)
    requires price > 0
    ensures Left(k, saved, price, k) == -(saved * (k - 1))
    ensures Left(k, saved, price, k) / price == -CeilOf(saved * (k - 1), price)
    ensures saved >= 1 && k >= 1 ==> (Left(k, saved, price, k) == 0 <==> k == 1)
  {
    assert k * (price + saved) == k * price + k * saved;
    assert saved * (k - 1) == k * saved - saved;
    if saved >= 1 && k >= 2 { Times(1, k - 1, saved); }
  }

  lemma LeftAfter(k: int, saved: int, price: int, fillers: int, less: int)
    ensures Left(k, saved, price, fillers - less) == Left(k, saved, price, fillers) + (price + saved) * less
  {
    assert (fillers - less) * (price + saved) == fillers * (price + saved) - (price + saved) * less;
  }

  lemma NotNegative(n: int, d: int)
    requires n > 0 && d > 0
    ensures n / d >= 0
  {
  }

  /** Where joining saves tokens, the fit succeeds exactly when the corrections settle; some number of fillers
      lands whenever the price of one divides what is left with the saving. */
  lemma JoiningSaves(job: Job, words: nat, saved: int, each: int)
    requires Chosen(job, words) && 1 <= words <= |Ends(job)|
    requires saved >= 1 && Charges(job, words, -saved, each)
    ensures var residual := job.target - Count(job, words, 0).value;
      && (FitOf(job).Fitted? <==> residual == 0 || Settles(residual, saved, each))
      && ((exists f: nat :: Count(job, words, f) == Some(job.target))
          <==> residual == 0 || (each > 0 && (residual + saved) % each == 0))
  {
    hide FitOf, Ends, Count, Search, Correct, CeilOf;
    ChosenFits(job, words);
    var base := Count(job, words, 0).value;
    var residual, price := job.target - base, each - saved;
    assert Count(job, words, 1) == Some(base + -saved + 1 * each);
    if residual != 0 && price > 0 && residual % price == 0 {
      Divides(residual, price);
      CorrectFromGuess(job, words, saved, price, residual / price);
      CorrectedIff(residual / price, saved, price);
    }
    ReachableWithSaving(job, words, saved, each);
  }

  lemma ReachableWithSaving(job: Job, words: nat, saved: int, each: int)
    requires 1 <= words <= |Ends(job)| && AtMost(job, words)
    requires saved >= 1 && Charges(job, words, -saved, each)
    ensures var residual := job.target - Count(job, words, 0).value;
      (exists f: nat :: Count(job, words, f) == Some(job.target))
      <==> residual == 0 || (each > 0 && (residual + saved) % each == 0)
  {
    hide Count, Ends;
    var base := Count(job, words, 0).value;
    var residual := job.target - base;
    if residual == 0 { assert Count(job, words, 0) == Some(job.target); }
    if each > 0 && (residual + saved) % each == 0 {
      Divides(residual + saved, each);
      var f: nat := (residual + saved) / each;
      assert Count(job, words, f) == Some(base + -saved + f * each);
    }
    if exists f: nat :: Count(job, words, f) == Some(job.target) {
      var f: nat :| Count(job, words, f) == Some(job.target);
      if f > 0 {
        assert residual + saved == f * each;
        Landing(residual + saved, f, each);
      }
    }
  }
}
