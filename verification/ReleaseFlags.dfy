/** The flags of the release build and what the check of a tarball reads back (scripts/release/release_cpu.py). */
module ReleaseFlags {
  import opened Chars

  const BASELINE := "apple-m1"
  const CPU := "-Ctarget-cpu="
  const FEATURE := "-Ctarget-feature="
  const REMAP := "--remap-path-prefix="

  datatype Unreadable = BareAtTheEnd

  type Flags = Result<seq<string>, Unreadable>

  predicate Starts(s: string, word: string) {
    StartsAt(s, 0, word)
  }

  function DashOf(c: char): char {
    if c == '_' then '-' else c
  }

  function Dashed(s: string): (r: string)
    ensures |r| == |s| && forall k :: 0 <= k < |s| ==> r[k] == DashOf(s[k])
  {
    seq(|s|, k requires 0 <= k < |s| => DashOf(s[k]))
  }

  /** `codegen`: dashes in the option name, the value as it stands. */
  function Codegen(opt: string): string {
    var eq := Find(opt, '=', 0);
    ['-', 'C'] + (Dashed(opt[..eq]) + opt[eq..])
  }

  predicate IsBare(tok: string) {
    tok == "-C" || tok == "--codegen"
  }

  /** A token that carries its option with it, or no option at all. */
  function Single(tok: string): string {
    if Starts(tok, "--codegen=") then Codegen(tok[10..])
    else if Starts(tok, "-C") then Codegen(tok[2..])
    else tok
  }

  /** `normalize`. */
  function Normalize(flags: seq<string>): Flags {
    if flags == [] then Ok([])
    else if !IsBare(flags[0]) then Prefixed([Single(flags[0])], Normalize(flags[1..]))
    else if |flags| == 1 then Err(BareAtTheEnd)
    else Prefixed([Codegen(flags[1])], Normalize(flags[2..]))
  }

  method NormalizeLoop(flags: seq<string>) returns (r: Flags)
    ensures r == Normalize(flags)
  {
    hide Codegen, Single, IsBare;
    var out: seq<string> := [];
    var i := 0;
    assert flags[0..] == flags;
    PrefixedEnds([], Normalize(flags));
    while i < |flags|
      invariant i <= |flags| && Normalize(flags) == Prefixed(out, Normalize(flags[i..]))
      decreases |flags| - i
    {
      var tok, rest := flags[i], flags[i..];
      assert rest[0] == tok && rest[1..] == flags[i + 1..];
      if IsBare(tok) {
        if i + 1 == |flags| { return Err(BareAtTheEnd); }
        assert rest[1] == flags[i + 1] && rest[2..] == flags[i + 2..];
        PrefixedTwice(out, [Codegen(flags[i + 1])], Normalize(flags[i + 2..]));
        out := out + [Codegen(flags[i + 1])];
        i := i + 2;
      } else {
        PrefixedTwice(out, [Single(tok)], Normalize(flags[i + 1..]));
        out := out + [Single(tok)];
        i := i + 1;
      }
    }
    assert flags[i..] == [];
    PrefixedEnds(out, Normalize([]));
    r := Ok(out);
  }

  /** The target CPUs among normalised tokens. */
  function Cpus(toks: seq<string>): seq<string> {
    if toks == [] then []
    else (if Starts(toks[0], CPU) then [toks[0][|CPU|..]] else []) + Cpus(toks[1..])
  }

  predicate IsOther(tok: string) {
    !Starts(tok, CPU) && !Starts(tok, REMAP)
  }

  /** Every token but a target CPU and a path remap. */
  function Others(toks: seq<string>): seq<string> {
    if toks == [] then [] else (if IsOther(toks[0]) then [toks[0]] else []) + Others(toks[1..])
  }

  datatype Split = Split(cpus: seq<string>, rest: seq<string>)

  /** `split_cpu`. */
  function SplitCpu(flags: seq<string>): Result<Split, Unreadable> {
    match Normalize(flags)
    case Err(e) => Err(e)
    case Ok(toks) => Ok(Split(Cpus(toks), Others(toks)))
  }

  method SplitLoop(flags: seq<string>) returns (r: Result<Split, Unreadable>)
    ensures r == SplitCpu(flags)
  {
    hide Normalize, IsOther, Starts;
    var toks := NormalizeLoop(flags);
    if toks.Err? { return Err(toks.error); }
    var cpus: seq<string>, rest: seq<string> := [], [];
    assert toks.value[0..] == toks.value;
    for i := 0 to |toks.value|
      invariant Cpus(toks.value) == cpus + Cpus(toks.value[i..])
      invariant Others(toks.value) == rest + Others(toks.value[i..])
    {
      var tok := toks.value[i];
      assert toks.value[i..][0] == tok && toks.value[i..][1..] == toks.value[i + 1..];
      OtherIsNoCpu(tok);
      if Starts(tok, CPU) {
        cpus := cpus + [CpuOf(tok)];
      } else if !Starts(tok, REMAP) {
        rest := rest + [tok];
      }
    }
    assert toks.value[|toks.value|..] == [];
    assert cpus + [] == cpus && rest + [] == rest;
    r := Ok(Split(cpus, rest));
  }

  function CpuOf(tok: string): string
    requires Starts(tok, CPU)
  {
    tok[|CPU|..]
  }

  lemma OtherIsNoCpu(tok: string)
    ensures IsOther(tok) <==> !Starts(tok, CPU) && !Starts(tok, REMAP)
    ensures Starts(tok, CPU) ==> |CPU| <= |tok|
  {
  }

  /** `target_features` finds one. */
  predicate SetsFeature(toks: seq<string>) {
    exists k :: 0 <= k < |toks| && Starts(toks[k], FEATURE)
  }

  datatype Release = Emitted(flags: seq<string>) | Refused | ConfigUnreadable

  function Emit(rest: seq<string>, home: string): seq<string> {
    [CPU + BASELINE] + rest + [REMAP + home + "=~"]
  }

  /** `release_rustflags`. */
  function ReleaseOf(config: seq<string>, home: string): Release {
    match SplitCpu(config)
    case Err(_) => ConfigUnreadable
    case Ok(split) => if SetsFeature(split.rest) then Refused else Emitted(Emit(split.rest, home))
  }

  datatype Verdict = Accepted | OtherCpu | Feature | OtherFlags | Unknown

  /** The comparison of `check`: recorded flags against config.toml's. */
  function Check(recorded: seq<string>, config: seq<string>): Verdict {
    match (SplitCpu(recorded), SplitCpu(config))
    case (Ok(got), Ok(want)) =>
      if got.cpus != [BASELINE] then OtherCpu
      else if SetsFeature(got.rest) then Feature
      else if got.rest != want.rest then OtherFlags
      else Accepted
    case _ => Unknown
  }

  // ---- normalising twice, and piece by piece ---------------------------------

  /** A codegen token that carries an option is left as it is. */
  lemma CodegenIsStable(opt: string)
    requires opt != ""
    ensures !IsBare(Codegen(opt)) && Single(Codegen(opt)) == Codegen(opt)
  {
    var eq := Find(opt, '=', 0);
    var name, value := Dashed(opt[..eq]), opt[eq..];
    var body := name + value;
    assert Codegen(opt) == ['-', 'C'] + body && Codegen(opt)[2..] == body;
    forall k | 0 <= k < eq
      ensures body[k] != '='
    {
      assert body[k] == DashOf(opt[k]);
    }
    assert eq < |body| ==> body[eq] == opt[eq];
    FindIs(body, '=', 0, eq);
    assert body[..eq] == name && body[eq..] == value;
    assert Dashed(name) == name;
    StartsWithC(Codegen(opt), body);
  }

  lemma DoesNotStart(s: string, word: string, k: nat)
    requires k < |s| && k < |word| && s[k] != word[k]
    ensures !Starts(s, word)
  {
    assert |word| <= |s| ==> s[0..|word|][k] == s[k];
  }

  lemma StartsWithC(tok: string, body: string)
    requires tok == ['-', 'C'] + body
    ensures Starts(tok, "-C") && !Starts(tok, "--codegen=") && (body != "" ==> !IsBare(tok))
  {
    assert tok[1] == 'C' && tok[0..2] == "-C";
    DoesNotStart(tok, "--codegen=", 1);
  }

  lemma CodegenIsBare(opt: string)
    ensures Codegen(opt) == "-C" <==> opt == ""
  {
    var eq := Find(opt, '=', 0);
    assert |Codegen(opt)| == 2 + |opt|;
    assert opt == "" ==> Codegen(opt) == ['-', 'C'];
  }

  /** What `normalize` makes of a token is a bare `-C`, or a token it leaves as it is. */
  lemma SingleIsSettled(tok: string)
    requires !IsBare(tok)
    ensures Single(tok) == "-C" || (!IsBare(Single(tok)) && Single(Single(tok)) == Single(tok))
  {
    if Starts(tok, "--codegen=") {
      CodegenIsBare(tok[10..]);
      if tok[10..] != "" { CodegenIsStable(tok[10..]); }
    } else if Starts(tok, "-C") {
      CodegenIsBare(tok[2..]);
      if tok[2..] != "" { CodegenIsStable(tok[2..]); }
    }
  }

  /** Read token by token: an option is written `--codegen=` with nothing behind it, or a bare `-C` or `--codegen`
      is followed by an empty token. */
  predicate HoldsEmptyOption(flags: seq<string>) {
    if flags == [] then false
    else if !IsBare(flags[0]) then flags[0] == "--codegen=" || HoldsEmptyOption(flags[1..])
    else |flags| > 1 && (flags[1] == "" || HoldsEmptyOption(flags[2..]))
  }

  lemma SingleIsBare(tok: string)
    requires !IsBare(tok)
    ensures Single(tok) == "-C" <==> tok == "--codegen="
  {
    if Starts(tok, "--codegen=") {
      CodegenIsBare(tok[10..]);
      assert tok == tok[0..10] + tok[10..];
    } else if Starts(tok, "-C") {
      CodegenIsBare(tok[2..]);
      assert tok == tok[0..2] + tok[2..];
    }
  }

  /** A bare `-C` comes out exactly where an empty option went in. */
  lemma {:induction false} EmptyOptionLeavesBare(flags: seq<string>)
    requires Normalize(flags).Ok?
    ensures "-C" in Normalize(flags).value <==> HoldsEmptyOption(flags)
  {
    hide Single, Codegen;
    if flags != [] {
      if !IsBare(flags[0]) {
        SingleIsBare(flags[0]);
        EmptyOptionLeavesBare(flags[1..]);
      } else {
        CodegenIsBare(flags[1]);
        EmptyOptionLeavesBare(flags[2..]);
      }
      hide IsBare;
    }
  }

  lemma {:induction false} OthersKeepBare(toks: seq<string>)
    ensures "-C" in Others(toks) <==> "-C" in toks
  {
    assert IsOther("-C") by { DoesNotStart("-C", REMAP, 1); }
    hide IsOther;
    if toks != [] {
      assert toks == [toks[0]] + toks[1..];
      OthersKeepBare(toks[1..]);
    }
  }

  /** The same among config.toml's other flags. */
  lemma EmptyOptionStays(config: seq<string>)
    requires SplitCpu(config).Ok?
    ensures "-C" in SplitCpu(config).value.rest <==> HoldsEmptyOption(config)
  {
    EmptyOptionLeavesBare(config);
    OthersKeepBare(Normalize(config).value);
    hide Normalize, Others, HoldsEmptyOption;
  }

  predicate Settled(toks: seq<string>) {
    forall k :: 0 <= k < |toks| ==> toks[k] == "-C" || (!IsBare(toks[k]) && Single(toks[k]) == toks[k])
  }

  lemma {:induction false} NormalizedIsSettled(flags: seq<string>)
    requires Normalize(flags).Ok?
    ensures Settled(Normalize(flags).value)
  {
    if flags != [] {
      if !IsBare(flags[0]) {
        NormalizedIsSettled(flags[1..]);
        SingleIsSettled(flags[0]);
      } else {
        NormalizedIsSettled(flags[2..]);
        CodegenIsBare(flags[1]);
        if flags[1] != "" { CodegenIsStable(flags[1]); }
      }
      hide IsBare, Single, Codegen;
    }
  }

  /** Settled tokens without a bare `-C` normalise to themselves. */
  lemma {:induction false} SettledStays(toks: seq<string>)
    requires Settled(toks) && "-C" !in toks
    ensures Normalize(toks) == Ok(toks)
  {
    hide Single, IsBare;
    if toks != [] {
      assert toks == [toks[0]] + toks[1..];
      assert forall k :: 0 <= k < |toks[1..]| ==> toks[1..][k] == toks[k + 1];
      SettledStays(toks[1..]);
    }
  }

  /** Normalising is idempotent exactly where no empty option went in. */
  lemma NormalizeTwice(flags: seq<string>)
    requires Normalize(flags).Ok?
    ensures Normalize(Normalize(flags).value) == Normalize(flags) <==> !HoldsEmptyOption(flags)
  {
    var toks := Normalize(flags).value;
    EmptyOptionLeavesBare(flags);
    NormalizedIsSettled(flags);
    if "-C" !in toks {
      SettledStays(toks);
    } else {
      BareShortens(toks);
    }
  }

  lemma {:induction false} NormalizeShortens(flags: seq<string>)
    requires Normalize(flags).Ok?
    ensures |Normalize(flags).value| <= |flags|
  {
    hide Single, IsBare, Codegen;
    if flags != [] {
      if !IsBare(flags[0]) { NormalizeShortens(flags[1..]); } else { NormalizeShortens(flags[2..]); }
    }
  }

  lemma {:induction false} BareShortens(toks: seq<string>)
    requires "-C" in toks
    ensures Normalize(toks).Ok? ==> |Normalize(toks).value| < |toks|
  {
    hide Single, Codegen;
    if Normalize(toks).Ok? {
      assert toks == [toks[0]] + toks[1..];
      if !IsBare(toks[0]) {
        BareShortens(toks[1..]);
      } else {
        NormalizeShortens(toks[2..]);
      }
    }
  }

  /** A list that is complete, no option name left waiting, normalises apart from what follows. */
  lemma {:induction false} NormalizeApart(a: seq<string>, b: seq<string>)
    requires Normalize(a).Ok?
    ensures Normalize(a + b) == Prefixed(Normalize(a).value, Normalize(b))
  {
    hide Single, IsBare, Codegen;
    if a == [] {
      assert a + b == b;
      PrefixedEnds([], Normalize(b));
    } else {
      var n := if IsBare(a[0]) then 2 else 1;
      var tok := if IsBare(a[0]) then Codegen(a[1]) else Single(a[0]);
      assert (a + b)[0] == a[0] && (n == 2 ==> (a + b)[1] == a[1]) && (a + b)[n..] == a[n..] + b;
      NormalizeApart(a[n..], b);
      if Normalize(b).Ok? { Associates([tok], Normalize(a[n..]).value, Normalize(b).value); }
    }
  }

  // ---- the emitted flags are read back ---------------------------------------

  lemma {:induction false} OthersOf(toks: seq<string>)
    requires forall k :: 0 <= k < |toks| ==> IsOther(toks[k])
    ensures Others(toks) == toks && Cpus(toks) == []
  {
    if toks != [] {
      assert toks == [toks[0]] + toks[1..];
      assert forall k :: 0 <= k < |toks[1..]| ==> toks[1..][k] == toks[k + 1];
      OtherIsNoCpu(toks[0]);
      OthersOf(toks[1..]);
    }
  }

  lemma {:induction false} OthersAre(toks: seq<string>)
    ensures forall k :: 0 <= k < |Others(toks)| ==> IsOther(Others(toks)[k]) && Others(toks)[k] in toks
    ensures |Others(toks)| <= |toks|
  {
    hide IsOther;
    if toks != [] {
      assert toks == [toks[0]] + toks[1..];
      OthersAre(toks[1..]);
    }
  }

  lemma {:induction false} OthersOfConcat(a: seq<string>, b: seq<string>)
    ensures Others(a + b) == Others(a) + Others(b) && Cpus(a + b) == Cpus(a) + Cpus(b)
  {
    if a == [] {
      assert a + b == b;
    } else {
      assert (a + b)[0] == a[0] && (a + b)[1..] == a[1..] + b;
      OthersOfConcat(a[1..], b);
      Associates(if IsOther(a[0]) then [a[0]] else [], Others(a[1..]), Others(b));
      OtherIsNoCpu(a[0]);
      Associates(if Starts(a[0], CPU) then [CpuOf(a[0])] else [], Cpus(a[1..]), Cpus(b));
      hide IsOther, Starts;
    }
  }

  /** The two tokens around the flags. */
  lemma CpuToken()
    ensures !IsBare(CPU + BASELINE) && Single(CPU + BASELINE) == CPU + BASELINE
    ensures Cpus([CPU + BASELINE]) == [BASELINE] && Others([CPU + BASELINE]) == []
  {
    var tok: string, opt: string := CPU + BASELINE, "target-cpu=apple-m1";
    assert tok == ['-', 'C'] + opt;
    StartsWithC(tok, opt);
    FindIs(opt, '=', 0, 10);
    assert Dashed(opt[..10]) == opt[..10];
    assert tok[2..] == opt && opt[..10] + opt[10..] == opt;
    assert tok[0..|CPU|] == CPU && tok[|CPU|..] == BASELINE;
    var one: seq<string> := [tok];
    assert one[1..] == [];
  }

  lemma RemapToken(home: string)
    ensures var tok := REMAP + home + "=~";
      !IsBare(tok) && Single(tok) == tok && Cpus([tok]) == [] && Others([tok]) == []
      && Codegen(tok) != "-C"
  {
    var tok: string := REMAP + home + "=~";
    assert tok[0] == '-' && tok[1] == '-' && tok[2] == 'r';
    assert tok[0..|REMAP|] == REMAP;
    DoesNotStart(tok, "--codegen=", 2);
    DoesNotStart(tok, "-C", 1);
    DoesNotStart(tok, CPU, 1);
    var one: seq<string> := [tok];
    assert one[1..] == [];
    CodegenIsBare(tok);
  }

  lemma {:induction false} MergedIsShort(flags: seq<string>, remap: string)
    requires !IsBare(remap) && Single(remap) == remap && Others([remap]) == []
    ensures Normalize(flags + [remap]).Ok? && |Others(Normalize(flags + [remap]).value)| <= |flags|
  {
    hide Single, IsOther, Codegen;
    var all := flags + [remap];
    if flags == [] {
      assert all == [remap] && all[1..] == [];
    } else if !IsBare(flags[0]) {
      assert all[0] == flags[0] && all[1..] == flags[1..] + [remap];
      MergedIsShort(flags[1..], remap);
      OthersStep(Single(flags[0]), Normalize(all[1..]).value);
    } else if |flags| == 1 {
      assert all[0] == flags[0] && all[1] == remap && all[2..] == [];
      OthersAre([Codegen(remap)]);
    } else {
      assert all[0] == flags[0] && all[1] == flags[1] && all[2..] == flags[2..] + [remap];
      MergedIsShort(flags[2..], remap);
      OthersStep(Codegen(flags[1]), Normalize(all[2..]).value);
    }
  }

  lemma OthersStep(tok: string, more: seq<string>)
    ensures Others([tok] + more) == (if IsOther(tok) then [tok] else []) + Others(more)
  {
    assert ([tok] + more)[1..] == more;
  }

  /** A bare `-C` among the flags takes the token behind it with it. */
  lemma {:induction false} BareChanges(rest: seq<string>, remap: string)
    requires Settled(rest) && "-C" in rest && forall k :: 0 <= k < |rest| ==> IsOther(rest[k])
    requires !IsBare(remap) && Single(remap) == remap && Others([remap]) == [] && Codegen(remap) != "-C"
    ensures Normalize(rest + [remap]).Ok? && Others(Normalize(rest + [remap]).value) != rest
  {
    hide Single, IsOther, Codegen;
    var all := rest + [remap];
    assert rest == [rest[0]] + rest[1..];
    assert all[0] == rest[0];
    if !IsBare(rest[0]) {
      assert all[1..] == rest[1..] + [remap];
      assert forall k :: 0 <= k < |rest[1..]| ==> rest[1..][k] == rest[k + 1];
      BareChanges(rest[1..], remap);
      OthersStep(rest[0], Normalize(all[1..]).value);
      SameHead(rest[0], Others(Normalize(all[1..]).value), rest[1..]);
    } else if |rest| == 1 {
      assert all[1] == remap && all[2..] == [];
      OthersStep(Codegen(remap), []);
      assert Normalize(all) == Ok([Codegen(remap)] + []);
    } else {
      assert all[1] == rest[1] && all[2..] == rest[2..] + [remap];
      MergedIsShort(rest[2..], remap);
      OthersStep(Codegen(rest[1]), Normalize(all[2..]).value);
    }
  }

  lemma SameHead(tok: string, a: seq<string>, b: seq<string>)
    ensures [tok] + a == [tok] + b <==> a == b
  {
    assert ([tok] + a)[1..] == a && ([tok] + b)[1..] == b;
  }

  lemma {:induction false} OthersKeepSettled(toks: seq<string>)
    requires Settled(toks)
    ensures Settled(Others(toks))
  {
    hide IsBare, Single;
    OthersAre(toks);
    forall k | 0 <= k < |Others(toks)|
      ensures Others(toks)[k] == "-C" || (!IsBare(Others(toks)[k]) && Single(Others(toks)[k]) == Others(toks)[k])
    {
      var j :| 0 <= j < |toks| && toks[j] == Others(toks)[k];
    }
  }

  lemma NormalizeOne(tok: string)
    requires !IsBare(tok) && Single(tok) == tok
    ensures Normalize([tok]) == Ok([tok])
  {
    hide Single, IsBare, Codegen;
    var one: seq<string> := [tok];
    assert one[1..] == [] && one + [] == one;
    assert Normalize(one[1..]) == Ok([]);
  }

  predicate AreOthers(rest: seq<string>) {
    Settled(rest) && forall k :: 0 <= k < |rest| ==> IsOther(rest[k])
  }

  lemma RestAreOthers(config: seq<string>)
    requires SplitCpu(config).Ok?
    ensures AreOthers(SplitCpu(config).value.rest)
  {
    hide Normalize, IsOther, Settled;
    NormalizedIsSettled(config);
    OthersKeepSettled(Normalize(config).value);
    OthersAre(Normalize(config).value);
  }

  lemma EmitSplits(rest: seq<string>, home: string)
    ensures Normalize(Emit(rest, home)) == Prefixed([CPU + BASELINE], Normalize(rest + [REMAP + home + "=~"]))
  {
    hide Normalize, Single, IsBare;
    CpuToken();
    NormalizeOne(CPU + BASELINE);
    NormalizeApart([CPU + BASELINE], rest + [REMAP + home + "=~"]);
    assert Emit(rest, home) == [CPU + BASELINE] + (rest + [REMAP + home + "=~"]);
  }

  lemma SplitBehindCpu(toks: seq<string>)
    ensures Cpus([CPU + BASELINE] + toks) == [BASELINE] + Cpus(toks)
    ensures Others([CPU + BASELINE] + toks) == Others(toks)
  {
    hide Cpus, Others;
    CpuToken();
    OthersOfConcat([CPU + BASELINE], toks);
    assert [] + Others(toks) == Others(toks);
  }

  lemma CleanReadsBack(rest: seq<string>, home: string)
    requires AreOthers(rest) && "-C" !in rest
    ensures SplitCpu(Emit(rest, home)) == Ok(Split([BASELINE], rest))
  {
    hide Normalize, Single, IsBare, IsOther, Cpus, Others, Emit;
    var remap := REMAP + home + "=~";
    RemapToken(home);
    EmitSplits(rest, home);
    SettledStays(rest);
    NormalizeApart(rest, [remap]);
    NormalizeOne(remap);
    OthersOf(rest);
    OthersOfConcat(rest, [remap]);
    SplitBehindCpu(rest + [remap]);
    assert rest + [] == rest && [BASELINE] + [] == [BASELINE];
  }

  lemma BareReadsOther(rest: seq<string>, home: string)
    requires AreOthers(rest) && "-C" in rest
    ensures SplitCpu(Emit(rest, home)).Ok? && SplitCpu(Emit(rest, home)).value.rest != rest
  {
    hide Normalize, Single, IsBare, IsOther, Cpus, Others, Emit, Codegen;
    RemapToken(home);
    EmitSplits(rest, home);
    BareChanges(rest, REMAP + home + "=~");
    SplitBehindCpu(Normalize(rest + [REMAP + home + "=~"]).value);
  }

  /** The emitted flags split into exactly the baseline and config.toml's other flags, unless config.toml holds an
      empty codegen option: then they never do. */
  lemma EmittedReadsBack(config: seq<string>, home: string)
    requires SplitCpu(config).Ok?
    ensures var rest := SplitCpu(config).value.rest;
      SplitCpu(Emit(rest, home)) == Ok(Split([BASELINE], rest)) <==> !HoldsEmptyOption(config)
  {
    hide SplitCpu, Emit, AreOthers, HoldsEmptyOption;
    var rest := SplitCpu(config).value.rest;
    EmptyOptionStays(config);
    RestAreOthers(config);
    if "-C" in rest { BareReadsOther(rest, home); } else { CleanReadsBack(rest, home); }
  }

  /** `check` accepts a binary built with the emitted flags exactly when config.toml holds no empty option. */
  lemma ReleaseIsAccepted(config: seq<string>, home: string)
    requires ReleaseOf(config, home).Emitted?
    ensures Check(ReleaseOf(config, home).flags, config) == Accepted <==> !HoldsEmptyOption(config)
  {
    hide SplitCpu, Emit, SetsFeature, HoldsEmptyOption;
    EmittedReadsBack(config, home);
    var rest := SplitCpu(config).value.rest;
    match SplitCpu(Emit(rest, home)) {
      case Ok(got) => if got.cpus == [BASELINE] && got.rest == rest { assert got == Split([BASELINE], rest); }
      case Err(_) =>
    }
  }
}
