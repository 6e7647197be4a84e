/** The whole comparison: sample rows, prompt rows and what one row more or less does. */
module ReadBack {
  import opened Chars
  import opened Aggregate
  import opened Records
  import opened Requery
  import opened RoundTrip

  // ---- the rows of the prompt blocks -----------------------------------------

  /** One row for each figure of a prompt. */
  function PromptRows(name: string, maxTokens: Option<int>, wants: seq<Want>): seq<DbRow> {
    if wants == [] then []
    else
      var w := wants[|wants| - 1];
      PromptRows(name, maxTokens, wants[..|wants| - 1]) + [DbRow(name, w.metric, maxTokens, w.value)]
  }

  function LabelRows(prefix: string, maxTokens: Option<int>, prompts: seq<Prompt>): seq<DbRow> {
    if prompts == [] then []
    else
      var p := prompts[|prompts| - 1];
      LabelRows(prefix, maxTokens, prompts[..|prompts| - 1]) + PromptRows(Under(prefix + p.title), maxTokens, p.wants)
  }

  predicate DistinctMetrics(wants: seq<Want>) {
    forall i, j :: 0 <= i < j < |wants| ==> wants[i].metric != wants[j].metric
  }

  predicate DistinctTitles(prompts: seq<Prompt>) {
    && (forall i, j :: 0 <= i < j < |prompts| ==> prompts[i].title != prompts[j].title)
    && (forall i :: 0 <= i < |prompts| ==> DistinctMetrics(prompts[i].wants))
  }

  predicate AllFiled(rows: seq<DbRow>, filing: Filing) {
    forall i :: 0 <= i < |rows| ==> FilingOf(rows[i].name) == filing
  }

  lemma FiledStep(r: DbRow, rest: seq<DbRow>, filing: Filing)
    ensures Filed([r] + rest, filing) == (if FilingOf(r.name) == filing then [r] else []) + Filed(rest, filing)
  {
    hide FilingOf;
    assert ([r] + rest)[1..] == rest;
  }

  lemma {:induction false} FiledOfConcat(a: seq<DbRow>, b: seq<DbRow>, filing: Filing)
    ensures Filed(a + b, filing) == Filed(a, filing) + Filed(b, filing)
  {
    if a == [] {
      assert a + b == b && Filed(a, filing) == [];
    } else {
      hide FilingOf, Filed;
      var r, rest := a[0], a[1..];
      assert a == [r] + rest;
      FiledOfConcat(rest, b, filing);
      FiledStep(r, rest, filing);
      FiledStep(r, rest + b, filing);
      Associates([r], rest, b);
      Associates(if FilingOf(r.name) == filing then [r] else [], Filed(rest, filing), Filed(b, filing));
    }
  }

  lemma {:induction false} FiledAllOrNothing(rows: seq<DbRow>, own: Filing, filing: Filing)
    requires AllFiled(rows, own)
    ensures Filed(rows, filing) == if own == filing then rows else []
  {
    hide FilingOf;
    if rows != [] {
      assert rows == [rows[0]] + rows[1..];
      FiledAllOrNothing(rows[1..], own, filing);
    }
  }

  lemma {:induction false} OfMetricOfConcat(a: seq<DbRow>, b: seq<DbRow>, metric: Metric)
    ensures OfMetric(a + b, metric) == OfMetric(a, metric) + OfMetric(b, metric)
  {
    if a == [] {
      assert a + b == b;
    } else {
      assert (a + b)[1..] == a[1..] + b;
      OfMetricOfConcat(a[1..], b, metric);
      Associates(if a[0].metric == metric then [a[0].value] else [], OfMetric(a[1..], metric), OfMetric(b, metric));
    }
  }

  lemma {:induction false} NamedRowsOfConcat(a: seq<DbRow>, b: seq<DbRow>, name: string)
    ensures NamedRows(a + b, name) == NamedRows(a, name) + NamedRows(b, name)
  {
    if a == [] {
      assert a + b == b;
    } else {
      assert (a + b)[1..] == a[1..] + b;
      NamedRowsOfConcat(a[1..], b, name);
      Associates(if a[0].name == name then [a[0]] else [], NamedRows(a[1..], name), NamedRows(b, name));
    }
  }

  lemma {:induction false} PromptRowsAre(name: string, maxTokens: Option<int>, wants: seq<Want>)
    ensures forall i :: 0 <= i < |PromptRows(name, maxTokens, wants)| ==>
      PromptRows(name, maxTokens, wants)[i].name == name
    ensures NamedRows(PromptRows(name, maxTokens, wants), name) == PromptRows(name, maxTokens, wants)
    ensures forall other :: other != name ==> NamedRows(PromptRows(name, maxTokens, wants), other) == []
  {
    if wants != [] {
      var before, w := wants[..|wants| - 1], wants[|wants| - 1];
      PromptRowsAre(name, maxTokens, before);
      var row := DbRow(name, w.metric, maxTokens, w.value);
      assert [row][1..] == [];
      NamedRowsOfConcat(PromptRows(name, maxTokens, before), [row], name);
      forall other | other != name
        ensures NamedRows(PromptRows(name, maxTokens, wants), other) == []
      {
        NamedRowsOfConcat(PromptRows(name, maxTokens, before), [row], other);
      }
    }
  }

  lemma LastWantOfMetric(name: string, maxTokens: Option<int>, wants: seq<Want>, metric: Metric)
    requires wants != []
    ensures var before, w := wants[..|wants| - 1], wants[|wants| - 1];
      OfMetric(PromptRows(name, maxTokens, wants), metric)
        == OfMetric(PromptRows(name, maxTokens, before), metric) + if w.metric == metric then [w.value] else []
  {
    var before, w := wants[..|wants| - 1], wants[|wants| - 1];
    var row := DbRow(name, w.metric, maxTokens, w.value);
    OfMetricOfConcat(PromptRows(name, maxTokens, before), [row], metric);
    assert PromptRows(name, maxTokens, wants) == PromptRows(name, maxTokens, before) + [row];
    hide PromptRows;
    assert [row][1..] == [];
  }

  lemma {:induction false} OneRowOfMetric(name: string, maxTokens: Option<int>, wants: seq<Want>, metric: Metric)
    ensures (forall i :: 0 <= i < |wants| ==> wants[i].metric != metric) ==>
      OfMetric(PromptRows(name, maxTokens, wants), metric) == []
    ensures DistinctMetrics(wants) ==> forall i :: 0 <= i < |wants| && wants[i].metric == metric ==>
      OfMetric(PromptRows(name, maxTokens, wants), metric) == [wants[i].value]
  {
    if wants != [] {
      var before, w := wants[..|wants| - 1], wants[|wants| - 1];
      OneRowOfMetric(name, maxTokens, before, metric);
      LastWantOfMetric(name, maxTokens, wants, metric);
      hide OfMetric, PromptRows;
      assert forall i :: 0 <= i < |before| ==> before[i] == wants[i];
    }
  }

  lemma {:induction false} PromptIsQuiet(what: string, name: string, maxTokens: Option<int>, wants: seq<Want>, n: nat)
    requires DistinctMetrics(wants) && n <= |wants|
    ensures PromptProblems(what, PromptRows(name, maxTokens, wants), wants[..n]) == []
  {
    hide Close, DistinctMetrics, OfMetric, PromptRows, WantProblems;
    if n > 0 {
      assert wants[..n][..n - 1] == wants[..n - 1] && wants[..n][n - 1] == wants[n - 1];
      PromptIsQuiet(what, name, maxTokens, wants, n - 1);
      OneRowOfMetric(name, maxTokens, wants, wants[n - 1].metric);
      WantIsQuiet(what, PromptRows(name, maxTokens, wants), wants[n - 1]);
    }
  }

  lemma WantIsQuiet(what: string, rows: seq<DbRow>, want: Want)
    requires OfMetric(rows, want.metric) == [want.value]
    ensures WantProblems(what, rows, want) == []
  {
    hide Close, OfMetric;
    CloseToItself(want.value);
  }

  lemma UnderIsInjective(prefix: string, a: string, b: string)
    ensures Under(prefix + a) == Under(prefix + b) ==> a == b
  {
    var p := PUBLISHED + "/" + prefix;
    assert Under(prefix + a) == p + a && Under(prefix + b) == p + b;
    assert (p + a)[|p|..] == a && (p + b)[|p|..] == b;
  }

  lemma LastPromptRows(prefix: string, maxTokens: Option<int>, prompts: seq<Prompt>, title: string)
    requires prompts != []
    ensures var before, p := prompts[..|prompts| - 1], prompts[|prompts| - 1];
      NamedRows(LabelRows(prefix, maxTokens, prompts), Under(prefix + title))
        == NamedRows(LabelRows(prefix, maxTokens, before), Under(prefix + title))
           + if p.title == title then PromptRows(Under(prefix + title), maxTokens, p.wants) else []
  {
    hide Under, NamedRows, PromptRows;
    var before, p := prompts[..|prompts| - 1], prompts[|prompts| - 1];
    var own := PromptRows(Under(prefix + p.title), maxTokens, p.wants);
    NamedRowsOfConcat(LabelRows(prefix, maxTokens, before), own, Under(prefix + title));
    PromptRowsAre(Under(prefix + p.title), maxTokens, p.wants);
    UnderIsInjective(prefix, p.title, title);
  }

  /** Among the rows of all prompts, those under one title are that prompt's own. */
  lemma {:induction false} OwnRows(prefix: string, maxTokens: Option<int>, prompts: seq<Prompt>, title: string)
    ensures (forall i :: 0 <= i < |prompts| ==> prompts[i].title != title) ==>
      NamedRows(LabelRows(prefix, maxTokens, prompts), Under(prefix + title)) == []
    ensures DistinctTitles(prompts) ==> forall i :: 0 <= i < |prompts| && prompts[i].title == title ==>
      NamedRows(LabelRows(prefix, maxTokens, prompts), Under(prefix + title))
        == PromptRows(Under(prefix + title), maxTokens, prompts[i].wants)
  {
    hide Under, DistinctMetrics;
    if prompts != [] {
      var before, p := prompts[..|prompts| - 1], prompts[|prompts| - 1];
      OwnRows(prefix, maxTokens, before, title);
      LastPromptRows(prefix, maxTokens, prompts, title);
      hide NamedRows, PromptRows, LabelRows;
      assert forall i :: 0 <= i < |before| ==> before[i] == prompts[i];
      var own := PromptRows(Under(prefix + title), maxTokens, p.wants);
      assert [] + own == own;
    }
  }

  lemma {:induction false} LabelsAreQuiet(prefix: string, maxTokens: Option<int>, prompts: seq<Prompt>, n: nat)
    requires DistinctTitles(prompts) && n <= |prompts|
    ensures LabelProblems(prefix, prompts[..n], LabelRows(prefix, maxTokens, prompts)) == []
  {
    hide DistinctMetrics, Under;
    if n > 0 {
      var p := prompts[n - 1];
      assert prompts[..n][..n - 1] == prompts[..n - 1] && prompts[..n][n - 1] == p;
      LabelsAreQuiet(prefix, maxTokens, prompts, n - 1);
      OwnRows(prefix, maxTokens, prompts, p.title);
      PromptIsQuiet(p.title, Under(prefix + p.title), maxTokens, p.wants, |p.wants|);
      assert p.wants[..|p.wants|] == p.wants;
    }
  }

  lemma HasLabelGrows(prompts: seq<Prompt>, prefix: string, name: string)
    requires prompts != []
    requires (HasLabel(prompts[..|prompts| - 1], prefix, name) || name == Under(prefix + prompts[|prompts| - 1].title))
    ensures HasLabel(prompts, prefix, name)
  {
    hide Under;
    var before := prompts[..|prompts| - 1];
    if HasLabel(before, prefix, name) {
      var j :| 0 <= j < |before| && name == Under(prefix + before[j].title);
      assert prompts[j] == before[j];
    } else {
      assert name == Under(prefix + prompts[|prompts| - 1].title);
    }
  }

  lemma {:induction false} LabelRowsAre(prefix: string, maxTokens: Option<int>, prompts: seq<Prompt>)
    ensures forall i :: 0 <= i < |LabelRows(prefix, maxTokens, prompts)| ==>
      HasLabel(prompts, prefix, LabelRows(prefix, maxTokens, prompts)[i].name)
  {
    hide Under, HasLabel;
    if prompts != [] {
      var n := |prompts| - 1;
      LabelRowsAre(prefix, maxTokens, prompts[..n]);
      var name := Under(prefix + prompts[n].title);
      PromptRowsAre(name, maxTokens, prompts[n].wants);
      var before, own := LabelRows(prefix, maxTokens, prompts[..n]), PromptRows(name, maxTokens, prompts[n].wants);
      var rows: seq<DbRow> := before + own;
      forall i | 0 <= i < |rows|
        ensures HasLabel(prompts, prefix, rows[i].name)
      {
        assert i >= |before| ==> own[i - |before|].name == name;
        HasLabelGrows(prompts, prefix, rows[i].name);
      }
    }
  }

  lemma {:induction false} NoUnnamed(prefix: string, prompts: seq<Prompt>, rows: seq<DbRow>)
    requires forall i :: 0 <= i < |rows| ==> HasLabel(prompts, prefix, rows[i].name)
    ensures UnnamedProblems(prefix, prompts, rows) == []
  {
    hide HasLabel;
    if rows != [] { NoUnnamed(prefix, prompts, rows[..|rows| - 1]); }
  }

  lemma LabelBlockIsQuiet(prefix: string, maxTokens: Option<int>, prompts: seq<Prompt>)
    requires DistinctTitles(prompts)
    ensures var rows := LabelRows(prefix, maxTokens, prompts);
      LabelProblems(prefix, prompts, rows) == [] && UnnamedProblems(prefix, prompts, rows) == []
  {
    LabelsAreQuiet(prefix, maxTokens, prompts, |prompts|);
    assert prompts[..|prompts|] == prompts;
    LabelRowsAre(prefix, maxTokens, prompts);
    NoUnnamed(prefix, prompts, LabelRows(prefix, maxTokens, prompts));
  }

  // ---- where the rows of a block are filed -----------------------------------

  lemma FilingOfWord(rest: string, word: string)
    requires StartsWith(rest, word)
    ensures word == FIXED ==> FilingOf(Under(rest)) == FixedRow
    ensures word == LONGCTX ==> FilingOf(Under(rest)) == LongRow
    ensures word == GREEDY ==> FilingOf(Under(rest)) == GreedyRow
  {
    UnderKeepsPrefix(rest, FIXED);
    UnderKeepsPrefix(rest, LONGCTX);
    UnderKeepsPrefix(rest, GREEDY);
    if word == FIXED || word == LONGCTX || word == GREEDY {
      assert rest[0] == rest[..|word|][0] == word[0];
      hide FilingOf, Under;
      FirstLetters(rest, FIXED);
      FirstLetters(rest, LONGCTX);
      FirstLetters(rest, GREEDY);
    }
    hide Under;
  }

  lemma FirstLetters(rest: string, word: string)
    requires word != ""
    ensures StartsWith(rest, word) ==> rest != "" && rest[0] == word[0]
  {
    if StartsWith(rest, word) { assert rest[..|word|][0] == rest[0]; }
  }

  /** The blocks a result can carry: names where they belong, none twice, no metric twice in one prompt. */
  predicate WellNamed(fixedName: string, fixedPrompt: Option<seq<Want>>, longctx: seq<Prompt>, greedy: seq<Prompt>) {
    && StartsWith(fixedName, FIXED)
    && (fixedPrompt.Some? ==> DistinctMetrics(fixedPrompt.value))
    && DistinctTitles(longctx) && DistinctTitles(greedy)
    && forall i :: 0 <= i < |longctx| ==> StartsWith(longctx[i].title, LONGCTX)
  }

  function FixedRows(fixedName: string, maxTokens: Option<int>, fixedPrompt: Option<seq<Want>>): seq<DbRow> {
    match fixedPrompt
    case Some(wants) => PromptRows(Under(fixedName), maxTokens, wants)
    case None => []
  }

  lemma FixedRowsAreFiled(fixedName: string, maxTokens: Option<int>, fixedPrompt: Option<seq<Want>>)
    requires StartsWith(fixedName, FIXED)
    ensures AllFiled(FixedRows(fixedName, maxTokens, fixedPrompt), FixedRow)
  {
    FilingOfWord(fixedName, FIXED);
    hide FilingOf, Under;
    if fixedPrompt.Some? { PromptRowsAre(Under(fixedName), maxTokens, fixedPrompt.value); }
  }

  lemma LabelRowsAreFiled(prefix: string, maxTokens: Option<int>, prompts: seq<Prompt>, filing: Filing)
    requires forall i :: 0 <= i < |prompts| ==> FilingOf(Under(prefix + prompts[i].title)) == filing
    ensures AllFiled(LabelRows(prefix, maxTokens, prompts), filing)
  {
    hide FilingOf, Under;
    LabelRowsAre(prefix, maxTokens, prompts);
    var rows := LabelRows(prefix, maxTokens, prompts);
    forall i | 0 <= i < |rows|
      ensures FilingOf(rows[i].name) == filing
    {
      assert HasLabel(prompts, prefix, rows[i].name);
    }
  }

  lemma GreedyRowsAreFiled(maxTokens: Option<int>, prompts: seq<Prompt>)
    ensures AllFiled(LabelRows(GREEDY, maxTokens, prompts), GreedyRow)
  {
    forall i | 0 <= i < |prompts|
      ensures FilingOf(Under(GREEDY + prompts[i].title)) == GreedyRow
    {
      assert (GREEDY + prompts[i].title)[..|GREEDY|] == GREEDY;
      FilingOfWord(GREEDY + prompts[i].title, GREEDY);
    }
    hide FilingOf, Under;
    LabelRowsAreFiled(GREEDY, maxTokens, prompts, GreedyRow);
  }

  lemma LongRowsAreFiled(maxTokens: Option<int>, prompts: seq<Prompt>)
    requires forall i :: 0 <= i < |prompts| ==> StartsWith(prompts[i].title, LONGCTX)
    ensures AllFiled(LabelRows("", maxTokens, prompts), LongRow)
  {
    forall i | 0 <= i < |prompts|
      ensures FilingOf(Under("" + prompts[i].title)) == LongRow
    {
      assert "" + prompts[i].title == prompts[i].title;
      FilingOfWord(prompts[i].title, LONGCTX);
    }
    hide FilingOf, Under;
    LabelRowsAreFiled("", maxTokens, prompts, LongRow);
  }

  lemma {:induction false} RecordRowsAreFiled(records: seq<Record>)
    requires forall i :: 0 <= i < |records| ==> Plain(records[i].dataset)
    ensures AllFiled(RowsOf(records), SampleRow) && FilingProblems(RowsOf(records)) == []
  {
    hide FilingOf, DatasetOf, RecordName, Plain;
    if records != [] {
      var n := |records| - 1;
      var before, rows := RowsOf(records[..n]), RowsOf(records);
      RecordRowsAreFiled(records[..n]);
      RecordIsFiled(records[n].dataset, records[n].sampleId);
      assert rows[..|rows| - 1][..|before|] == before;
      assert rows[..|rows| - 1] == before + [rows[|before|]];
      assert FilingProblems(rows[..|rows| - 1]) == [];
    }
  }

  /** Rows of other blocks give no sample values and no filing problem. */
  lemma {:induction false} OtherRowsAddNothing(rows: seq<DbRow>, own: seq<DbRow>, filing: Filing)
    requires AllFiled(rows, filing) && filing != SampleRow
    ensures FilingProblems(own + rows) == FilingProblems(own)
    ensures forall d, b, m :: Values(own + rows, d, b, m) == Values(own, d, b, m)
    decreases |rows|
  {
    hide FilingOf, DatasetOf;
    if rows == [] {
      assert own + rows == own;
    } else {
      var before := rows[..|rows| - 1];
      assert (own + rows)[..|own + rows| - 1] == own + before;
      OtherRowsAddNothing(before, own, filing);
    }
  }

  // ---- the round trip --------------------------------------------------------

  /** Every row a recorded run files: its samples, its fixed prompt, its long contexts, its greedy counts. */
  function RunRows(records: seq<Record>, fixedName: string, maxTokens: Option<int>, o: Outcome): seq<DbRow> {
    RowsOf(records) + FixedRows(fixedName, maxTokens, o.fixedPrompt)
    + LabelRows("", maxTokens, o.longctx) + LabelRows(GREEDY, maxTokens, o.greedy)
  }

  function Chosen(rows: seq<DbRow>, own: bool): seq<DbRow> {
    if own then rows else []
  }

  lemma BlockIsFiled(rows: seq<DbRow>, own: Filing, filing: Filing)
    requires AllFiled(rows, own)
    ensures Filed(rows, filing) == Chosen(rows, own == filing)
  {
    hide Filed, AllFiled;
    FiledAllOrNothing(rows, own, filing);
  }

  /** What is filed under one heading, block by block. */
  lemma FiledByBlock(s: seq<DbRow>, f: seq<DbRow>, l: seq<DbRow>, g: seq<DbRow>, filing: Filing)
    requires AllFiled(s, SampleRow) && AllFiled(f, FixedRow) && AllFiled(l, LongRow) && AllFiled(g, GreedyRow)
    ensures Filed(s + f + l + g, filing)
         == Chosen(s, SampleRow == filing) + Chosen(f, FixedRow == filing) + Chosen(l, LongRow == filing)
            + Chosen(g, GreedyRow == filing)
  {
    hide *;
    FiledOfConcat(s, f, filing);
    FiledOfConcat(s + f, l, filing);
    FiledOfConcat(s + f + l, g, filing);
    BlockIsFiled(s, SampleRow, filing);
    BlockIsFiled(f, FixedRow, filing);
    BlockIsFiled(l, LongRow, filing);
    BlockIsFiled(g, GreedyRow, filing);
  }

  lemma BlocksComeApart(s: seq<DbRow>, f: seq<DbRow>, l: seq<DbRow>, g: seq<DbRow>)
    requires AllFiled(s, SampleRow) && AllFiled(f, FixedRow) && AllFiled(l, LongRow) && AllFiled(g, GreedyRow)
    ensures Filed(s + f + l + g, FixedRow) == f && Filed(s + f + l + g, LongRow) == l
    ensures Filed(s + f + l + g, GreedyRow) == g
  {
    hide Filed, AllFiled;
    FiledByBlock(s, f, l, g, FixedRow);
    FiledByBlock(s, f, l, g, LongRow);
    FiledByBlock(s, f, l, g, GreedyRow);
    assert [] + f + [] + [] == f && [] + [] + l + [] == l && [] + [] + [] + g == g;
  }

  lemma OnlySamplesCount(s: seq<DbRow>, f: seq<DbRow>, l: seq<DbRow>, g: seq<DbRow>)
    requires AllFiled(s, SampleRow) && AllFiled(f, FixedRow) && AllFiled(l, LongRow) && AllFiled(g, GreedyRow)
    ensures FilingProblems(s + f + l + g) == FilingProblems(s)
    ensures forall d, b, m :: Values(s + f + l + g, d, b, m) == Values(s, d, b, m)
  {
    hide *;
    OtherRowsAddNothing(f, s, FixedRow);
    OtherRowsAddNothing(l, s + f, LongRow);
    OtherRowsAddNothing(g, s + f + l, GreedyRow);
  }

  /** Sample values alone decide what is said of cells and macro. */
  lemma {:induction false} SameValuesSameProblems(cells: seq<Cell>, a: seq<DbRow>, b: seq<DbRow>)
    requires Sampled(cells) && forall d, n, m :: Values(a, d, n, m) == Values(b, d, n, m)
    ensures CellsProblems(cells, a) == CellsProblems(cells, b) && CellMeans(cells, a) == CellMeans(cells, b)
  {
    hide Values, Close, Mean;
    if cells != [] {
      SameValuesSameProblems(cells[..|cells| - 1], a, b);
    }
  }

  lemma BlocksAreQuiet(o: Outcome, rows: seq<DbRow>, fixedName: string, maxTokens: Option<int>)
    requires WellNamed(fixedName, o.fixedPrompt, o.longctx, o.greedy)
    requires Filed(rows, FixedRow) == FixedRows(fixedName, maxTokens, o.fixedPrompt)
    requires Filed(rows, LongRow) == LabelRows("", maxTokens, o.longctx)
    requires Filed(rows, GreedyRow) == LabelRows(GREEDY, maxTokens, o.greedy)
    ensures BlockProblems(o, rows) == []
  {
    hide Under, LabelRows, LabelProblems, UnnamedProblems, PromptProblems, PromptRows, Filed;
    LabelBlockIsQuiet("", maxTokens, o.longctx);
    LabelBlockIsQuiet(GREEDY, maxTokens, o.greedy);
    if o.fixedPrompt.Some? {
      var wants := o.fixedPrompt.value;
      PromptIsQuiet(FIXED, Under(fixedName), maxTokens, wants, |wants|);
      assert wants[..|wants|] == wants;
    }
  }

  lemma {:induction false} RecordsArePlain(rows: seq<Row>, keys: seq<Key>, bodies: map<string, Body>)
    requires CellTable(rows) && RecordsFrom(rows, keys, bodies).Ok?
    ensures forall i :: 0 <= i < |RecordsFrom(rows, keys, bodies).value| ==>
      Plain(RecordsFrom(rows, keys, bodies).value[i].dataset)
    ensures |RecordsFrom(rows, keys, bodies).value| == |keys|
    decreases |keys|
  {
    hide Plain;
    if keys != [] {
      var k := keys[|keys| - 1];
      RecordsArePlain(rows, keys[..|keys| - 1], bodies);
      PickAreRows(rows, k);
      assert Pick(rows, k)[0] in rows;
    }
  }

  /** The mean over the macro cells of the means read from the rows is the report's macro mean, which is the mean
      over the passes of the means over those cells. */
  lemma MacroReadsBack(passes: seq<seq<Row>>, bodies: map<string, Body>, bandPct: real, budget: int)
    requires ReportOf(passes, bandPct, budget).Ok?
    requires var rep := ReportOf(passes, bandPct, budget).value;
      CellTable(rep.samples) && RecordsOf(rep.samples, bodies).Ok?
    ensures var rep := ReportOf(passes, bandPct, budget).value;
      var rows := RowsOf(RecordsOf(rep.samples, bodies).value);
      && Sampled(rep.cells) && rep.macro.cells != []
      && (forall k :: 0 <= k < |rep.macro.cells| ==> rep.macro.cells[k] in CellMeans(rep.cells, rows))
      && Mean(Named(CellMeans(rep.cells, rows), rep.macro.cells)) == rep.macro.figure.mean
  {
    var rep := ReportOf(passes, bandPct, budget).value;
    var rows := RowsOf(RecordsOf(rep.samples, bodies).value);
    ReportReadsBack(passes, bodies, bandPct, budget);
    ReportFacts(passes, bandPct, budget);
    assert rep.macro.figure.mean == Mean(MacroMeans(passes, rep.macro.cells)) && rep.macro.cells != [];
    hide ReportOf, RecordsOf, RowsOf, Complete, CellMeans, Close, InCell, PassMeans, MacroMeans, Mean;
    var means, names := CellMeans(rep.cells, rows), rep.macro.cells;
    forall k | 0 <= k < |names|
      ensures names[k] in means && means[names[k]] == Mean(PassMeans(passes, names[k]))
    {
      MeanReadsBack(passes, rep.cells, rows, names[k]);
    }
    MacroExchange(passes, means, names);
  }

  lemma SamplesAreQuiet(passes: seq<seq<Row>>, bodies: map<string, Body>, bandPct: real, budget: int)
    requires ReportOf(passes, bandPct, budget).Ok?
    requires var rep := ReportOf(passes, bandPct, budget).value;
      CellTable(rep.samples) && RecordsOf(rep.samples, bodies).Ok?
    ensures var rep := ReportOf(passes, bandPct, budget).value;
      var rows := RowsOf(RecordsOf(rep.samples, bodies).value);
      && rep.macro.cells != [] && Sampled(rep.cells)
      && CellsProblems(rep.cells, rows) == [] && MacroProblems(rep.macro, CellMeans(rep.cells, rows)) == []
  {
    var rep := ReportOf(passes, bandPct, budget).value;
    var rows := RowsOf(RecordsOf(rep.samples, bodies).value);
    ReportReadsBack(passes, bodies, bandPct, budget);
    MacroReadsBack(passes, bodies, bandPct, budget);
    hide ReportOf, RecordsOf, RowsOf, Complete, CellMeans, Close, InCell, PassMeans, Mean, Named;
    NoCellProblems(rep.cells, rows);
    CloseToItself(rep.macro.figure.mean);
  }

  /** A recorded run reads back as its result: the rows made of a report that `sample_records` accepts,
      with the rows of its prompt blocks, give no problem. */
  lemma RecordedRunReadsBack(passes: seq<seq<Row>>, bodies: map<string, Body>, bandPct: real, budget: int,
                             fixedName: string, maxTokens: Option<int>,
                             fixedPrompt: Option<seq<Want>>, longctx: seq<Prompt>, greedy: seq<Prompt>)
    requires ReportOf(passes, bandPct, budget).Ok?
    requires var rep := ReportOf(passes, bandPct, budget).value;
      CellTable(rep.samples) && RecordsOf(rep.samples, bodies).Ok?
    requires WellNamed(fixedName, fixedPrompt, longctx, greedy)
    ensures var rep := ReportOf(passes, bandPct, budget).value;
      var o := OutcomeOf(rep, fixedPrompt, longctx, greedy);
      && Comparable(o)
      && Problems(o, RunRows(RecordsOf(rep.samples, bodies).value, fixedName, maxTokens, o)) == []
  {
    var rep := ReportOf(passes, bandPct, budget).value;
    SamplesAreQuiet(passes, bodies, bandPct, budget);
    SomeRecord(passes, bodies, bandPct, budget);
    var records := RecordsOf(rep.samples, bodies).value;
    RecordsArePlain(rep.samples, KeysOf(rep.samples), bodies);
    hide ReportOf, RecordsOf, CellTable, Plain, RecordsFrom;
    var o := OutcomeOf(rep, fixedPrompt, longctx, greedy);
    var s, f := RowsOf(records), FixedRows(fixedName, maxTokens, fixedPrompt);
    var l, g := LabelRows("", maxTokens, longctx), LabelRows(GREEDY, maxTokens, greedy);
    RecordRowsAreFiled(records);
    FixedRowsAreFiled(fixedName, maxTokens, fixedPrompt);
    LongRowsAreFiled(maxTokens, longctx);
    GreedyRowsAreFiled(maxTokens, greedy);
    hide AllFiled, RowsOf, FixedRows, LabelRows, BlockProblems, MacroProblems, Values;
    BlocksComeApart(s, f, l, g);
    OnlySamplesCount(s, f, l, g);
    var rows := s + f + l + g;
    assert rows == RunRows(records, fixedName, maxTokens, o);
    SameValuesSameProblems(rep.cells, rows, s);
    BlocksAreQuiet(o, rows, fixedName, maxTokens);
  }

  lemma SomeRecord(passes: seq<seq<Row>>, bodies: map<string, Body>, bandPct: real, budget: int)
    requires ReportOf(passes, bandPct, budget).Ok?
    requires RecordsOf(ReportOf(passes, bandPct, budget).value.samples, bodies).Ok?
    requires CellTable(ReportOf(passes, bandPct, budget).value.samples)
    ensures RowsOf(RecordsOf(ReportOf(passes, bandPct, budget).value.samples, bodies).value) != []
  {
    var rep := ReportOf(passes, bandPct, budget).value;
    ReportReadsBack(passes, bodies, bandPct, budget);
    ReportFacts(passes, bandPct, budget);
    assert rep.macro.cells[0] in NamesOf(rep.cells);
    hide ReportOf, RecordsOf, RowsOf;
    assert rep.cells[0].samples > 0 && Complete(rep.cells[0], RowsOf(RecordsOf(rep.samples, bodies).value));
  }

  // ---- one row more or less --------------------------------------------------

  /** The row is one of a cell's own: its decode or its TTFT value for a sample. */
  predicate Counts(c: Cell, r: DbRow) {
    InSlot(r, c.dataset, c.maxTokens, DecodeTpsWarm) || InSlot(r, c.dataset, c.maxTokens, TtftWarmMs)
  }

  lemma {:induction false} IncompleteCellShows(cells: seq<Cell>, rows: seq<DbRow>, i: nat)
    requires Sampled(cells) && i < |cells| && !Complete(cells[i], rows)
    ensures CellsProblems(cells, rows) != []
  {
    hide Values, Mean, Close;
    if i < |cells| - 1 {
      IncompleteCellShows(cells[..|cells| - 1], rows, i);
    }
  }

  lemma ValuesAround(a: seq<DbRow>, r: DbRow, b: seq<DbRow>, d: string, n: int, m: Metric)
    ensures |Values(a + [r] + b, d, n, m)| == |Values(a + b, d, n, m)| + if InSlot(r, d, n, m) then 1 else 0
  {
    ValuesOfConcat(a + [r], b, d, n, m);
    ValuesOfConcat(a, [r], d, n, m);
    ValuesOfConcat(a, b, d, n, m);
    assert [r][..0] == [];
    hide InSlot;
  }

  /** Of two row lists that differ by one row of a cell, at most one is complete: dropping a sample's row
      or filing one twice is noticed. */
  lemma OneRowMoreOrLessShows(o: Outcome, a: seq<DbRow>, r: DbRow, b: seq<DbRow>, i: nat)
    requires Comparable(o) && i < |o.cells| && Counts(o.cells[i], r)
    ensures Complete(o.cells[i], a + [r] + b) ==> Problems(o, a + b) != []
    ensures Complete(o.cells[i], a + b) ==> Problems(o, a + [r] + b) != []
  {
    var c := o.cells[i];
    ValuesAround(a, r, b, c.dataset, c.maxTokens, DecodeTpsWarm);
    ValuesAround(a, r, b, c.dataset, c.maxTokens, TtftWarmMs);
    hide Values, InSlot, CellsProblems, BlockProblems, FilingProblems, MacroProblems, CellMeans;
    if !Complete(c, a + b) { IncompleteCellShows(o.cells, a + b, i); }
    if !Complete(c, a + [r] + b) { IncompleteCellShows(o.cells, a + [r] + b, i); }
  }

  /** No problem means every cell is complete. */
  lemma QuietMeansComplete(o: Outcome, rows: seq<DbRow>, i: nat)
    requires Comparable(o) && i < |o.cells| && Problems(o, rows) == []
    ensures Complete(o.cells[i], rows)
  {
    hide Complete, CellsProblems, BlockProblems, FilingProblems, MacroProblems, CellMeans;
    if !Complete(o.cells[i], rows) { IncompleteCellShows(o.cells, rows, i); }
  }

  lemma UnslottedRowAddsNothing(rows: seq<DbRow>, r: DbRow, d: string, n: int, m: Metric)
    requires !InSlot(r, d, n, m)
    ensures Values(rows + [r], d, n, m) == Values(rows, d, n, m)
  {
    hide InSlot;
    assert (rows + [r])[..|rows|] == rows;
  }

  lemma {:induction false} UnknownSlotKeepsCells(cells: seq<Cell>, rows: seq<DbRow>, r: DbRow)
    requires Sampled(cells) && forall i :: 0 <= i < |cells| ==> !Counts(cells[i], r)
    ensures CellsProblems(cells, rows + [r]) == CellsProblems(cells, rows)
    ensures CellMeans(cells, rows + [r]) == CellMeans(cells, rows)
  {
    hide Values, Close, Mean, InSlot;
    if cells != [] {
      var c := cells[|cells| - 1];
      UnknownSlotKeepsCells(cells[..|cells| - 1], rows, r);
      assert !Counts(c, r);
      UnslottedRowAddsNothing(rows, r, c.dataset, c.maxTokens, DecodeTpsWarm);
      UnslottedRowAddsNothing(rows, r, c.dataset, c.maxTokens, TtftWarmMs);
    }
  }

  lemma NamedSampleIsNoProblem(rows: seq<DbRow>, r: DbRow)
    requires DatasetOf(r.name).Some?
    ensures FilingProblems(rows + [r]) == FilingProblems(rows)
  {
    hide FilingOf, DatasetOf;
    assert (rows + [r])[..|rows|] == rows;
  }

  lemma SampleRowLeavesBlocks(o: Outcome, rows: seq<DbRow>, r: DbRow)
    requires FilingOf(r.name) == SampleRow
    ensures BlockProblems(o, rows + [r]) == BlockProblems(o, rows)
  {
    hide FilingOf, FixedProblems, LabelProblems, UnnamedProblems;
    forall filing | filing != SampleRow
      ensures Filed(rows + [r], filing) == Filed(rows, filing)
    {
      FiledOfConcat(rows, [r], filing);
      assert [r][1..] == [];
    }
  }

  /** A sample row under a dataset and budget the result has no cell for goes unnoticed. */
  lemma UnknownSlotIsUnnoticed(o: Outcome, rows: seq<DbRow>, r: DbRow)
    requires Comparable(o) && rows != []
    requires FilingOf(r.name) == SampleRow && DatasetOf(r.name).Some?
    requires forall i :: 0 <= i < |o.cells| ==> !Counts(o.cells[i], r)
    ensures Problems(o, rows + [r]) == Problems(o, rows)
  {
    hide FilingOf, DatasetOf, Counts, CellsProblems, CellMeans, FilingProblems, MacroProblems, BlockProblems;
    UnknownSlotKeepsCells(o.cells, rows, r);
    NamedSampleIsNoProblem(rows, r);
    SampleRowLeavesBlocks(o, rows, r);
  }
}
