/** The loops of `requery` and `check_prompt` (scripts/ingest/requery.py): rows are filed into a table of
    cells once, and everything after that reads the table. */
module RequeryScan {
  import opened Chars
  import opened Aggregate
  import opened Records
  import opened Requery

  /** `by_cell`: the values of a dataset and budget, by metric. */
  type Table = map<(string, Option<int>), map<Metric, seq<real>>>

  /** `values.get(metric, [])` of one cell's entry. */
  function Entry(table: Table, dataset: string, budget: Option<int>, metric: Metric): seq<real> {
    if (dataset, budget) in table && metric in table[(dataset, budget)]
    then table[(dataset, budget)][metric]
    else []
  }

  /** The table holds what the rows say, for every dataset, budget and metric. */
  ghost predicate Holds(table: Table, rows: seq<DbRow>) {
    forall d, n, m :: Entry(table, d, Some(n), m) == Values(rows, d, n, m)
  }

  /** `setdefault` twice and an append. */
  function Added(table: Table, dataset: string, budget: Option<int>, metric: Metric, value: real): (r: Table)
    ensures forall d, n, m ::
      Entry(r, d, n, m) == Entry(table, d, n, m) + (if d == dataset && n == budget && m == metric then [value] else [])
  {
    var key := (dataset, budget);
    var cell := if key in table then table[key] else map[];
    table[key := cell[metric := (if metric in cell then cell[metric] else []) + [value]]]
  }

  lemma FiledRowCounts(table: Table, rows: seq<DbRow>, r: DbRow, dataset: string)
    requires Holds(table, rows) && FilingOf(r.name) == SampleRow && DatasetOf(r.name) == Some(dataset)
    ensures Holds(Added(table, dataset, r.maxTokens, r.metric, r.value), rows + [r])
  {
    var after := Added(table, dataset, r.maxTokens, r.metric, r.value);
    assert (rows + [r])[..|rows|] == rows;
    forall d, n, m
      ensures Entry(after, d, Some(n), m) == Values(rows + [r], d, n, m)
    {
      assert Entry(table, d, Some(n), m) == Values(rows, d, n, m);
      assert InSlot(r, d, n, m) <==> d == dataset && Some(n) == r.maxTokens && m == r.metric;
    }
  }

  lemma OtherRowAddsNothing(table: Table, rows: seq<DbRow>, r: DbRow)
    requires Holds(table, rows) && (FilingOf(r.name) != SampleRow || DatasetOf(r.name) == None)
    ensures Holds(table, rows + [r])
  {
    assert (rows + [r])[..|rows|] == rows;
    forall d, n, m
      ensures Entry(table, d, Some(n), m) == Values(rows + [r], d, n, m)
    {
      assert Entry(table, d, Some(n), m) == Values(rows, d, n, m);
      assert !InSlot(r, d, n, m);
    }
  }

  lemma FilingStep(rows: seq<DbRow>, r: DbRow)
    ensures FilingProblems(rows + [r]) == FilingProblems(rows)
      + if FilingOf(r.name) == SampleRow && DatasetOf(r.name) == None then [NoSample(r.name)] else []
  {
    hide FilingOf, DatasetOf;
    assert (rows + [r])[..|rows|] == rows;
  }

  /** The first loop: every sample row into its cell, every other row that is no sample into the problems. */
  method FileSamples(rows: seq<DbRow>) returns (table: Table, problems: seq<Problem>)
    ensures Holds(table, rows)
    ensures problems == FilingProblems(rows)
  {
    table, problems := map[], [];
    for i := 0 to |rows|
      invariant Holds(table, rows[..i])
      invariant problems == FilingProblems(rows[..i])
    {
      hide Holds, FilingOf, DatasetOf, FilingProblems;
      var r := rows[i];
      FilingStep(rows[..i], r);
      assert rows[..i + 1] == rows[..i] + [r];
      if FilingOf(r.name) == SampleRow {
        match DatasetOf(r.name) {
          case None =>
            OtherRowAddsNothing(table, rows[..i], r);
            problems := problems + [NoSample(r.name)];
          case Some(dataset) =>
            FiledRowCounts(table, rows[..i], r, dataset);
            table := Added(table, dataset, r.maxTokens, r.metric, r.value);
        }
      } else {
        OtherRowAddsNothing(table, rows[..i], r);
      }
    }
    assert rows[..|rows|] == rows;
  }

  lemma CellStep(cells: seq<Cell>, i: nat, rows: seq<DbRow>)
    requires Sampled(cells) && i < |cells|
    ensures CellsProblems(cells[..i + 1], rows) == CellsProblems(cells[..i], rows) + CellProblems(cells[i], rows)
    ensures CellMeans(cells[..i + 1], rows) ==
      if Complete(cells[i], rows) then CellMeans(cells[..i], rows)[cells[i].name := Mean(DecodeOf(cells[i], rows))]
      else CellMeans(cells[..i], rows)
  {
    hide Values, Close, Mean;
    assert cells[..i + 1][..i] == cells[..i];
  }

  /** The second loop: each cell of the result against its entry of the table. */
  method CheckCells(cells: seq<Cell>, table: Table, ghost rows: seq<DbRow>)
    returns (problems: seq<Problem>, means: map<string, real>)
    requires Sampled(cells) && Holds(table, rows)
    ensures problems == CellsProblems(cells, rows)
    ensures means == CellMeans(cells, rows)
  {
    problems, means := [], map[];
    for i := 0 to |cells|
      invariant problems == CellsProblems(cells[..i], rows)
      invariant means == CellMeans(cells[..i], rows)
    {
      var c := cells[i];
      CellStep(cells, i, rows);
      var decode := Entry(table, c.dataset, Some(c.maxTokens), DecodeTpsWarm);
      var ttft := Entry(table, c.dataset, Some(c.maxTokens), TtftWarmMs);
      assert decode == DecodeOf(c, rows) && ttft == TtftOf(c, rows);
      hide Entry, Values, Close, Mean, Holds, CellsProblems, CellMeans;
      if |decode| > c.samples || |ttft| > c.samples {
        problems := problems + [Repeated(c.name)];
      } else if |decode| != c.samples || |ttft| != c.samples {
        problems := problems + [Partial(c.name)];
      } else {
        means := means[c.name := Mean(decode)];
        if !Close(Mean(decode), c.figure.mean) { problems := problems + [DecodeMoved(c.name)]; }
        if !Close(Mean(ttft), c.ttftMean) { problems := problems + [TtftMoved(c.name)]; }
      }
    }
    assert cells[..|cells|] == cells;
  }

  lemma PromptStep(what: string, rows: seq<DbRow>, wants: seq<Want>, i: nat)
    requires i < |wants|
    ensures PromptProblems(what, rows, wants[..i + 1])
         == PromptProblems(what, rows, wants[..i]) + WantProblems(what, rows, wants[i])
  {
    hide WantProblems;
    assert wants[..i + 1][..i] == wants[..i];
  }

  /** `check_prompt`. */
  method CheckPrompt(what: string, rows: seq<DbRow>, wants: seq<Want>, before: seq<Problem>)
    returns (problems: seq<Problem>)
    ensures problems == before + PromptProblems(what, rows, wants)
  {
    problems := before;
    for i := 0 to |wants|
      invariant problems == before + PromptProblems(what, rows, wants[..i])
    {
      hide Close, OfMetric, PromptProblems;
      PromptStep(what, rows, wants, i);
      var values := OfMetric(rows, wants[i].metric);
      if |values| != 1 {
        problems := problems + [NotOne(what, wants[i].metric, |values|)];
        continue;
      }
      if !Close(values[0], wants[i].value) {
        problems := problems + [RowMoved(what, wants[i].metric)];
      }
    }
    assert wants[..|wants|] == wants;
  }

  /** The prompts of one kind, then the rows no prompt names. */
  method CheckPrompts(prefix: string, prompts: seq<Prompt>, rows: seq<DbRow>, before: seq<Problem>)
    returns (problems: seq<Problem>)
    ensures problems == before + LabelProblems(prefix, prompts, rows) + UnnamedProblems(prefix, prompts, rows)
  {
    problems := before;
    for i := 0 to |prompts|
      invariant problems == before + LabelProblems(prefix, prompts[..i], rows)
    {
      hide PromptProblems, NamedRows, Under;
      assert prompts[..i + 1][..i] == prompts[..i];
      var p := prompts[i];
      problems := CheckPrompt(p.title, NamedRows(rows, Under(prefix + p.title)), p.wants, problems);
    }
    assert prompts[..|prompts|] == prompts;
    ghost var labelled := problems;
    for i := 0 to |rows|
      invariant problems == labelled + UnnamedProblems(prefix, prompts, rows[..i])
    {
      hide LabelProblems, HasLabel;
      assert rows[..i + 1][..i] == rows[..i];
      if !HasLabel(prompts, prefix, rows[i].name) { problems := problems + [Unnamed(rows[i].name)]; }
    }
    assert rows[..|rows|] == rows;
  }

  /** `requery`: the disagreements of the rows with the result. */
  method RequeryRun(o: Outcome, rows: seq<DbRow>) returns (problems: seq<Problem>)
    requires Comparable(o)
    ensures problems == Problems(o, rows)
  {
    hide FilingProblems, CellsProblems, CellMeans, Mean, Close, Filed, LabelProblems, UnnamedProblems, PromptProblems;
    if rows == [] { return [NoRows]; }
    var table, filing := FileSamples(rows);
    var cellProblems, means := CheckCells(o.cells, table, rows);
    problems := filing + cellProblems;
    if forall k :: 0 <= k < |o.macro.cells| ==> o.macro.cells[k] in means {
      var rebuilt := Mean(Named(means, o.macro.cells));
      if !Close(rebuilt, o.macro.figure.mean) { problems := problems + [MacroMoved]; }
    }
    assert problems == SampleProblems(o, rows);
    var fixedRows := Filed(rows, FixedRow);
    match o.fixedPrompt {
      case Some(wants) => problems := CheckPrompt(FIXED, fixedRows, wants, problems);
      case None => if fixedRows != [] { problems := problems + [Unnamed(FIXED)]; }
    }
    problems := CheckPrompts("", o.longctx, Filed(rows, LongRow), problems);
    problems := CheckPrompts(GREEDY, o.greedy, Filed(rows, GreedyRow), problems);
  }
}
