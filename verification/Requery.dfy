/** Reading a recorded run back and comparing it with its result (scripts/ingest/requery.py). */
module Requery {
  import opened Chars
  import opened Aggregate
  import opened Records

  const PUBLISHED := "published"
  const FIXED := "fixed_"
  const LONGCTX := "longctx_"
  const GREEDY := "greedy/"

  /** What the result says one row of a prompt must read. */
  datatype Want = Want(metric: Metric, value: real)

  /** A long-context prompt or a greedy dataset, under its title. */
  datatype Prompt = Prompt(title: string, wants: seq<Want>)

  datatype Outcome = Outcome(cells: seq<Cell>, macro: Macro, fixedPrompt: Option<seq<Want>>,
                             longctx: seq<Prompt>, greedy: seq<Prompt>)

  datatype Problem =
    | NoRows
    | NoSample(name: string)
    | Repeated(cell: string)
    | Partial(cell: string)
    | DecodeMoved(cell: string)
    | TtftMoved(cell: string)
    | MacroMoved
    | NotOne(prompt: string, metric: Metric, count: nat)
    | RowMoved(prompt: string, metric: Metric)
    | Unnamed(name: string)

  /** Agreement within the allowance for the order a mean is summed in. */
  predicate Close(got: real, want: real) {
    var off := if got < want then want - got else got - want;
    var size := if want < 0.0 then -want else want;
    off <= 0.000000001 * (if size > 1.0 then size else 1.0)
  }

  // ---- how rows are filed ----------------------------------------------------

  predicate StartsWith(s: string, prefix: string) {
    |prefix| <= |s| && s[..|prefix|] == prefix
  }

  function Under(rest: string): string {
    PUBLISHED + "/" + rest
  }

  /** Which block of the result a row belongs to. */
  datatype Filing = FixedRow | LongRow | GreedyRow | SampleRow

  function FilingOf(name: string): Filing {
    if StartsWith(name, Under(FIXED)) then FixedRow
    else if StartsWith(name, Under(LONGCTX)) then LongRow
    else if StartsWith(name, Under(GREEDY)) then GreedyRow
    else SampleRow
  }

  /** The dataset of `published/<dataset>/<sample>`: the name has at least two slashes, and the first part is right. */
  function DatasetOf(name: string): Option<string> {
    var first := Find(name, '/', 0);
    if first == |name| then None
    else
      var second := Find(name, '/', first + 1);
      if second == |name| || name[..first] != PUBLISHED then None else Some(name[first + 1..second])
  }

  predicate InSlot(r: DbRow, dataset: string, budget: int, metric: Metric) {
    && FilingOf(r.name) == SampleRow && DatasetOf(r.name) == Some(dataset)
    && r.maxTokens == Some(budget) && r.metric == metric
  }

  /** The values filed under one cell and metric, in the order of the rows. */
  function Values(rows: seq<DbRow>, dataset: string, budget: int, metric: Metric): seq<real> {
    if rows == [] then []
    else
      var r := rows[|rows| - 1];
      Values(rows[..|rows| - 1], dataset, budget, metric) + if InSlot(r, dataset, budget, metric) then [r.value] else []
  }

  lemma {:induction false} ValuesOfConcat(a: seq<DbRow>, b: seq<DbRow>, dataset: string, budget: int, metric: Metric)
    ensures Values(a + b, dataset, budget, metric)
         == Values(a, dataset, budget, metric) + Values(b, dataset, budget, metric)
    decreases |b|
  {
    hide InSlot;
    if b == [] {
      assert a + b == a;
    } else {
      assert (a + b)[..|a + b| - 1] == a + b[..|b| - 1];
      ValuesOfConcat(a, b[..|b| - 1], dataset, budget, metric);
    }
  }

  // ---- the problems ----------------------------------------------------------

  function FilingProblems(rows: seq<DbRow>): seq<Problem> {
    if rows == [] then []
    else
      var r := rows[|rows| - 1];
      FilingProblems(rows[..|rows| - 1])
      + if FilingOf(r.name) == SampleRow && DatasetOf(r.name) == None then [NoSample(r.name)] else []
  }

  function DecodeOf(c: Cell, rows: seq<DbRow>): seq<real> {
    Values(rows, c.dataset, c.maxTokens, DecodeTpsWarm)
  }

  function TtftOf(c: Cell, rows: seq<DbRow>): seq<real> {
    Values(rows, c.dataset, c.maxTokens, TtftWarmMs)
  }

  /** Every sample of the cell has one row of each metric. */
  predicate Complete(c: Cell, rows: seq<DbRow>) {
    |DecodeOf(c, rows)| == c.samples == |TtftOf(c, rows)|
  }

  function CellProblems(c: Cell, rows: seq<DbRow>): seq<Problem>
    requires c.samples > 0
  {
    var decode, ttft := DecodeOf(c, rows), TtftOf(c, rows);
    if |decode| > c.samples || |ttft| > c.samples then [Repeated(c.name)]
    else if |decode| != c.samples || |ttft| != c.samples then [Partial(c.name)]
    else
      (if Close(Mean(decode), c.figure.mean) then [] else [DecodeMoved(c.name)])
      + (if Close(Mean(ttft), c.ttftMean) then [] else [TtftMoved(c.name)])
  }

  predicate Sampled(cells: seq<Cell>) {
    forall i :: 0 <= i < |cells| ==> cells[i].samples > 0
  }

  function CellsProblems(cells: seq<Cell>, rows: seq<DbRow>): seq<Problem>
    requires Sampled(cells)
  {
    if cells == [] then []
    else CellsProblems(cells[..|cells| - 1], rows) + CellProblems(cells[|cells| - 1], rows)
  }

  /** `cell_means`: the mean of each complete cell, by name. */
  function CellMeans(cells: seq<Cell>, rows: seq<DbRow>): map<string, real>
    requires Sampled(cells)
  {
    if cells == [] then map[]
    else
      var before, c := CellMeans(cells[..|cells| - 1], rows), cells[|cells| - 1];
      if Complete(c, rows) then before[c.name := Mean(DecodeOf(c, rows))] else before
  }

  function Named(means: map<string, real>, names: seq<string>): (r: seq<real>)
    requires forall k :: 0 <= k < |names| ==> names[k] in means
    ensures |r| == |names| && forall k :: 0 <= k < |names| ==> r[k] == means[names[k]]
  {
    if names == [] then [] else [means[names[0]]] + Named(means, names[1..])
  }

  function MacroProblems(macro: Macro, means: map<string, real>): seq<Problem>
    requires macro.cells != []
  {
    if !(forall k :: 0 <= k < |macro.cells| ==> macro.cells[k] in means) then []
    else if Close(Mean(Named(means, macro.cells)), macro.figure.mean) then []
    else [MacroMoved]
  }

  function Filed(rows: seq<DbRow>, filing: Filing): seq<DbRow> {
    if rows == [] then [] else (if FilingOf(rows[0].name) == filing then [rows[0]] else []) + Filed(rows[1..], filing)
  }

  function NamedRows(rows: seq<DbRow>, name: string): seq<DbRow> {
    if rows == [] then [] else (if rows[0].name == name then [rows[0]] else []) + NamedRows(rows[1..], name)
  }

  function OfMetric(rows: seq<DbRow>, metric: Metric): seq<real> {
    if rows == [] then [] else (if rows[0].metric == metric then [rows[0].value] else []) + OfMetric(rows[1..], metric)
  }

  function WantProblems(what: string, rows: seq<DbRow>, want: Want): seq<Problem> {
    var values := OfMetric(rows, want.metric);
    if |values| != 1 then [NotOne(what, want.metric, |values|)]
    else if Close(values[0], want.value) then []
    else [RowMoved(what, want.metric)]
  }

  /** `check_prompt`: one row of each wanted metric, reading what is wanted. */
  function PromptProblems(what: string, rows: seq<DbRow>, wants: seq<Want>): seq<Problem> {
    if wants == [] then []
    else PromptProblems(what, rows, wants[..|wants| - 1]) + WantProblems(what, rows, wants[|wants| - 1])
  }

  function FixedProblems(fixedPrompt: Option<seq<Want>>, rows: seq<DbRow>): seq<Problem> {
    match fixedPrompt
    case Some(wants) => PromptProblems(FIXED, rows, wants)
    case None => if rows == [] then [] else [Unnamed(FIXED)]
  }

  /** The prompts of one kind, each against its own rows. */
  function LabelProblems(prefix: string, prompts: seq<Prompt>, rows: seq<DbRow>): seq<Problem> {
    if prompts == [] then []
    else
      var p := prompts[|prompts| - 1];
      LabelProblems(prefix, prompts[..|prompts| - 1], rows)
      + PromptProblems(p.title, NamedRows(rows, Under(prefix + p.title)), p.wants)
  }

  predicate HasLabel(prompts: seq<Prompt>, prefix: string, name: string) {
    exists i :: 0 <= i < |prompts| && name == Under(prefix + prompts[i].title)
  }

  function UnnamedProblems(prefix: string, prompts: seq<Prompt>, rows: seq<DbRow>): seq<Problem> {
    if rows == [] then []
    else
      var r := rows[|rows| - 1];
      UnnamedProblems(prefix, prompts, rows[..|rows| - 1])
        + if HasLabel(prompts, prefix, r.name) then [] else [Unnamed(r.name)]
  }

  /** A result that can be compared: every cell holds a sample and the macro a cell. */
  predicate Comparable(o: Outcome) {
    Sampled(o.cells) && o.macro.cells != []
  }

  function SampleProblems(o: Outcome, rows: seq<DbRow>): seq<Problem>
    requires Comparable(o)
  {
    FilingProblems(rows) + CellsProblems(o.cells, rows) + MacroProblems(o.macro, CellMeans(o.cells, rows))
  }

  function BlockProblems(o: Outcome, rows: seq<DbRow>): seq<Problem> {
    var long, greedy := Filed(rows, LongRow), Filed(rows, GreedyRow);
    FixedProblems(o.fixedPrompt, Filed(rows, FixedRow))
    + LabelProblems("", o.longctx, long) + UnnamedProblems("", o.longctx, long)
    + LabelProblems(GREEDY, o.greedy, greedy) + UnnamedProblems(GREEDY, o.greedy, greedy)
  }

  /** Every disagreement between the rows and the result. */
  function Problems(o: Outcome, rows: seq<DbRow>): seq<Problem>
    requires Comparable(o)
  {
    if rows == [] then [NoRows] else SampleProblems(o, rows) + BlockProblems(o, rows)
  }
}
