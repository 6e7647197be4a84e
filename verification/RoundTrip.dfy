/** A recorded run reads back as its result: the records of scripts/ingest/published.py, the rows
    they become, and the comparison of scripts/ingest/requery.py. */
module RoundTrip {
  import opened Chars
  import opened Aggregate
  import opened Records
  import opened Requery

  // ---- the rows of the records -----------------------------------------------

  function RecordName(dataset: string, sampleId: string): string {
    Under(dataset + "/" + sampleId)
  }

  function RowsOf(records: seq<Record>): seq<DbRow> {
    if records == [] then []
    else
      var r := records[|records| - 1];
      var name := RecordName(r.dataset, r.sampleId);
      RowsOf(records[..|records| - 1])
      + [DbRow(name, DecodeTpsWarm, Some(r.maxTokens), r.decode), DbRow(name, TtftWarmMs, Some(r.maxTokens), r.ttft)]
  }

  /** A dataset name that leaves the other blocks' names alone. */
  predicate Plain(dataset: string) {
    '/' !in dataset && dataset + "/" != GREEDY && !StartsWith(dataset, FIXED) && !StartsWith(dataset, LONGCTX)
  }

  lemma BehindSlash(dataset: string, sampleId: string, word: string)
    requires '/' !in dataset && '/' !in word
    ensures StartsWith(dataset + "/" + sampleId, word) ==> StartsWith(dataset, word)
  {
    var s := dataset + "/" + sampleId;
    if StartsWith(s, word) {
      assert forall k :: 0 <= k < |word| ==> word[k] == s[..|word|][k] == s[k];
      assert s[|dataset|] == '/';
      assert |word| <= |dataset|;
      assert s[..|word|] == dataset[..|word|];
    }
  }

  lemma UnderKeepsPrefix(s: string, word: string)
    ensures StartsWith(Under(s), Under(word)) <==> StartsWith(s, word)
  {
    var p := PUBLISHED + "/";
    assert Under(s)[|p|..] == s;
    if StartsWith(s, word) {
      assert Under(s)[..|p| + |word|] == p + s[..|word|];
    }
    if StartsWith(Under(s), Under(word)) {
      assert Under(s)[..|p| + |word|][|p|..] == s[..|word|];
      assert Under(word)[|p|..] == word;
    }
  }

  lemma GreedyDataset(dataset: string, sampleId: string)
    requires '/' !in dataset
    ensures StartsWith(dataset + "/" + sampleId, GREEDY) ==> dataset + "/" == GREEDY
  {
    var s, g := dataset + "/" + sampleId, GREEDY;
    if StartsWith(s, g) {
      assert g[6] == '/' && forall k :: 0 <= k < 6 ==> g[k] != '/';
      assert forall k :: 0 <= k < 7 ==> g[k] == s[..7][k] == s[k];
      assert s[|dataset|] == '/' && forall k :: 0 <= k < |dataset| ==> s[k] == dataset[k];
      assert |dataset| == 6;
      assert s[..7] == dataset + "/";
    }
  }

  lemma RecordIsFiled(dataset: string, sampleId: string)
    requires Plain(dataset)
    ensures FilingOf(RecordName(dataset, sampleId)) == SampleRow
    ensures DatasetOf(RecordName(dataset, sampleId)) == Some(dataset)
  {
    var rest := dataset + "/" + sampleId;
    BehindSlash(dataset, sampleId, FIXED);
    BehindSlash(dataset, sampleId, LONGCTX);
    GreedyDataset(dataset, sampleId);
    UnderKeepsPrefix(rest, FIXED);
    UnderKeepsPrefix(rest, LONGCTX);
    UnderKeepsPrefix(rest, GREEDY);
    NameComesApart(dataset, sampleId);
  }

  lemma NameComesApart(dataset: string, sampleId: string)
    requires '/' !in dataset
    ensures DatasetOf(RecordName(dataset, sampleId)) == Some(dataset)
  {
    var p, name := PUBLISHED, RecordName(dataset, sampleId);
    assert name == p + ("/" + dataset + "/" + sampleId);
    assert name == (p + "/") + (dataset + "/" + sampleId);
    assert forall k :: 0 <= k < |p| ==> name[k] == p[k] != '/';
    assert name[|p|] == '/' && name[..|p|] == p;
    var from := |p| + 1;
    assert forall k :: 0 <= k < |dataset| ==> name[from + k] == dataset[k];
    assert forall k :: from <= k < from + |dataset| ==> name[k] == dataset[k - from];
    assert name[from + |dataset|] == '/';
    assert name[from..from + |dataset|] == dataset;
  }

  // ---- what a cell's rows add up to ------------------------------------------

  lemma {:induction false} PickAreRows(rows: seq<Row>, k: Key)
    ensures forall i :: 0 <= i < |Pick(rows, k)| ==> Pick(rows, k)[i] in rows && KeyOf(Pick(rows, k)[i]) == k
  {
    if rows != [] { PickAreRows(rows[..|rows| - 1], k); }
  }

  predicate SameSlot(a: Row, b: Row) {
    a.dataset == b.dataset && a.maxTokens == b.maxTokens
  }

  /** One cell for each dataset and budget, and dataset names of their own. */
  predicate CellTable(rows: seq<Row>) {
    && (forall i :: 0 <= i < |rows| ==> Plain(rows[i].dataset))
    && (forall i, j :: 0 <= i < |rows| && 0 <= j < |rows| ==>
          (rows[i].cell == rows[j].cell <==> SameSlot(rows[i], rows[j])))
  }

  function One(r: Row): real { 1.0 }

  lemma SumByThree(f: Row -> real, rows: seq<Row>)
    requires |rows| == PASSES
    ensures SumBy(f, rows) == 3.0 * Mean(Rates(f, rows)) && SumBy(One, rows) == 3.0
  {
    SumByIsSum(f, rows);
    var one, two := rows[..2], rows[..2][..1];
    assert SumBy(One, two[..0]) == 0.0;
    assert SumBy(One, two) == 1.0 && SumBy(One, one) == 2.0;
  }

  function Rate(metric: Metric): Row -> real {
    if metric == DecodeTpsWarm then Decode else Ttft
  }

  function Reading(r: Record, metric: Metric): real {
    if metric == DecodeTpsWarm then r.decode else r.ttft
  }

  lemma RecordInSlot(records: seq<Record>, record: Record, dataset: string, budget: int, metric: Metric)
    requires Plain(record.dataset) && (metric == DecodeTpsWarm || metric == TtftWarmMs)
    ensures Values(RowsOf(records + [record]), dataset, budget, metric)
         == Values(RowsOf(records), dataset, budget, metric)
            + if record.dataset == dataset && record.maxTokens == budget then [Reading(record, metric)] else []
  {
    RecordIsFiled(record.dataset, record.sampleId);
    var name := RecordName(record.dataset, record.sampleId);
    var a := DbRow(name, DecodeTpsWarm, Some(record.maxTokens), record.decode);
    var b := DbRow(name, TtftWarmMs, Some(record.maxTokens), record.ttft);
    assert (records + [record])[..|records|] == records;
    hide FilingOf, DatasetOf, RecordName, Plain;
    ValuesOfConcat(RowsOf(records), [a, b], dataset, budget, metric);
    assert [a, b][..1] == [a] && [a][..0] == [];
    assert Values([a], dataset, budget, metric) == Values([], dataset, budget, metric)
      + if InSlot(a, dataset, budget, metric) then [a.value] else [];
    assert Values([a, b], dataset, budget, metric) == Values([a], dataset, budget, metric)
      + if InSlot(b, dataset, budget, metric) then [b.value] else [];
  }

  /** The values filed under a cell add up to a third of its groups, and number a third of its rows. */
  lemma {:induction false} ValuesOfRecords(rows: seq<Row>, keys: seq<Key>, bodies: map<string, Body>, w: Row,
                                           metric: Metric)
    requires CellTable(rows) && w in rows && RecordsFrom(rows, keys, bodies).Ok?
    requires metric == DecodeTpsWarm || metric == TtftWarmMs
    ensures var vs := Values(RowsOf(RecordsFrom(rows, keys, bodies).value), w.dataset, w.maxTokens, metric);
      && 3.0 * Sum(vs) == GroupSum(Rate(metric), rows, keys, w.cell)
      && 3.0 * |vs| as real == GroupSum(One, rows, keys, w.cell)
    decreases |keys|
  {
    if keys != [] {
      var before, k := keys[..|keys| - 1], keys[|keys| - 1];
      var records := RecordsFrom(rows, before, bodies).value;
      var group := Pick(rows, k);
      var record := RecordOf(group, k, bodies).value;
      ValuesOfRecords(rows, before, bodies, w, metric);
      PickAreRows(rows, k);
      assert group[0] in rows && KeyOf(group[0]) == k;
      SumByThree(Rate(metric), group);
      RecordInSlot(records, record, w.dataset, w.maxTokens, metric);
      var vs := Values(RowsOf(records), w.dataset, w.maxTokens, metric);
      SumOfConcat(vs, [Reading(record, metric)]);
      assert vs + [] == vs;
      assert Sum([Reading(record, metric)]) == Reading(record, metric) + Sum([]);
    }
  }

  // ---- one cell --------------------------------------------------------------

  function AllRows(passes: seq<seq<Row>>): seq<Row>
    requires |passes| == 3
  {
    passes[0] + passes[1] + passes[2]
  }

  function FlatCell(passes: seq<seq<Row>>, cell: string): seq<Row>
    requires |passes| == 3
  {
    InCell(passes[0], cell) + InCell(passes[1], cell) + InCell(passes[2], cell)
  }

  lemma {:induction false} SumByOne(rows: seq<Row>)
    ensures SumBy(One, rows) == |rows| as real
  {
    if rows != [] { SumByOne(rows[..|rows| - 1]); }
  }

  lemma {:induction false} InCellAreRows(rows: seq<Row>, cell: string)
    ensures forall i :: 0 <= i < |InCell(rows, cell)| ==>
      InCell(rows, cell)[i] in rows && InCell(rows, cell)[i].cell == cell
  {
    if rows != [] { InCellAreRows(rows[..|rows| - 1], cell); }
  }

  /** The values of a cell's records: one for each sample, adding up to a third of the cell's rows. */
  lemma CellValues(passes: seq<seq<Row>>, bodies: map<string, Body>, cell: string, metric: Metric)
    requires SameSampleSet(passes) && cell in CellNames(passes[0])
    requires CellTable(AllRows(passes)) && RecordsOf(AllRows(passes), bodies).Ok?
    requires metric == DecodeTpsWarm || metric == TtftWarmMs
    ensures var n, first := |InCell(passes[0], cell)|, InCell(passes[0], cell);
      && n > 0 && |InCell(passes[1], cell)| == |InCell(passes[2], cell)| == n
      && var rows := RowsOf(RecordsOf(AllRows(passes), bodies).value);
         var vs := Values(rows, first[0].dataset, first[0].maxTokens, metric);
         |vs| == n && 3.0 * Sum(vs) == Sum(Rates(Rate(metric), FlatCell(passes, cell)))
  {
    var rows := AllRows(passes);
    SameSamplesSameCount(passes[0], passes[1], cell);
    SameSamplesSameCount(passes[0], passes[2], cell);
    InCellAreRows(passes[0], cell);
    var w := InCell(passes[0], cell)[0];
    assert w in passes[0] && w in rows && w.cell == cell;
    InCellOfConcat(passes[0], passes[1], cell);
    InCellOfConcat(passes[0] + passes[1], passes[2], cell);
    var flat := FlatCell(passes, cell);
    assert InCell(rows, cell) == flat;
    var keys := KeysOf(rows);
    KeysAreDistinct(rows);
    KeysCoverRows(rows);
    ValuesOfRecords(rows, keys, bodies, w, metric);
    GroupSumIsCellSum(Rate(metric), rows, keys, cell);
    GroupSumIsCellSum(One, rows, keys, cell);
    SumByIsSum(Rate(metric), flat);
    SumByOne(flat);
  }

  lemma MeanOfMeans(a: real, b: real, c: real, n: real)
    requires n > 0.0
    ensures (a / n + b / n + c / n) / 3.0 == (a + b + c) / 3.0 / n
  {
    assert (a / n + b / n + c / n) == (a + b + c) / n;
    assert (a + b + c) / n / 3.0 == (a + b + c) / 3.0 / n;
  }

  /** The mean over samples of the means over passes is the mean over passes of the means over samples. */
  lemma MeansExchange(passes: seq<seq<Row>>, cell: string, vs: seq<real>)
    requires |passes| == 3 && vs != []
    requires forall p :: 0 <= p < 3 ==> |InCell(passes[p], cell)| == |vs|
    requires 3.0 * Sum(vs) == Sum(Rates(Decode, FlatCell(passes, cell)))
    ensures Mean(vs) == Mean(PassMeans(passes, cell))
  {
    var a, b, c := InCell(passes[0], cell), InCell(passes[1], cell), InCell(passes[2], cell);
    PassMeansAre(passes, cell);
    var m := PassMeans(passes, cell);
    RatesOfConcat(Decode, a, b);
    RatesOfConcat(Decode, a + b, c);
    SumOfConcat(Rates(Decode, a), Rates(Decode, b));
    SumOfConcat(Rates(Decode, a) + Rates(Decode, b), Rates(Decode, c));
    hide InCell, PassMeans, Rates;
    assert m == [m[0], m[1], m[2]];
    SumOfThree(m[0], m[1], m[2]);
    MeanOfMeans(Sum(Rates(Decode, a)), Sum(Rates(Decode, b)), Sum(Rates(Decode, c)), |vs| as real);
  }

  lemma TtftExchange(total: real, sum: real, n: real)
    requires n > 0.0 && 3.0 * sum == total
    ensures sum / n == total / (3.0 * n)
  {
    assert total / (3.0 * n) == (3.0 * sum) / (3.0 * n);
  }

  /** Values that number a cell's samples and add up to a third of its rows have the report's means. */
  lemma MeansAgree(passes: seq<seq<Row>>, bandPct: real, cell: string, decode: seq<real>, ttft: seq<real>)
    requires |passes| == 3 && (forall p :: 0 <= p < |passes| ==> InCell(passes[p], cell) != [])
    requires CellOf(passes, cell, bandPct).Ok?
    requires decode != [] && |ttft| == |decode| && forall p :: 0 <= p < 3 ==> |InCell(passes[p], cell)| == |decode|
    requires 3.0 * Sum(decode) == Sum(Rates(Decode, FlatCell(passes, cell)))
    requires 3.0 * Sum(ttft) == Sum(Rates(Ttft, FlatCell(passes, cell)))
    ensures var c := CellOf(passes, cell, bandPct).value;
      Mean(decode) == c.figure.mean && Mean(ttft) == c.ttftMean && c.samples == |decode|
  {
    MeansExchange(passes, cell, decode);
    TtftExchange(Sum(Rates(Ttft, FlatCell(passes, cell))), Sum(ttft), |ttft| as real);
    hide InCell, PassMeans;
    assert |FlatCell(passes, cell)| == 3 * |ttft|;
  }

  lemma SlotIsOwn(passes: seq<seq<Row>>, bandPct: real, cell: string, rows: seq<DbRow>)
    requires |passes| == 3 && (forall p :: 0 <= p < |passes| ==> InCell(passes[p], cell) != [])
    requires CellOf(passes, cell, bandPct).Ok?
    ensures var c, first := CellOf(passes, cell, bandPct).value, InCell(passes[0], cell)[0];
      && DecodeOf(c, rows) == Values(rows, first.dataset, first.maxTokens, DecodeTpsWarm)
      && TtftOf(c, rows) == Values(rows, first.dataset, first.maxTokens, TtftWarmMs)
  {
    hide Values, InCell, PassMeans;
  }

  /** A cell reads back complete, with the means the report gives. */
  lemma CellReadsBack(passes: seq<seq<Row>>, bodies: map<string, Body>, bandPct: real, cell: string)
    requires SameSampleSet(passes) && cell in CellNames(passes[0])
    requires CellTable(AllRows(passes)) && RecordsOf(AllRows(passes), bodies).Ok?
    requires (forall p :: 0 <= p < |passes| ==> InCell(passes[p], cell) != []) && CellOf(passes, cell, bandPct).Ok?
    ensures var c, rows := CellOf(passes, cell, bandPct).value, RowsOf(RecordsOf(AllRows(passes), bodies).value);
      && Complete(c, rows) && c.samples > 0
      && Mean(DecodeOf(c, rows)) == c.figure.mean && Mean(TtftOf(c, rows)) == c.ttftMean
  {
    hide CellOf, RowsOf, RecordsOf, InCell, Values, Rates, FlatCell;
    var rows := RowsOf(RecordsOf(AllRows(passes), bodies).value);
    CellValues(passes, bodies, cell, DecodeTpsWarm);
    CellValues(passes, bodies, cell, TtftWarmMs);
    SlotIsOwn(passes, bandPct, cell, rows);
    var first := InCell(passes[0], cell)[0];
    MeansAgree(passes, bandPct, cell, Values(rows, first.dataset, first.maxTokens, DecodeTpsWarm),
               Values(rows, first.dataset, first.maxTokens, TtftWarmMs));
  }

  // ---- the macro -------------------------------------------------------------

  /** Every cell is complete, and reads the mean over the passes. */
  predicate AllReadBack(passes: seq<seq<Row>>, cells: seq<Cell>, rows: seq<DbRow>)
    requires |passes| == 3 && Measured(passes, NamesOf(cells))
  {
    forall i :: 0 <= i < |cells| ==>
      && cells[i].samples > 0 && Complete(cells[i], rows)
      && Mean(DecodeOf(cells[i], rows)) == cells[i].figure.mean == Mean(PassMeans(passes, NamesOf(cells)[i]))
      && Mean(TtftOf(cells[i], rows)) == cells[i].ttftMean
  }

  lemma {:induction false} CellMeansAre(cells: seq<Cell>, rows: seq<DbRow>, name: string) returns (i: nat)
    requires Sampled(cells) && name in CellMeans(cells, rows)
    ensures i < |cells| && cells[i].name == name && Complete(cells[i], rows)
    ensures CellMeans(cells, rows)[name] == Mean(DecodeOf(cells[i], rows))
  {
    hide Values, Mean;
    i := |cells| - 1;
    if cells[i].name != name || !Complete(cells[i], rows) {
      i := CellMeansAre(cells[..i], rows, name);
    }
  }

  lemma {:induction false} CompleteHasMean(cells: seq<Cell>, rows: seq<DbRow>, i: nat)
    requires Sampled(cells) && i < |cells| && Complete(cells[i], rows)
    ensures cells[i].name in CellMeans(cells, rows)
  {
    hide Values, Mean;
    if i < |cells| - 1 {
      CompleteHasMean(cells[..|cells| - 1], rows, i);
    }
  }

  /** What the database gives for a cell is the report's mean over the passes. */
  lemma MeanReadsBack(passes: seq<seq<Row>>, cells: seq<Cell>, rows: seq<DbRow>, name: string)
    requires |passes| == 3 && Measured(passes, NamesOf(cells)) && Sampled(cells) && AllReadBack(passes, cells, rows)
    requires name in NamesOf(cells)
    ensures (forall p :: 0 <= p < |passes| ==> InCell(passes[p], name) != []) && name in CellMeans(cells, rows)
    ensures CellMeans(cells, rows)[name] == Mean(PassMeans(passes, name))
  {
    hide Complete, PassMeans, DecodeOf, TtftOf, Mean, InCell, CellMeans;
    var i :| 0 <= i < |cells| && NamesOf(cells)[i] == name;
    CompleteHasMean(cells, rows, i);
    var j := CellMeansAre(cells, rows, name);
    assert NamesOf(cells)[j] == name;
  }

  lemma {:induction false} SumsExchange(passes: seq<seq<Row>>, means: map<string, real>, names: seq<string>)
    requires |passes| == 3 && Measured(passes, names)
    requires forall k :: 0 <= k < |names| ==> names[k] in means && means[names[k]] == Mean(PassMeans(passes, names[k]))
    ensures 3.0 * Sum(Named(means, names))
         == Sum(NameMeans(passes[0], names)) + Sum(NameMeans(passes[1], names)) + Sum(NameMeans(passes[2], names))
  {
    if names != [] {
      var rest := names[1..];
      assert forall k :: 0 <= k < |rest| ==> rest[k] == names[k + 1];
      SumsExchange(passes, means, rest);
      var m := PassMeans(passes, names[0]);
      PassMeansAre(passes, names[0]);
      hide InCell, Rates, PassMeans;
      assert m == [m[0], m[1], m[2]];
      SumOfThree(m[0], m[1], m[2]);
    }
  }

  lemma ExchangeReals(s: real, a: real, b: real, c: real, n: real)
    requires n > 0.0 && 3.0 * s == a + b + c
    ensures s / n == (a / n + b / n + c / n) / 3.0
  {
    MeanOfMeans(a, b, c, n);
  }

  /** The mean over cells of the means over passes is the mean over passes of the means over cells. */
  lemma MacroExchange(passes: seq<seq<Row>>, means: map<string, real>, names: seq<string>)
    requires |passes| == 3 && Measured(passes, names) && names != []
    requires forall k :: 0 <= k < |names| ==> names[k] in means && means[names[k]] == Mean(PassMeans(passes, names[k]))
    ensures Mean(Named(means, names)) == Mean(MacroMeans(passes, names))
  {
    SumsExchange(passes, means, names);
    MacroMeansAre(passes, names);
    var m := MacroMeans(passes, names);
    var a, b, c := NameMeans(passes[0], names), NameMeans(passes[1], names), NameMeans(passes[2], names);
    MeanOfThree(m);
    ExchangeReals(Sum(Named(means, names)), Sum(a), Sum(b), Sum(c), |names| as real);
    hide NameMeans, MacroMeans, Named, InCell, PassMeans, Sum;
  }

  lemma MeanOfThree(m: seq<real>)
    requires |m| == 3
    ensures Mean(m) == (m[0] + m[1] + m[2]) / 3.0
  {
    assert m == [m[0], m[1], m[2]];
    SumOfThree(m[0], m[1], m[2]);
  }

  // ---- the samples of a whole report -----------------------------------------

  function OutcomeOf(rep: Report, fixedPrompt: Option<seq<Want>>, longctx: seq<Prompt>, greedy: seq<Prompt>): Outcome {
    Outcome(rep.cells, rep.macro, fixedPrompt, longctx, greedy)
  }

  lemma CloseToItself(x: real)
    ensures Close(x, x)
  {
  }

  lemma {:induction false} NoCellProblems(cells: seq<Cell>, rows: seq<DbRow>)
    requires Sampled(cells)
    requires forall i :: 0 <= i < |cells| ==>
      && Complete(cells[i], rows)
      && Mean(DecodeOf(cells[i], rows)) == cells[i].figure.mean && Mean(TtftOf(cells[i], rows)) == cells[i].ttftMean
    ensures CellsProblems(cells, rows) == []
  {
    hide Close, Values;
    if cells != [] {
      var c := cells[|cells| - 1];
      NoCellProblems(cells[..|cells| - 1], rows);
      CloseToItself(c.figure.mean);
      CloseToItself(c.ttftMean);
    }
  }

  lemma ReportReadsBack(passes: seq<seq<Row>>, bodies: map<string, Body>, bandPct: real, budget: int)
    requires ReportOf(passes, bandPct, budget).Ok?
    requires var rep := ReportOf(passes, bandPct, budget).value;
      CellTable(rep.samples) && RecordsOf(rep.samples, bodies).Ok?
    ensures var rep := ReportOf(passes, bandPct, budget).value;
      |passes| == 3 && Measured(passes, NamesOf(rep.cells))
      && AllReadBack(passes, rep.cells, RowsOf(RecordsOf(rep.samples, bodies).value))
  {
    ReportFacts(passes, bandPct, budget);
    var rep := ReportOf(passes, bandPct, budget).value;
    assert rep.samples == AllRows(passes);
    var rows, names := RowsOf(RecordsOf(rep.samples, bodies).value), CellNames(passes[0]);
    hide ReportOf, RecordsOf, RowsOf;
    forall i | 0 <= i < |rep.cells|
      ensures NamesOf(rep.cells)[i] == names[i]
    {
      CellIsNamed(passes, names[i], bandPct);
    }
    assert Measured(passes, NamesOf(rep.cells)) by {
      assert NamesOf(rep.cells) == names;
    }
    forall i | 0 <= i < |rep.cells|
      ensures rep.cells[i].samples > 0 && Complete(rep.cells[i], rows)
      ensures Mean(DecodeOf(rep.cells[i], rows)) == rep.cells[i].figure.mean
          == Mean(PassMeans(passes, NamesOf(rep.cells)[i]))
      ensures Mean(TtftOf(rep.cells[i], rows)) == rep.cells[i].ttftMean
    {
      CellReadsBack(passes, bodies, bandPct, names[i]);
      CellMeanIs(passes, names[i], bandPct);
    }
  }

  lemma CellMeanIs(passes: seq<seq<Row>>, name: string, bandPct: real)
    requires |passes| == 3 && forall p :: 0 <= p < |passes| ==> InCell(passes[p], name) != []
    ensures CellOf(passes, name, bandPct).Ok? ==>
      CellOf(passes, name, bandPct).value.figure.mean == Mean(PassMeans(passes, name))
  {
  }
}
