/** The loops of `check_same_sample_set`, `macro_cell_per_dataset` and `cmd_report` (scripts/published/aggregate.py). */
module AggregateRun {
  import opened Chars
  import opened StringOrder
  import opened Aggregate

  type Index = map<string, seq<Row>>

  /** The index of a pass holds the rows of each of its cells. */
  ghost predicate Indexes(index: Index, names: seq<string>, rows: seq<Row>) {
    && names == CellNames(rows)
    && (forall c :: c in index <==> c in names)
    && (forall c :: c in index ==> index[c] == InCell(rows, c))
  }

  /** One pass against the first: the same cells, and in each the same sample ids. */
  method SameAs(first: Index, firstNames: seq<string>, other: Index, otherNames: seq<string>,
                ghost a: seq<Row>, ghost b: seq<Row>) returns (same: bool)
    requires Indexes(first, firstNames, a) && Indexes(other, otherNames, b)
    ensures same == SameSamples(a, b)
  {
    hide InCell, CellNames, SortBy, Ids;
    if !((forall c :: c in firstNames ==> c in other) && (forall c :: c in otherNames ==> c in first)) { return false; }
    for k := 0 to |firstNames|
      invariant forall j :: 0 <= j < k ==>
        SortBy(Self, Ids(InCell(a, firstNames[j]))) == SortBy(Self, Ids(InCell(b, firstNames[j])))
    {
      var name := firstNames[k];
      if SortBy(Self, Ids(first[name])) != SortBy(Self, Ids(other[name])) { return false; }
    }
    return true;
  }

  // ---- the macro's cells -----------------------------------------------------

  lemma {:induction false} AtBudgetOfConcat(a: seq<Cell>, b: seq<Cell>, dataset: string, budget: int)
    ensures AtBudget(a + b, dataset, budget) == AtBudget(a, dataset, budget) + AtBudget(b, dataset, budget)
  {
    if a == [] {
      assert a + b == b;
    } else {
      assert (a + b)[0] == a[0] && (a + b)[1..] == a[1..] + b;
      AtBudgetOfConcat(a[1..], b, dataset, budget);
      Associates(if a[0].dataset == dataset && a[0].maxTokens == budget then [a[0].name] else [],
                 AtBudget(a[1..], dataset, budget), AtBudget(b, dataset, budget));
    }
  }

  lemma AtBudgetGrows(cells: seq<Cell>, i: nat, dataset: string, budget: int)
    requires i < |cells|
    ensures AtBudget(cells[..i + 1], dataset, budget) == AtBudget(cells[..i], dataset, budget)
      + if cells[i].dataset == dataset && cells[i].maxTokens == budget then [cells[i].name] else []
  {
    assert cells[..i + 1] == cells[..i] + [cells[i]];
    AtBudgetOfConcat(cells[..i], [cells[i]], dataset, budget);
    assert [cells[i]][1..] == [];
  }

  /** `by_dataset.get(dataset, [])`. */
  function Found(byDataset: map<string, seq<string>>, dataset: string): seq<string> {
    if dataset in byDataset then byDataset[dataset] else []
  }

  method ByDataset(cells: seq<Cell>, budget: int) returns (byDataset: map<string, seq<string>>)
    ensures forall d :: Found(byDataset, d) == AtBudget(cells, d, budget)
  {
    byDataset := map[];
    for i := 0 to |cells|
      invariant forall d :: Found(byDataset, d) == AtBudget(cells[..i], d, budget)
    {
      hide AtBudget;
      var c := cells[i];
      ghost var before := byDataset;
      if c.maxTokens == budget {
        byDataset := byDataset[c.dataset := Found(byDataset, c.dataset) + [c.name]];
      }
      forall d
        ensures Found(byDataset, d) == AtBudget(cells[..i + 1], d, budget)
      {
        AtBudgetGrows(cells, i, d, budget);
        assert Found(before, d) + [] == Found(before, d);
      }
    }
    assert cells[..|cells|] == cells;
  }

  method MacroCellPerDataset(cells: seq<Cell>, budget: int) returns (r: Result<seq<string>, InputError>)
    ensures r == MacroCells(cells, budget)
  {
    hide AtBudget, Datasets, SortBy;
    var byDataset := ByDataset(cells, budget);
    var datasets := SortBy(Self, Datasets(cells));
    var names: seq<string> := [];
    PrefixedEnds([], MacroNames(cells, datasets, budget));
    assert datasets[0..] == datasets;
    for k := 0 to |datasets|
      invariant MacroNames(cells, datasets, budget) == Prefixed(names, MacroNames(cells, datasets[k..], budget))
    {
      assert datasets[k..][0] == datasets[k] && datasets[k..][1..] == datasets[k + 1..];
      var found := Found(byDataset, datasets[k]);
      if |found| != 1 { return Err(NotOneCell(datasets[k])); }
      assert found == [found[0]];
      PrefixedTwice(names, [found[0]], MacroNames(cells, datasets[k + 1..], budget));
      names := names + [found[0]];
    }
    PrefixedEnds(names, MacroNames(cells, [], budget));
    assert datasets[|datasets|..] == [];
    r := Ok(names);
  }

  // ---- the report ------------------------------------------------------------

  /** The loop over the cells of the first pass. */
  method ReadCells(passes: seq<seq<Row>>, names: seq<string>, bandPct: real) returns (r: Result<seq<Cell>, InputError>)
    requires |passes| == 3 && Measured(passes, names)
    ensures r == CellsOf(passes, names, bandPct)
  {
    hide InCell, CellOf;
    var cells: seq<Cell> := [];
    assert names[0..] == names;
    PrefixedEnds([], CellsOf(passes, names, bandPct));
    for k := 0 to |names|
      invariant Measured(passes, names[k..])
      invariant CellsOf(passes, names, bandPct) == Prefixed(cells, CellsOf(passes, names[k..], bandPct))
    {
      var here, rest := names[k..], names[k + 1..];
      assert here[0] == names[k] && here[1..] == rest;
      assert Measured(passes, rest);
      var cell := CellOf(passes, names[k], bandPct);
      if cell.Err? { return Err(cell.error); }
      PrefixedTwice(cells, [cell.value], CellsOf(passes, rest, bandPct));
      cells := cells + [cell.value];
    }
    PrefixedEnds(cells, CellsOf(passes, [], bandPct));
    assert names[|names|..] == [];
    r := Ok(cells);
  }

  /** `cmd_report` over three passes of one arm. */
  method CmdReport(passes: seq<seq<Row>>, bandPct: real, budget: int) returns (r: Result<Report, InputError>)
    ensures r == ReportOf(passes, bandPct, budget)
  {
    if |passes| != 3 { return Err(WrongPassCount); }
    var names0, index0 := CellIndex(passes[0]);
    var names1, index1 := CellIndex(passes[1]);
    var names2, index2 := CellIndex(passes[2]);
    var same1 := SameAs(index0, names0, index1, names1, passes[0], passes[1]);
    var same2 := SameAs(index0, names0, index2, names2, passes[0], passes[2]);
    if !(same1 && same2) { return Err(OtherSamples); }
    SameSetIsMeasured(passes);
    hide SameSamples, CellNames, InCell, CellOf, CellsOf, MacroCells, Summarise, NameMeans;
    var cells := ReadCells(passes, names0, bandPct);
    if cells.Err? { return Err(cells.error); }
    var names := MacroCellPerDataset(cells.value, budget);
    if names.Err? { return Err(names.error); }
    if names.value == [] { return Err(NoCell); }
    MacroIsMeasured(passes, bandPct, budget);
    var figure := Summarise(MacroMeans(passes, names.value), bandPct);
    if figure.Err? { return Err(figure.error); }
    var macro := Macro(names.value, figure.value.(stable := AllStable(cells.value, names.value)));
    r := Ok(Report(cells.value, macro, passes[0] + passes[1] + passes[2]));
  }
}
