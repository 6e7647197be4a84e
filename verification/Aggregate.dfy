/** The report over three passes of the published protocol (scripts/published/aggregate.py).
    Rates are reals: rounding is not part of this model. */
module Aggregate {
  import opened Chars
  import opened StringOrder

  /** One measured sample of one pass. */
  datatype Row = Row(cell: string, dataset: string, sampleId: string, maxTokens: int, decode: real, ttft: real,
                     digest: string, promptTokens: int)

  /** `pass_means` and what is derived from them. */
  datatype Summary = Summary(passMeans: seq<real>, mean: real, rangePct: real, stable: bool)

  datatype Cell = Cell(name: string, dataset: string, maxTokens: int, samples: nat, figure: Summary, ttftMean: real)

  datatype Macro = Macro(cells: seq<string>, figure: Summary)

  datatype Report = Report(cells: seq<Cell>, macro: Macro, samples: seq<Row>)

  /** Why the inputs do not describe one measurement. */
  datatype InputError = WrongPassCount | OtherSamples | NoCell | ZeroMean | NotOneCell(dataset: string)

  // ---- sums and means --------------------------------------------------------

  function Sum(xs: seq<real>): real {
    if xs == [] then 0.0 else xs[0] + Sum(xs[1..])
  }

  function Mean(xs: seq<real>): real
    requires xs != []
  {
    Sum(xs) / |xs| as real
  }

  function MaxOf(xs: seq<real>): real
    requires xs != []
  {
    if |xs| == 1 then xs[0]
    else
      var m := MaxOf(xs[1..]);
      if xs[0] > m then xs[0] else m
  }

  function MinOf(xs: seq<real>): real
    requires xs != []
  {
    if |xs| == 1 then xs[0]
    else
      var m := MinOf(xs[1..]);
      if xs[0] < m then xs[0] else m
  }

  lemma {:induction false} SumOfConcat(xs: seq<real>, ys: seq<real>)
    ensures Sum(xs + ys) == Sum(xs) + Sum(ys)
  {
    if xs == [] {
      assert xs + ys == ys;
    } else {
      assert (xs + ys)[1..] == xs[1..] + ys;
      SumOfConcat(xs[1..], ys);
    }
  }

  /** A rate read off a row. */
  function Rates(f: Row -> real, rows: seq<Row>): (r: seq<real>)
    ensures |r| == |rows|
  {
    if rows == [] then [] else [f(rows[0])] + Rates(f, rows[1..])
  }

  function Decode(r: Row): real { r.decode }

  function Ttft(r: Row): real { r.ttft }

  // ---- the cells of a pass ---------------------------------------------------

  function InCell(rows: seq<Row>, cell: string): seq<Row> {
    if rows == [] then []
    else
      var r := rows[|rows| - 1];
      InCell(rows[..|rows| - 1], cell) + if r.cell == cell then [r] else []
  }

  function CellNames(rows: seq<Row>): seq<string> {
    if rows == [] then []
    else
      var names, name := CellNames(rows[..|rows| - 1]), rows[|rows| - 1].cell;
      if name in names then names else names + [name]
  }

  lemma {:induction false} NamesHoldRows(rows: seq<Row>, cell: string)
    ensures cell in CellNames(rows) <==> InCell(rows, cell) != []
  {
    if rows != [] { NamesHoldRows(rows[..|rows| - 1], cell); }
  }

  lemma CellIndexGrows(rows: seq<Row>, i: nat)
    requires i < |rows|
    ensures var name := rows[i].cell;
      && CellNames(rows[..i + 1]) == CellNames(rows[..i]) + (if name in CellNames(rows[..i]) then [] else [name])
      && forall c :: InCell(rows[..i + 1], c) == InCell(rows[..i], c) + if c == name then [rows[i]] else []
  {
    assert rows[..i + 1][..i] == rows[..i];
  }

  /** `{cell: [rows]}` of one pass, in the order cells are first seen. */
  method CellIndex(rows: seq<Row>) returns (names: seq<string>, cells: map<string, seq<Row>>)
    ensures names == CellNames(rows)
    ensures forall c :: c in cells <==> c in names
    ensures forall c :: c in cells ==> cells[c] == InCell(rows, c) != []
  {
    names, cells := [], map[];
    ghost var seen := rows[..0];
    for i := 0 to |rows|
      invariant seen == rows[..i] && names == CellNames(seen)
      invariant forall c :: c in cells <==> c in names
      invariant forall c :: if c in cells then cells[c] == InCell(seen, c) else InCell(seen, c) == []
    {
      CellIndexGrows(rows, i);
      hide InCell, CellNames;
      var r := rows[i];
      if r.cell !in cells {
        names := names + [r.cell];
        cells := cells[r.cell := []];
      }
      cells := cells[r.cell := cells[r.cell] + [r]];
      seen := rows[..i + 1];
    }
    assert rows[..|rows|] == rows;
    forall c | c in cells
      ensures InCell(rows, c) != []
    {
      NamesHoldRows(rows, c);
    }
  }

  function Ids(rows: seq<Row>): (r: seq<string>)
    ensures |r| == |rows|
  {
    if rows == [] then [] else [rows[0].sampleId] + Ids(rows[1..])
  }

  /** Both passes measured the same samples in the same cells: sorted ids agree cell by cell. */
  predicate SameSamples(first: seq<Row>, other: seq<Row>) {
    && (forall c :: c in CellNames(first) ==> c in CellNames(other))
    && (forall c :: c in CellNames(other) ==> c in CellNames(first))
    && (forall c :: c in CellNames(first) ==>
          SortBy(Self, Ids(InCell(first, c))) == SortBy(Self, Ids(InCell(other, c))))
  }

  lemma SameSamplesSameCount(first: seq<Row>, other: seq<Row>, cell: string)
    requires SameSamples(first, other) && cell in CellNames(first)
    ensures |InCell(first, cell)| == |InCell(other, cell)| > 0
  {
    var a, b := Ids(InCell(first, cell)), Ids(InCell(other, cell));
    SortBySorts(Self, a);
    SortBySorts(Self, b);
    assert |multiset(a)| == |multiset(b)|;
    NamesHoldRows(first, cell);
  }

  // ---- the report ------------------------------------------------------------

  function Span(xs: seq<real>): real
    requires xs != []
  {
    MaxOf(xs) - MinOf(xs)
  }

  /** The mean and the range as a percentage of it; a mean of zero has none. */
  function Summarise(passMeans: seq<real>, bandPct: real): Result<Summary, InputError>
    requires passMeans != []
  {
    var mean := Mean(passMeans);
    if mean == 0.0 then Err(ZeroMean)
    else
      var range := Span(passMeans) / mean * 100.0;
      Ok(Summary(passMeans, mean, range, range <= bandPct))
  }

  /** The mean rate of one cell in each of the passes. */
  function PassMeans(passes: seq<seq<Row>>, cell: string): (r: seq<real>)
    requires forall p :: 0 <= p < |passes| ==> InCell(passes[p], cell) != []
    ensures |r| == |passes|
  {
    if passes == [] then []
    else [Mean(Rates(Decode, InCell(passes[0], cell)))] + PassMeans(passes[1..], cell)
  }

  function CellOf(passes: seq<seq<Row>>, cell: string, bandPct: real): Result<Cell, InputError>
    requires |passes| == 3 && forall p :: 0 <= p < |passes| ==> InCell(passes[p], cell) != []
  {
    var first := InCell(passes[0], cell);
    var flat := first + InCell(passes[1], cell) + InCell(passes[2], cell);
    match Summarise(PassMeans(passes, cell), bandPct)
    case Err(e) => Err(e)
    case Ok(figure) => Ok(Cell(cell, first[0].dataset, first[0].maxTokens, |first|, figure, Mean(Rates(Ttft, flat))))
  }

  function CellsOf(passes: seq<seq<Row>>, names: seq<string>, bandPct: real): Result<seq<Cell>, InputError>
    requires |passes| == 3
    requires forall k, p :: 0 <= k < |names| && 0 <= p < |passes| ==> InCell(passes[p], names[k]) != []
  {
    if names == [] then Ok([])
    else
      match CellOf(passes, names[0], bandPct)
      case Err(e) => Err(e)
      case Ok(cell) =>
        match CellsOf(passes, names[1..], bandPct)
        case Err(e) => Err(e)
        case Ok(rest) => Ok([cell] + rest)
  }

  /** The cells of a dataset at the headline budget. */
  function AtBudget(cells: seq<Cell>, dataset: string, budget: int): seq<string> {
    if cells == [] then []
    else (if cells[0].dataset == dataset && cells[0].maxTokens == budget then [cells[0].name] else [])
         + AtBudget(cells[1..], dataset, budget)
  }

  function Datasets(cells: seq<Cell>): seq<string> {
    if cells == [] then []
    else
      var rest := Datasets(cells[1..]);
      if cells[0].dataset in rest then rest else [cells[0].dataset] + rest
  }

  function MacroNames(cells: seq<Cell>, datasets: seq<string>, budget: int): Result<seq<string>, InputError> {
    if datasets == [] then Ok([])
    else
      var found := AtBudget(cells, datasets[0], budget);
      if |found| != 1 then Err(NotOneCell(datasets[0]))
      else
        match MacroNames(cells, datasets[1..], budget)
        case Err(e) => Err(e)
        case Ok(rest) => Ok(found + rest)
  }

  /** One cell for each dataset, the one at the headline budget, in the order of the datasets. */
  function MacroCells(cells: seq<Cell>, budget: int): Result<seq<string>, InputError> {
    MacroNames(cells, SortBy(Self, Datasets(cells)), budget)
  }

  /** The mean over the named cells of one pass. */
  function NameMeans(rows: seq<Row>, names: seq<string>): (r: seq<real>)
    requires forall k :: 0 <= k < |names| ==> InCell(rows, names[k]) != []
    ensures |r| == |names|
  {
    if names == [] then [] else [Mean(Rates(Decode, InCell(rows, names[0])))] + NameMeans(rows, names[1..])
  }

  function MacroMeans(passes: seq<seq<Row>>, names: seq<string>): (r: seq<real>)
    requires names != []
    requires forall k, p :: 0 <= k < |names| && 0 <= p < |passes| ==> InCell(passes[p], names[k]) != []
    ensures |r| == |passes|
  {
    if passes == [] then [] else [Mean(NameMeans(passes[0], names))] + MacroMeans(passes[1..], names)
  }

  function NamesOf(cells: seq<Cell>): (r: seq<string>)
    ensures |r| == |cells| && forall i :: 0 <= i < |cells| ==> r[i] == cells[i].name
  {
    if cells == [] then [] else [cells[0].name] + NamesOf(cells[1..])
  }

  lemma {:induction false} MacroNamesAreCells(cells: seq<Cell>, datasets: seq<string>, budget: int)
    ensures var r := MacroNames(cells, datasets, budget);
      r.Ok? ==> forall n :: n in r.value ==> n in NamesOf(cells)
  {
    if datasets != [] {
      AtBudgetAreCells(cells, datasets[0], budget);
      MacroNamesAreCells(cells, datasets[1..], budget);
    }
  }

  lemma {:induction false} AtBudgetAreCells(cells: seq<Cell>, dataset: string, budget: int)
    ensures forall n :: n in AtBudget(cells, dataset, budget) ==> n in NamesOf(cells)
  {
    if cells != [] {
      AtBudgetAreCells(cells[1..], dataset, budget);
    }
  }

  lemma {:induction false} CellsKeepNames(passes: seq<seq<Row>>, names: seq<string>, bandPct: real)
    requires |passes| == 3
    requires forall k, p :: 0 <= k < |names| && 0 <= p < |passes| ==> InCell(passes[p], names[k]) != []
    ensures var r := CellsOf(passes, names, bandPct);
      r.Ok? ==>
        |r.value| == |names| && forall k :: 0 <= k < |names| ==> Ok(r.value[k]) == CellOf(passes, names[k], bandPct)
  {
    if names != [] {
      CellsKeepNames(passes, names[1..], bandPct);
    }
  }

  /** Every pass holds rows of every named cell. */
  predicate Measured(passes: seq<seq<Row>>, names: seq<string>) {
    forall k, p :: 0 <= k < |names| && 0 <= p < |passes| ==> InCell(passes[p], names[k]) != []
  }

  predicate SameSampleSet(passes: seq<seq<Row>>) {
    |passes| == 3 && SameSamples(passes[0], passes[1]) && SameSamples(passes[0], passes[2])
  }

  lemma SharedCell(a: seq<Row>, b: seq<Row>, cell: string)
    requires a == b || SameSamples(a, b)
    ensures cell in CellNames(a) <==> cell in CellNames(b)
  {
  }

  lemma SameSetIsMeasured(passes: seq<seq<Row>>)
    requires SameSampleSet(passes)
    ensures Measured(passes, CellNames(passes[0]))
  {
    hide CellNames, InCell, SameSamples;
    var names := CellNames(passes[0]);
    forall k, p | 0 <= k < |names| && 0 <= p < |passes|
      ensures InCell(passes[p], names[k]) != []
    {
      SharedCell(passes[0], passes[p], names[k]);
      NamesHoldRows(passes[0], names[k]);
      NamesHoldRows(passes[p], names[k]);
    }
  }

  /** The cells of three passes over one sample set. */
  function ReportCells(passes: seq<seq<Row>>, bandPct: real): Result<seq<Cell>, InputError>
    requires SameSampleSet(passes)
  {
    SameSetIsMeasured(passes);
    CellsOf(passes, CellNames(passes[0]), bandPct)
  }

  lemma CellIsNamed(passes: seq<seq<Row>>, name: string, bandPct: real)
    requires |passes| == 3 && forall p :: 0 <= p < |passes| ==> InCell(passes[p], name) != []
    ensures CellOf(passes, name, bandPct).Ok? ==> CellOf(passes, name, bandPct).value.name == name
  {
  }

  lemma {:induction false} NamesAreKept(passes: seq<seq<Row>>, names: seq<string>, bandPct: real)
    requires |passes| == 3 && Measured(passes, names) && CellsOf(passes, names, bandPct).Ok?
    ensures NamesOf(CellsOf(passes, names, bandPct).value) == names
  {
    hide CellOf, InCell;
    if names != [] {
      var rest := names[1..];
      assert forall k :: 0 <= k < |rest| ==> rest[k] == names[k + 1];
      NamesAreKept(passes, rest, bandPct);
      CellIsNamed(passes, names[0], bandPct);
      var cell, cells := CellOf(passes, names[0], bandPct).value, CellsOf(passes, rest, bandPct).value;
      assert ([cell] + cells)[1..] == cells;
      assert names == [names[0]] + rest;
    }
  }

  /** A cell of the report holds rows of every pass. */
  lemma CellIsMeasured(passes: seq<seq<Row>>, bandPct: real, name: string, p: nat)
    requires SameSampleSet(passes) && p < |passes| && ReportCells(passes, bandPct).Ok?
    requires name in NamesOf(ReportCells(passes, bandPct).value)
    ensures InCell(passes[p], name) != []
  {
    SameSetIsMeasured(passes);
    NamesAreKept(passes, CellNames(passes[0]), bandPct);
    hide InCell, CellNames, CellsOf, NamesOf;
    var k :| 0 <= k < |CellNames(passes[0])| && CellNames(passes[0])[k] == name;
  }

  lemma MacroIsMeasured(passes: seq<seq<Row>>, bandPct: real, budget: int)
    requires SameSampleSet(passes) && ReportCells(passes, bandPct).Ok?
    ensures var names := MacroCells(ReportCells(passes, bandPct).value, budget);
      names.Ok? ==> Measured(passes, names.value)
  {
    var cells := ReportCells(passes, bandPct).value;
    hide SameSampleSet, InCell, MacroCells, CellNames, NamesOf, ReportCells;
    var names := MacroCells(cells, budget);
    MacroNamesAreCells(cells, SortBy(Self, Datasets(cells)), budget);
    if names.Ok? {
      forall k, p | 0 <= k < |names.value| && 0 <= p < |passes|
        ensures InCell(passes[p], names.value[k]) != []
      {
        assert names.value[k] in NamesOf(cells);
        CellIsMeasured(passes, bandPct, names.value[k], p);
      }
    }
  }

  predicate AllStable(cells: seq<Cell>, names: seq<string>) {
    forall i :: 0 <= i < |cells| && cells[i].name in names ==> cells[i].figure.stable
  }

  function ReportOf(passes: seq<seq<Row>>, bandPct: real, budget: int): Result<Report, InputError> {
    if |passes| != 3 then Err(WrongPassCount)
    else if !SameSampleSet(passes) then Err(OtherSamples)
    else
      match ReportCells(passes, bandPct)
      case Err(e) => Err(e)
      case Ok(cells) =>
        MacroIsMeasured(passes, bandPct, budget);
        match MacroCells(cells, budget)
        case Err(e) => Err(e)
        case Ok(names) =>
          if names == [] then Err(NoCell)
          else
            match Summarise(MacroMeans(passes, names), bandPct)
            case Err(e) => Err(e)
            case Ok(figure) =>
              Ok(Report(cells, Macro(names, figure.(stable := AllStable(cells, names))),
                        passes[0] + passes[1] + passes[2]))
  }

  // ---- the macro needs no range check of its own -----------------------------

  /** The three means of one cell, or of the macro, as numbers. */
  predicate Within(a: real, b: real, c: real, bandPct: real) {
    Span([a, b, c]) <= bandPct / 100.0 * (a + b + c) / 3.0
  }

  lemma PercentBound(span: real, mean: real, bandPct: real)
    requires mean > 0.0
    ensures span / mean * 100.0 <= bandPct <==> span <= bandPct / 100.0 * mean
  {
    var q, b := span / mean, bandPct / 100.0;
    assert q * mean == span;
    TimesKeepsOrder(q, b, mean);
  }

  lemma TimesKeepsOrder(x: real, y: real, m: real)
    requires m > 0.0
    ensures x <= y <==> x * m <= y * m
  {
    if x > y { assert (x - y) * m > 0.0; }
  }

  lemma RangeIsSpan(means: seq<real>, bandPct: real)
    requires |means| == 3 && Sum(means) > 0.0
    ensures Mean(means) > 0.0 && Sum(means) == means[0] + means[1] + means[2]
    ensures Span(means) / Mean(means) * 100.0 <= bandPct <==> Within(means[0], means[1], means[2], bandPct)
  {
    hide Span;
    assert means == [means[0], means[1], means[2]];
    SumOfThree(means[0], means[1], means[2]);
    PercentBound(Span(means), Mean(means), bandPct);
  }

  lemma SumOfThree(a: real, b: real, c: real)
    ensures Sum([a, b, c]) == a + b + c
  {
    assert [a, b, c][1..] == [b, c] && [b, c][1..] == [c] && [c][1..] == [];
    assert Sum([c]) == c && Sum([b, c]) == b + c;
  }

  /** Spans add: the widest and the narrowest pass of a sum are no further apart than those of its parts together. */
  lemma SpanOfSum(a: real, b: real, c: real, x: real, y: real, z: real)
    ensures Span([a + x, b + y, c + z]) <= Span([a, b, c]) + Span([x, y, z])
  {
    SpanOfThree(a, b, c);
    SpanOfThree(x, y, z);
    SpanOfThree(a + x, b + y, c + z);
  }

  lemma SpanOfThree(a: real, b: real, c: real)
    ensures var hi, lo := MaxOf([a, b, c]), MinOf([a, b, c]);
      && lo <= a <= hi && lo <= b <= hi && lo <= c <= hi
      && (hi == a || hi == b || hi == c) && (lo == a || lo == b || lo == c)
  {
    assert [a, b, c][1..] == [b, c] && [b, c][1..] == [c];
    assert MaxOf([c]) == MinOf([c]) == c;
    assert MaxOf([b, c]) == (if b > c then b else c) && MinOf([b, c]) == (if b < c then b else c);
  }

  predicate CellsWithin(passes: seq<seq<Row>>, names: seq<string>, bandPct: real)
    requires |passes| == 3 && Measured(passes, names)
  {
    forall k :: 0 <= k < |names| ==>
      var m := PassMeans(passes, names[k]);
      m[0] > 0.0 && m[1] > 0.0 && m[2] > 0.0 && Within(m[0], m[1], m[2], bandPct)
  }

  lemma WithinAdds(a: real, b: real, c: real, x: real, y: real, z: real, bandPct: real)
    requires Within(a, b, c, bandPct) && Within(x, y, z, bandPct)
    ensures Within(a + x, b + y, c + z, bandPct)
  {
    SpanOfSum(a, b, c, x, y, z);
    hide Span;
    var q := bandPct / 100.0;
    assert q * (a + b + c) + q * (x + y + z) == q * ((a + x) + (b + y) + (c + z));
  }

  lemma NothingWithin(bandPct: real)
    ensures Within(0.0, 0.0, 0.0, bandPct)
  {
    SpanOfThree(0.0, 0.0, 0.0);
  }

  lemma {:induction false} SumsWithin(passes: seq<seq<Row>>, names: seq<string>, bandPct: real)
    requires |passes| == 3 && Measured(passes, names) && CellsWithin(passes, names, bandPct)
    ensures var a, b := Sum(NameMeans(passes[0], names)), Sum(NameMeans(passes[1], names));
      var c := Sum(NameMeans(passes[2], names));
      && Within(a, b, c, bandPct)
      && (names != [] ==> a > 0.0 && b > 0.0 && c > 0.0) && (names == [] ==> a == b == c == 0.0)
  {
    hide Within, InCell, Rates;
    if names == [] {
      NothingWithin(bandPct);
    } else {
      var rest := names[1..];
      assert forall k :: 0 <= k < |rest| ==> rest[k] == names[k + 1];
      SumsWithin(passes, rest, bandPct);
      var m := PassMeans(passes, names[0]);
      PassMeansAre(passes, names[0]);
      var x, y, z := Sum(NameMeans(passes[0], rest)), Sum(NameMeans(passes[1], rest)), Sum(NameMeans(passes[2], rest));
      WithinAdds(m[0], m[1], m[2], x, y, z, bandPct);
    }
  }

  lemma PassMeansAre(passes: seq<seq<Row>>, cell: string)
    requires |passes| == 3 && forall p :: 0 <= p < 3 ==> InCell(passes[p], cell) != []
    ensures forall p :: 0 <= p < 3 ==> PassMeans(passes, cell)[p] == Mean(Rates(Decode, InCell(passes[p], cell)))
  {
    var one, two := passes[1..], passes[1..][1..];
    assert one[0] == passes[1] && two[0] == passes[2];
    assert PassMeans(one, cell)[1] == PassMeans(two, cell)[0];
  }

  lemma MacroMeansAre(passes: seq<seq<Row>>, names: seq<string>)
    requires |passes| == 3 && Measured(passes, names) && names != []
    ensures forall p :: 0 <= p < 3 ==> MacroMeans(passes, names)[p] == Mean(NameMeans(passes[p], names))
  {
    var one, two := passes[1..], passes[1..][1..];
    assert one[0] == passes[1] && two[0] == passes[2];
    assert MacroMeans(one, names)[1] == MacroMeans(two, names)[0];
  }

  lemma SpanScales(a: real, b: real, c: real, n: real)
    requires n > 0.0
    ensures Span([a / n, b / n, c / n]) * n <= Span([a, b, c])
  {
    hide MaxOf, MinOf;
    var s, t := [a, b, c], [a / n, b / n, c / n];
    SpanOfThree(a, b, c);
    SpanOfThree(a / n, b / n, c / n);
    OneOfThree(MaxOf(t), a, b, c, n);
    OneOfThree(MinOf(t), a, b, c, n);
    Spread(MaxOf(t), MinOf(t), n);
  }

  lemma OneOfThree(x: real, a: real, b: real, c: real, n: real)
    requires n > 0.0 && (x == a / n || x == b / n || x == c / n)
    ensures x * n == a || x * n == b || x * n == c
  {
    Undivided(a, n);
    Undivided(b, n);
    Undivided(c, n);
  }

  lemma Undivided(a: real, n: real)
    requires n > 0.0
    ensures a / n * n == a
  {
  }

  lemma Spread(x: real, y: real, n: real)
    ensures (x - y) * n == x * n - y * n
  {
  }

  lemma WithinScales(a: real, b: real, c: real, n: real, bandPct: real)
    requires n > 0.0 && Within(a, b, c, bandPct)
    ensures Within(a / n, b / n, c / n, bandPct)
  {
    SpanScales(a, b, c, n);
    hide Span;
    var q, m := bandPct / 100.0 / 3.0, a / n + b / n + c / n;
    assert (a / n) * n == a && (b / n) * n == b && (c / n) * n == c;
    assert m * n == a + b + c;
    assert (q * m) * n == q * (m * n);
    TimesKeepsOrder(Span([a / n, b / n, c / n]), q * m, n);
  }

  predicate PositiveRates(passes: seq<seq<Row>>) {
    forall p, i :: 0 <= p < |passes| && 0 <= i < |passes[p]| ==> passes[p][i].decode > 0.0
  }

  lemma {:induction false} SumIsPositive(rows: seq<Row>)
    requires rows != [] && forall i :: 0 <= i < |rows| ==> rows[i].decode > 0.0
    ensures Sum(Rates(Decode, rows)) > 0.0
  {
    if |rows| > 1 {
      SumIsPositive(rows[1..]);
    }
  }

  lemma {:induction false} CellRowsAreRows(rows: seq<Row>, cell: string)
    requires forall i :: 0 <= i < |rows| ==> rows[i].decode > 0.0
    ensures forall i :: 0 <= i < |InCell(rows, cell)| ==> InCell(rows, cell)[i].decode > 0.0
  {
    if rows != [] { CellRowsAreRows(rows[..|rows| - 1], cell); }
  }

  lemma MeanIsPositive(rows: seq<Row>, cell: string)
    requires InCell(rows, cell) != [] && forall i :: 0 <= i < |rows| ==> rows[i].decode > 0.0
    ensures Mean(Rates(Decode, InCell(rows, cell))) > 0.0
  {
    CellRowsAreRows(rows, cell);
    SumIsPositive(InCell(rows, cell));
  }

  /** No macro cell's range exceeds `bound`. */
  predicate RangesWithin(rep: Report, bound: real) {
    forall i :: 0 <= i < |rep.cells| && rep.cells[i].name in rep.macro.cells ==> rep.cells[i].figure.rangePct <= bound
  }

  /** What a report is made of. */
  lemma ReportFacts(passes: seq<seq<Row>>, bandPct: real, budget: int)
    requires ReportOf(passes, bandPct, budget).Ok?
    ensures var rep := ReportOf(passes, bandPct, budget).value;
      && SameSampleSet(passes) && Measured(passes, CellNames(passes[0])) && Measured(passes, rep.macro.cells)
      && |rep.cells| == |CellNames(passes[0])|
      && (forall i :: 0 <= i < |rep.cells| ==> Ok(rep.cells[i]) == CellOf(passes, CellNames(passes[0])[i], bandPct))
      && (forall n :: n in rep.macro.cells ==> n in NamesOf(rep.cells))
  {
    SameSetIsMeasured(passes);
    MacroIsMeasured(passes, bandPct, budget);
    CellsKeepNames(passes, CellNames(passes[0]), bandPct);
    var cells := ReportCells(passes, bandPct).value;
    MacroNamesAreCells(cells, SortBy(Self, Datasets(cells)), budget);
  }

  lemma CellIsWithin(passes: seq<seq<Row>>, name: string, bandPct: real, bound: real)
    requires PositiveRates(passes) && |passes| == 3 && forall p :: 0 <= p < |passes| ==> InCell(passes[p], name) != []
    requires CellOf(passes, name, bandPct).Ok? && CellOf(passes, name, bandPct).value.figure.rangePct <= bound
    ensures var m := PassMeans(passes, name);
      m[0] > 0.0 && m[1] > 0.0 && m[2] > 0.0 && Within(m[0], m[1], m[2], bound)
  {
    var m := PassMeans(passes, name);
    assert Span(m) / Mean(m) * 100.0 <= bound;
    PassMeansAre(passes, name);
    forall p | 0 <= p < 3
      ensures m[p] > 0.0
    {
      MeanIsPositive(passes[p], name);
    }
    hide CellOf, Span, Mean, InCell, PassMeans;
    assert m == [m[0], m[1], m[2]];
    SumOfThree(m[0], m[1], m[2]);
    RangeIsSpan(m, bound);
  }

  lemma MacroFromSums(a: real, b: real, c: real, n: real, bound: real, means: seq<real>)
    requires n > 0.0 && a > 0.0 && b > 0.0 && c > 0.0 && Within(a, b, c, bound)
    requires |means| == 3 && means[0] == a / n && means[1] == b / n && means[2] == c / n
    ensures Mean(means) > 0.0 && Span(means) / Mean(means) * 100.0 <= bound
  {
    WithinScales(a, b, c, n, bound);
    assert means == [means[0], means[1], means[2]];
    SumOfThree(means[0], means[1], means[2]);
    RangeIsSpan(means, bound);
  }

  lemma MacroCellIsWithin(passes: seq<seq<Row>>, bandPct: real, budget: int, bound: real, name: string)
    requires PositiveRates(passes) && ReportOf(passes, bandPct, budget).Ok?
    requires RangesWithin(ReportOf(passes, bandPct, budget).value, bound)
    requires name in ReportOf(passes, bandPct, budget).value.macro.cells
    ensures |passes| == 3 && forall p :: 0 <= p < |passes| ==> InCell(passes[p], name) != []
    ensures var m := PassMeans(passes, name);
      m[0] > 0.0 && m[1] > 0.0 && m[2] > 0.0 && Within(m[0], m[1], m[2], bound)
  {
    var rep := ReportOf(passes, bandPct, budget).value;
    ReportFacts(passes, bandPct, budget);
    hide ReportOf, CellOf, InCell, PositiveRates, Within, PassMeans;
    assert name in NamesOf(rep.cells);
    var i :| 0 <= i < |rep.cells| && NamesOf(rep.cells)[i] == name;
    CellIsNamed(passes, CellNames(passes[0])[i], bandPct);
    CellIsWithin(passes, name, bandPct, bound);
  }

  lemma MacroSummary(passes: seq<seq<Row>>, bandPct: real, budget: int)
    requires ReportOf(passes, bandPct, budget).Ok?
    ensures var macro := ReportOf(passes, bandPct, budget).value.macro;
      && |passes| == 3 && macro.cells != [] && Measured(passes, macro.cells)
      && var means := MacroMeans(passes, macro.cells);
         Summarise(means, bandPct).Ok? && macro.figure.rangePct == Summarise(means, bandPct).value.rangePct
  {
    hide ReportCells, MacroCells, MacroMeans, AllStable, Summarise, InCell, SameSampleSet, CellOf, CellNames, NamesOf;
    ReportFacts(passes, bandPct, budget);
  }

  lemma SummaryRange(means: seq<real>, bandPct: real)
    requires means != [] && Summarise(means, bandPct).Ok?
    ensures Mean(means) != 0.0 && Summarise(means, bandPct).value.rangePct == Span(means) / Mean(means) * 100.0
  {
  }

  /** The macro's range never exceeds the widest range of its cells, so a check of its own could not fire. */
  lemma MacroRangeIsBounded(passes: seq<seq<Row>>, bandPct: real, budget: int, bound: real)
    requires PositiveRates(passes) && ReportOf(passes, bandPct, budget).Ok?
    requires RangesWithin(ReportOf(passes, bandPct, budget).value, bound)
    ensures ReportOf(passes, bandPct, budget).value.macro.figure.rangePct <= bound
  {
    var names := ReportOf(passes, bandPct, budget).value.macro.cells;
    MacroSummary(passes, bandPct, budget);
    hide ReportOf, Summarise, InCell, Within, PassMeans, MacroMeans, RangesWithin, PositiveRates, NameMeans, Mean,
      Span, Sum;
    forall k | 0 <= k < |names|
      ensures var m := PassMeans(passes, names[k]);
        m[0] > 0.0 && m[1] > 0.0 && m[2] > 0.0 && Within(m[0], m[1], m[2], bound)
    {
      MacroCellIsWithin(passes, bandPct, budget, bound, names[k]);
    }
    SumsWithin(passes, names, bound);
    MacroFromMeans(passes, names, bound);
    SummaryRange(MacroMeans(passes, names), bandPct);
  }

  lemma MacroFromMeans(passes: seq<seq<Row>>, names: seq<string>, bound: real)
    requires |passes| == 3 && Measured(passes, names) && names != []
    requires var a, b := Sum(NameMeans(passes[0], names)), Sum(NameMeans(passes[1], names));
      var c := Sum(NameMeans(passes[2], names));
      Within(a, b, c, bound) && a > 0.0 && b > 0.0 && c > 0.0
    ensures var means := MacroMeans(passes, names);
      Mean(means) > 0.0 && Span(means) / Mean(means) * 100.0 <= bound
  {
    hide InCell, Within, Sum, Span;
    MacroMeansAre(passes, names);
    MacroFromSums(Sum(NameMeans(passes[0], names)), Sum(NameMeans(passes[1], names)), Sum(NameMeans(passes[2], names)),
                  |names| as real, bound, MacroMeans(passes, names));
  }

  /** In particular a stable macro, stable because its cells are, lies within the band itself. */
  lemma StableMacroIsWithinBand(passes: seq<seq<Row>>, bandPct: real, budget: int)
    requires PositiveRates(passes) && ReportOf(passes, bandPct, budget).Ok?
    ensures var figure := ReportOf(passes, bandPct, budget).value.macro.figure;
      figure.stable ==> figure.rangePct <= bandPct
  {
    var rep := ReportOf(passes, bandPct, budget).value;
    ReportFacts(passes, bandPct, budget);
    if rep.macro.figure.stable {
      forall i | 0 <= i < |rep.cells| && rep.cells[i].figure.stable
        ensures rep.cells[i].figure.rangePct <= bandPct
      {
        hide ReportOf;
        assert Ok(rep.cells[i]) == CellOf(passes, CellNames(passes[0])[i], bandPct);
      }
      MacroRangeIsBounded(passes, bandPct, budget, bandPct);
    }
  }
}
