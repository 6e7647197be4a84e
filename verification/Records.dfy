/** One record for each measured sample (scripts/ingest/published.py), and the database rows it becomes. */
module Records {
  import opened Chars
  import opened Aggregate

  const PASSES := 3

  /** The metrics the re-query reads back. */
  datatype Metric =
    | DecodeTpsWarm | PrefillTps | PrefillEngineTps | TtftWarmMs | MetalPeakAllocMb
    | GreedySamples | GreedyIdentical | GreedyNearTie | GreedyRefused | GreedyUnjudgeable

  datatype DbRow = DbRow(name: string, metric: Metric, maxTokens: Option<int>, value: real)

  /** What a sample is recorded as. */
  datatype Record = Record(dataset: string, sampleId: string, maxTokens: int, decode: real, ttft: real)

  datatype Refused = WrongCount | NoBody | ManyBodies | OtherBody | ManyLengths

  /** A checked-in body: the digest its manifest holds and the digest of the messages themselves. */
  datatype Body = Body(manifest: string, messages: string)

  datatype Key = Key(cell: string, sampleId: string)

  function KeyOf(r: Row): Key {
    Key(r.cell, r.sampleId)
  }

  /** The rows of one sample of one cell, over all passes. */
  function Pick(rows: seq<Row>, k: Key): seq<Row> {
    if rows == [] then []
    else
      var r := rows[|rows| - 1];
      Pick(rows[..|rows| - 1], k) + if KeyOf(r) == k then [r] else []
  }

  /** The keys in the order they are first seen. */
  function KeysOf(rows: seq<Row>): seq<Key> {
    if rows == [] then []
    else
      var keys, k := KeysOf(rows[..|rows| - 1]), KeyOf(rows[|rows| - 1]);
      if k in keys then keys else keys + [k]
  }

  lemma GroupsGrow(rows: seq<Row>, i: nat)
    requires i < |rows|
    ensures var k := KeyOf(rows[i]);
      && KeysOf(rows[..i + 1]) == KeysOf(rows[..i]) + (if k in KeysOf(rows[..i]) then [] else [k])
      && forall j :: Pick(rows[..i + 1], j) == Pick(rows[..i], j) + if j == k then [rows[i]] else []
  {
    assert rows[..i + 1][..i] == rows[..i];
  }

  predicate OneDigest(rows: seq<Row>) {
    forall i, j :: 0 <= i < j < |rows| ==> rows[i].digest == rows[j].digest
  }

  predicate OneLength(rows: seq<Row>) {
    forall i, j :: 0 <= i < j < |rows| ==> rows[i].promptTokens == rows[j].promptTokens
  }

  /** The record of one group of rows, or why it is refused. */
  function RecordOf(rows: seq<Row>, k: Key, bodies: map<string, Body>): Result<Record, Refused> {
    if |rows| != PASSES then Err(WrongCount)
    else if k.sampleId !in bodies then Err(NoBody)
    else if !OneDigest(rows) then Err(ManyBodies)
    else if !(rows[0].digest == bodies[k.sampleId].manifest == bodies[k.sampleId].messages) then Err(OtherBody)
    else if !OneLength(rows) then Err(ManyLengths)
    else Ok(Record(rows[0].dataset, k.sampleId, rows[0].maxTokens, Mean(Rates(Decode, rows)), Mean(Rates(Ttft, rows))))
  }

  function RecordsFrom(rows: seq<Row>, keys: seq<Key>, bodies: map<string, Body>): Result<seq<Record>, Refused> {
    if keys == [] then Ok([])
    else
      match RecordsFrom(rows, keys[..|keys| - 1], bodies)
      case Err(e) => Err(e)
      case Ok(before) =>
        var k := keys[|keys| - 1];
        match RecordOf(Pick(rows, k), k, bodies)
        case Err(e) => Err(e)
        case Ok(record) => Ok(before + [record])
  }

  function RecordsOf(rows: seq<Row>, bodies: map<string, Body>): Result<seq<Record>, Refused> {
    RecordsFrom(rows, KeysOf(rows), bodies)
  }

  method GroupRows(rows: seq<Row>) returns (keys: seq<Key>, groups: map<Key, seq<Row>>)
    ensures keys == KeysOf(rows)
    ensures forall k :: k in groups <==> k in keys
    ensures forall k :: k in groups ==> groups[k] == Pick(rows, k)
  {
    keys, groups := [], map[];
    ghost var seen := rows[..0];
    for i := 0 to |rows|
      invariant seen == rows[..i] && keys == KeysOf(seen)
      invariant forall k :: k in groups <==> k in keys
      invariant forall k :: if k in groups then groups[k] == Pick(seen, k) else Pick(seen, k) == []
    {
      GroupsGrow(rows, i);
      hide Pick, KeysOf, KeyOf;
      var k := KeyOf(rows[i]);
      if k !in groups {
        keys := keys + [k];
        groups := groups[k := []];
      }
      groups := groups[k := groups[k] + [rows[i]]];
      seen := rows[..i + 1];
    }
    assert rows[..|rows|] == rows;
  }

  lemma {:induction false} RefusalStays(rows: seq<Row>, keys: seq<Key>, bodies: map<string, Body>, n: nat)
    requires n <= |keys| && RecordsFrom(rows, keys[..n], bodies).Err?
    ensures RecordsFrom(rows, keys, bodies) == Err(RecordsFrom(rows, keys[..n], bodies).error)
    decreases |keys| - n
  {
    if n < |keys| {
      assert keys[..n + 1][..n] == keys[..n];
      RefusalStays(rows, keys, bodies, n + 1);
    } else {
      assert keys[..n] == keys;
    }
  }

  method SampleRecords(rows: seq<Row>, bodies: map<string, Body>) returns (r: Result<seq<Record>, Refused>)
    ensures r == RecordsOf(rows, bodies)
  {
    hide RecordOf;
    var records := [];
    var keys, groups := GroupRows(rows);
    for n := 0 to |keys|
      invariant RecordsFrom(rows, keys[..n], bodies) == Ok(records)
    {
      assert keys[..n + 1][..n] == keys[..n];
      match RecordOf(groups[keys[n]], keys[n], bodies) {
        case Err(e) =>
          RefusalStays(rows, keys, bodies, n + 1);
          return Err(e);
        case Ok(record) =>
          records := records + [record];
      }
    }
    assert keys[..|keys|] == keys;
    return Ok(records);
  }

  // ---- what grouping keeps ---------------------------------------------------

  function SumBy(f: Row -> real, rows: seq<Row>): real {
    if rows == [] then 0.0 else SumBy(f, rows[..|rows| - 1]) + f(rows[|rows| - 1])
  }

  /** The sum of a cell's groups. */
  function GroupSum(f: Row -> real, rows: seq<Row>, keys: seq<Key>, cell: string): real {
    if keys == [] then 0.0
    else
      var k := keys[|keys| - 1];
      GroupSum(f, rows, keys[..|keys| - 1], cell) + if k.cell == cell then SumBy(f, Pick(rows, k)) else 0.0
  }

  predicate Distinct(keys: seq<Key>) {
    forall i, j :: 0 <= i < j < |keys| ==> keys[i] != keys[j]
  }

  lemma {:induction false} SumBySnoc(f: Row -> real, rows: seq<Row>, r: Row)
    ensures SumBy(f, rows + [r]) == SumBy(f, rows) + f(r)
  {
    assert (rows + [r])[..|rows|] == rows;
  }

  /** One more row changes the sum of its own group only. */
  lemma {:induction false} GroupSumSnoc(f: Row -> real, rows: seq<Row>, r: Row, keys: seq<Key>, cell: string)
    requires Distinct(keys)
    ensures GroupSum(f, rows + [r], keys, cell)
         == GroupSum(f, rows, keys, cell) + if KeyOf(r) in keys && r.cell == cell then f(r) else 0.0
    decreases |keys|
  {
    if keys != [] {
      var before, k := keys[..|keys| - 1], keys[|keys| - 1];
      GroupSumSnoc(f, rows, r, before, cell);
      assert (rows + [r])[..|rows|] == rows;
      SumBySnoc(f, Pick(rows, k), r);
      assert Pick(rows, k) + [] == Pick(rows, k);
      assert Pick(rows + [r], k) == Pick(rows, k) + if KeyOf(r) == k then [r] else [];
      assert keys == before + [k];
      assert k !in before;
    }
  }

  /** Summing group by group is summing over the cell: no row is lost, none counted twice. */
  lemma {:induction false} GroupSumIsCellSum(f: Row -> real, rows: seq<Row>, keys: seq<Key>, cell: string)
    requires Distinct(keys) && forall i :: 0 <= i < |rows| ==> KeyOf(rows[i]) in keys
    ensures GroupSum(f, rows, keys, cell) == SumBy(f, InCell(rows, cell))
    decreases |rows|
  {
    if rows == [] {
      NoRowsNoSum(f, keys, cell);
    } else {
      var before, r := rows[..|rows| - 1], rows[|rows| - 1];
      GroupSumIsCellSum(f, before, keys, cell);
      assert rows == before + [r];
      GroupSumSnoc(f, before, r, keys, cell);
      SumBySnoc(f, InCell(before, cell), r);
      assert InCell(before, cell) + [] == InCell(before, cell);
    }
  }

  lemma {:induction false} NoRowsNoSum(f: Row -> real, keys: seq<Key>, cell: string)
    ensures GroupSum(f, [], keys, cell) == 0.0
    decreases |keys|
  {
    if keys != [] { NoRowsNoSum(f, keys[..|keys| - 1], cell); }
  }

  lemma {:induction false} KeysAreDistinct(rows: seq<Row>)
    ensures Distinct(KeysOf(rows))
  {
    hide KeyOf;
    if rows != [] {
      KeysAreDistinct(rows[..|rows| - 1]);
    }
  }

  lemma {:induction false} KeysCoverRows(rows: seq<Row>)
    ensures forall i :: 0 <= i < |rows| ==> KeyOf(rows[i]) in KeysOf(rows)
  {
    hide KeyOf;
    if rows != [] {
      KeysCoverRows(rows[..|rows| - 1]);
    }
  }

  lemma {:induction false} SumByIsSum(f: Row -> real, rows: seq<Row>)
    ensures SumBy(f, rows) == Sum(Rates(f, rows))
  {
    if rows != [] {
      var before, r := rows[..|rows| - 1], rows[|rows| - 1];
      SumByIsSum(f, before);
      assert rows == before + [r];
      RatesOfConcat(f, before, [r]);
      assert Rates(f, [r]) == [f(r)];
      SumOfConcat(Rates(f, before), [f(r)]);
      assert Sum([f(r)]) == f(r) + Sum([]);
    }
  }

  lemma {:induction false} RatesOfConcat(f: Row -> real, a: seq<Row>, b: seq<Row>)
    ensures Rates(f, a + b) == Rates(f, a) + Rates(f, b)
  {
    if a == [] {
      assert a + b == b;
    } else {
      assert (a + b)[1..] == a[1..] + b;
      RatesOfConcat(f, a[1..], b);
    }
  }

  lemma {:induction false} InCellOfConcat(a: seq<Row>, b: seq<Row>, cell: string)
    ensures InCell(a + b, cell) == InCell(a, cell) + InCell(b, cell)
    decreases |b|
  {
    if b == [] {
      assert a + b == a;
    } else {
      assert (a + b)[..|a + b| - 1] == a + b[..|b| - 1];
      InCellOfConcat(a, b[..|b| - 1], cell);
    }
  }
}
