/** What the aggregate of src/components/ChoroplethMap.tsx (lines 84-98) promises:
    which pairs are present, what their values are, how nulls and empty records are
    treated, and how aggregates of adjacent ranges combine. */
module AggregationProperties {
  import opened Aggregation

  // ---------------------------------------------------------------------------
  // Presence

  /** A region is listed iff one of the datasets lists it. */
  lemma {:induction false} RegionsIff(ds: seq<Dataset>, z: string)
    ensures z in Regions(ds) <==> exists i :: 0 <= i < |ds| && z in ds[i]
  {
    if ds != [] {
      var n := |ds| - 1;
      RegionsIff(ds[..n], z);
      if z in Regions(ds[..n]) {
        var i :| 0 <= i < n && z in ds[..n][i];
        assert z in ds[i];
      }
      if exists i :: 0 <= i < |ds| && z in ds[i] {
        var i :| 0 <= i < |ds| && z in ds[i];
        if i < n {
          assert ds[..n][i] == ds[i];
        }
      }
    }
  }

  /** A substance is listed for region `z` iff one of the datasets lists the pair. */
  lemma {:induction false} SubstancesIff(ds: seq<Dataset>, z: string, s: string)
    ensures s in Substances(ds, z) <==> exists i :: 0 <= i < |ds| && z in ds[i] && s in ds[i][z]
  {
    if ds != [] {
      var n := |ds| - 1;
      SubstancesIff(ds[..n], z, s);
      if s in Substances(ds[..n], z) {
        var i :| 0 <= i < n && z in ds[..n][i] && s in ds[..n][i][z];
        assert z in ds[i] && s in ds[i][z];
      }
      if exists i :: 0 <= i < |ds| && z in ds[i] && s in ds[i][z] {
        var i :| 0 <= i < |ds| && z in ds[i] && s in ds[i][z];
        if i < n {
          assert ds[..n][i] == ds[i];
        }
      }
    }
  }

  /** Lines 86-91: a region is present in the aggregate iff some included quarter lists
      it, and a substance is present in its record iff some included quarter lists the
      pair, even with a null value. */
  lemma AggregateKeys(ds: seq<Dataset>, z: string, s: string)
    ensures z in Aggregate(ds) <==> exists i :: 0 <= i < |ds| && z in ds[i]
    ensures z in Aggregate(ds) ==>
              (s in Aggregate(ds)[z] <==> exists i :: 0 <= i < |ds| && z in ds[i] && s in ds[i][z])
  {
    RegionsIff(ds, z);
    SubstancesIff(ds, z, s);
  }

  /** Line 87: a region that only ever comes with an empty record still appears, and
      its record is empty. */
  lemma EmptyRecordAppears(ds: seq<Dataset>, z: string)
    requires exists i :: 0 <= i < |ds| && z in ds[i]
    requires forall i :: 0 <= i < |ds| && z in ds[i] ==> ds[i][z] == map[]
    ensures z in Aggregate(ds) && Aggregate(ds)[z] == map[]
  {
    RegionsIff(ds, z);
    forall s
      ensures s !in Substances(ds, z)
    {
      SubstancesIff(ds, z, s);
    }
  }

  // ---------------------------------------------------------------------------
  // Values

  /** A sum over cells that are all null is 0. */
  lemma {:induction false} SumOfNullsIsZero(vs: seq<Value>)
    requires forall k :: 0 <= k < |vs| ==> vs[k] == Null
    ensures SumNonNull(vs) == 0.0
  {
    if vs != [] {
      SumOfNullsIsZero(vs[..|vs| - 1]);
    }
  }

  /** Every observation of a pair is one of the pair's cells. */
  lemma {:induction false} ObservedAreCells(ds: seq<Dataset>, z: string, s: string, k: nat)
    requires k < |Observed(ds, z, s)|
    ensures exists i :: 0 <= i < |ds| && z in ds[i] && s in ds[i][z] && ds[i][z][s] == Observed(ds, z, s)[k]
  {
    var n := |ds| - 1;
    var init := Observed(ds[..n], z, s);
    if k < |init| {
      ObservedAreCells(ds[..n], z, s, k);
      var i :| 0 <= i < n && z in ds[..n][i] && s in ds[..n][i][z] && ds[..n][i][z][s] == init[k];
      assert ds[..n][i] == ds[i];
    } else {
      assert ds[n][z][s] == Observed(ds, z, s)[k];
    }
  }

  /** Lines 89-95: a pair that is listed but only ever with null yields 0, not null. */
  lemma AllNullPairIsZero(ds: seq<Dataset>, z: string, s: string)
    requires exists i :: 0 <= i < |ds| && z in ds[i] && s in ds[i][z]
    requires forall i :: 0 <= i < |ds| && z in ds[i] && s in ds[i][z] ==> ds[i][z][s] == Null
    ensures z in Aggregate(ds) && s in Aggregate(ds)[z] && Aggregate(ds)[z][s] == 0.0
  {
    AggregateKeys(ds, z, s);
    var vs := Observed(ds, z, s);
    forall k | 0 <= k < |vs|
      ensures vs[k] == Null
    {
      ObservedAreCells(ds, z, s, k);
    }
    SumOfNullsIsZero(vs);
  }

  /** What one quarter adds to a pair: its value, or nothing if the cell is null or
      the quarter does not list the pair. */
  function CellContribution(d: Dataset, z: string, s: string): real
  {
    if z in d && s in d[z] then Contribution(d[z][s]) else 0.0
  }

  /** The sum, quarter by quarter, of what each quarter adds to the pair. */
  function SumOverQuarters(ds: seq<Dataset>, z: string, s: string): real
  {
    if ds == [] then 0.0 else CellContribution(ds[0], z, s) + SumOverQuarters(ds[1..], z, s)
  }

  /** The sum of non-null values distributes over concatenation. */
  lemma {:induction false} SumNonNullConcat(a: seq<Value>, b: seq<Value>)
    ensures SumNonNull(a + b) == SumNonNull(a) + SumNonNull(b)
  {
    if b != [] {
      var n := |b| - 1;
      assert (a + b)[..|a + b| - 1] == a + b[..n];
      SumNonNullConcat(a, b[..n]);
    } else {
      assert a + b == a;
    }
  }

  /** The splitting point of a concatenation that ends in a non-empty `ds2`. */
  lemma ConcatInit(ds1: seq<Dataset>, ds2: seq<Dataset>)
    requires ds2 != []
    ensures (ds1 + ds2)[..|ds1 + ds2| - 1] == ds1 + ds2[..|ds2| - 1]
    ensures (ds1 + ds2)[|ds1 + ds2| - 1] == ds2[|ds2| - 1]
  {
  }

  /** The listed regions of a concatenation. */
  lemma {:induction false} RegionsConcat(ds1: seq<Dataset>, ds2: seq<Dataset>)
    ensures Regions(ds1 + ds2) == Regions(ds1) + Regions(ds2)
  {
    if ds2 == [] {
      assert ds1 + ds2 == ds1;
    } else {
      ConcatInit(ds1, ds2);
      RegionsConcat(ds1, ds2[..|ds2| - 1]);
    }
  }

  /** The listed substances of a concatenation. */
  lemma {:induction false} SubstancesConcat(ds1: seq<Dataset>, ds2: seq<Dataset>, z: string)
    ensures Substances(ds1 + ds2, z) == Substances(ds1, z) + Substances(ds2, z)
  {
    if ds2 == [] {
      assert ds1 + ds2 == ds1;
    } else {
      ConcatInit(ds1, ds2);
      SubstancesConcat(ds1, ds2[..|ds2| - 1], z);
    }
  }

  /** The observations of a concatenation. */
  lemma {:induction false} ObservedConcat(ds1: seq<Dataset>, ds2: seq<Dataset>, z: string, s: string)
    ensures Observed(ds1 + ds2, z, s) == Observed(ds1, z, s) + Observed(ds2, z, s)
  {
    if ds2 == [] {
      assert ds1 + ds2 == ds1;
    } else {
      ConcatInit(ds1, ds2);
      ObservedConcat(ds1, ds2[..|ds2| - 1], z, s);
    }
  }

  /** The total of a pair over a concatenation is the sum of its totals. */
  lemma TotalConcat(ds1: seq<Dataset>, ds2: seq<Dataset>, z: string, s: string)
    ensures Total(ds1 + ds2, z, s) == Total(ds1, z, s) + Total(ds2, z, s)
  {
    ObservedConcat(ds1, ds2, z, s);
    SumNonNullConcat(Observed(ds1, z, s), Observed(ds2, z, s));
  }

  /** The total of a pair over a single quarter is that quarter's contribution. */
  lemma TotalOfOne(d: Dataset, z: string, s: string)
    ensures Total([d], z, s) == CellContribution(d, z, s)
  {
    var none: seq<Dataset> := [];
    assert [d][..0] == none;
    assert Observed(none, z, s) == [];
    var vs := Observed([d], z, s);
    if z in d && s in d[z] {
      assert vs == [d[z][s]];
      assert vs[..0] == [];
      assert SumNonNull(vs) == SumNonNull([]) + Contribution(d[z][s]);
    } else {
      assert vs == [];
    }
  }

  /** Lines 84-98: the aggregated value of a pair is the sum, over the included
      quarters, of the pair's non-null values; a null or missing cell adds nothing. */
  lemma {:induction false} TotalIsSumOverQuarters(ds: seq<Dataset>, z: string, s: string)
    ensures Total(ds, z, s) == SumOverQuarters(ds, z, s)
  {
    if ds != [] {
      assert ds == [ds[0]] + ds[1..];
      TotalConcat([ds[0]], ds[1..], z, s);
      TotalOfOne(ds[0], z, s);
      TotalIsSumOverQuarters(ds[1..], z, s);
    }
  }

  /** The aggregated value of every present pair, stated over the quarters. */
  lemma AggregateValue(ds: seq<Dataset>, z: string, s: string)
    requires z in Aggregate(ds) && s in Aggregate(ds)[z]
    ensures Aggregate(ds)[z][s] == SumOverQuarters(ds, z, s)
  {
    TotalIsSumOverQuarters(ds, z, s);
  }

  // ---------------------------------------------------------------------------
  // Adjacent ranges

  /** The record of a region in an aggregate, or an empty one when it is absent. */
  function RecordIn(a: Agg, z: string): Record
  {
    if z in a then a[z] else map[]
  }

  /** The value of a substance in a record, 0 when it is absent. */
  function SlotIn(r: Record, s: string): real
  {
    if s in r then r[s] else 0.0
  }

  /** Two records summed substance by substance. */
  function MergeRecords(r1: Record, r2: Record): (r: Record)
  {
    map s | s in r1.Keys + r2.Keys :: SlotIn(r1, s) + SlotIn(r2, s)
  }

  /** Two aggregates summed region by region and substance by substance. */
  function Merge(a1: Agg, a2: Agg): Agg
  {
    map z | z in a1.Keys + a2.Keys :: MergeRecords(RecordIn(a1, z), RecordIn(a2, z))
  }

  /** A pair's total is 0 unless it is listed. */
  lemma TotalIsSlot(ds: seq<Dataset>, z: string, s: string)
    ensures Total(ds, z, s) == SlotIn(RecordOf(ds, z), s)
  {
    if s !in Substances(ds, z) {
      ObservedNonEmptyIff(ds, z, s);
    }
  }

  /** The record of a region in the aggregate is its intended record, also when absent. */
  lemma RecordInAggregate(ds: seq<Dataset>, z: string)
    ensures RecordIn(Aggregate(ds), z) == RecordOf(ds, z)
  {
    if z !in Regions(ds) {
      SubstancesWithinRegions(ds, z);
      assert RecordOf(ds, z) == map[];
    }
  }

  /** The record of a region over a concatenation is the merge of its records. */
  lemma RecordConcat(ds1: seq<Dataset>, ds2: seq<Dataset>, z: string)
    ensures RecordOf(ds1 + ds2, z) == MergeRecords(RecordOf(ds1, z), RecordOf(ds2, z))
  {
    var r := RecordOf(ds1 + ds2, z);
    var m := MergeRecords(RecordOf(ds1, z), RecordOf(ds2, z));
    SubstancesConcat(ds1, ds2, z);
    assert r.Keys == m.Keys;
    forall s | s in r
      ensures r[s] == SlotIn(RecordOf(ds1, z), s) + SlotIn(RecordOf(ds2, z), s)
    {
      TotalConcat(ds1, ds2, z, s);
      TotalIsSlot(ds1, z, s);
      TotalIsSlot(ds2, z, s);
    }
    MergeRecordsExt(RecordOf(ds1, z), RecordOf(ds2, z), r);
  }

  /** A record with the keys of both and the sum of their slots is their merge. */
  lemma MergeRecordsExt(r1: Record, r2: Record, r: Record)
    requires r.Keys == r1.Keys + r2.Keys
    requires forall s :: s in r ==> r[s] == SlotIn(r1, s) + SlotIn(r2, s)
    ensures r == MergeRecords(r1, r2)
  {
  }

  /** Aggregating two adjacent ranges together is the same as aggregating each and
      summing the results: the aggregate of [a, c] is the merge of those of [a, b]
      and [b + 1, c]. */
  lemma AggregateConcat(ds1: seq<Dataset>, ds2: seq<Dataset>)
    ensures Aggregate(ds1 + ds2) == Merge(Aggregate(ds1), Aggregate(ds2))
  {
    var a := Aggregate(ds1 + ds2);
    var m := Merge(Aggregate(ds1), Aggregate(ds2));
    RegionsConcat(ds1, ds2);
    assert a.Keys == m.Keys;
    forall z | z in a
      ensures a[z] == m[z]
    {
      RecordConcat(ds1, ds2, z);
      RecordInAggregate(ds1, z);
      RecordInAggregate(ds2, z);
    }
  }

  // ---------------------------------------------------------------------------
  // A worked example

  /** Three quarters of one region: 10, then null, then 5, sum to 15. */
  lemma ThreeQuarterExample()
    ensures var q1: Dataset := map["100" := map["OXYCODONE" := Num(10.0)]];
            var q2: Dataset := map["100" := map["OXYCODONE" := Null]];
            var q3: Dataset := map["100" := map["OXYCODONE" := Num(5.0)]];
            Aggregate([q1, q2, q3]) == map["100" := map["OXYCODONE" := 15.0]]
  {
    var q1: Dataset := map["100" := map["OXYCODONE" := Num(10.0)]];
    var q2: Dataset := map["100" := map["OXYCODONE" := Null]];
    var q3: Dataset := map["100" := map["OXYCODONE" := Num(5.0)]];
    var none: seq<Dataset> := [];
    var ds := [q1, q2, q3];
    assert ds[..2] == [q1, q2] && [q1, q2][..1] == [q1] && [q1][..0] == none;
    assert Regions([q1]) == {"100"};
    assert Regions([q1, q2]) == {"100"};
    assert Regions(ds) == {"100"};
    assert Substances([q1], "100") == {"OXYCODONE"};
    assert Substances([q1, q2], "100") == {"OXYCODONE"};
    assert Substances(ds, "100") == {"OXYCODONE"};
    TotalIsSumOverQuarters(ds, "100", "OXYCODONE");
    assert ds[1..] == [q2, q3] && [q2, q3][1..] == [q3] && [q3][1..] == none;
    assert SumOverQuarters([q3], "100", "OXYCODONE") == 5.0;
    assert SumOverQuarters([q2, q3], "100", "OXYCODONE") == 5.0;
    assert SumOverQuarters(ds, "100", "OXYCODONE") == 15.0;
    SingletonAggregate(Aggregate(ds), "100", "OXYCODONE", 15.0);
  }

  /** An aggregate with one region holding one substance. */
  lemma SingletonAggregate(a: Agg, z: string, s: string, x: real)
    requires a.Keys == {z} && a[z].Keys == {s} && a[z][s] == x
    ensures a == map[z := map[s := x]]
  {
    assert a[z] == map[s := x];
  }
}
