/** Summing quarterly datasets region by region and substance by substance
    (src/components/ChoroplethMap.tsx, lines 84-98).

    The specification is `Aggregate`: a region is present when some included quarter
    lists it, a substance is present for a region when some included quarter lists the
    pair (even with a null), and its value is the sum of the non-null values observed
    for the pair. `AggregateQuarterlyData` is the nested loop of the component, proved
    to compute exactly `Aggregate`. Values are exact reals, not IEEE doubles. */
module Aggregation {
  import opened Basics

  /** One cell of a quarterly JSON file: a number, or null where the quarter has none. */
  datatype Value = Null | Num(amount: real)

  /** substance -> value, for one region in one quarter */
  type SubstanceData = map<string, Value>
  /** region (ZIP3 code) -> substance -> value: one quarter's file */
  type Dataset = map<string, SubstanceData>
  /** substance -> running sum, for one region */
  type Record = map<string, real>
  /** region -> substance -> sum: the aggregated data */
  type Agg = map<string, Record>

  /** What a cell adds to its pair's sum: a null adds nothing. */
  function Contribution(v: Value): real
  {
    if v.Num? then v.amount else 0.0
  }

  // ---------------------------------------------------------------------------
  // Specification

  /** The regions listed by at least one of the datasets. */
  function Regions(ds: seq<Dataset>): set<string>
  {
    if ds == [] then {} else Regions(ds[..|ds| - 1]) + ds[|ds| - 1].Keys
  }

  /** The substances listed for region `z` by at least one of the datasets. */
  function Substances(ds: seq<Dataset>, z: string): set<string>
  {
    if ds == [] then {}
    else
      var d := ds[|ds| - 1];
      Substances(ds[..|ds| - 1], z) + (if z in d then d[z].Keys else {})
  }

  /** The cells recorded for the pair (z, s), one per dataset that lists the pair, in
      dataset order; nulls included. */
  function Observed(ds: seq<Dataset>, z: string, s: string): seq<Value>
  {
    if ds == [] then []
    else
      var d := ds[|ds| - 1];
      Observed(ds[..|ds| - 1], z, s) + (if z in d && s in d[z] then [d[z][s]] else [])
  }

  /** The sum of the non-null values among `vs`. */
  function SumNonNull(vs: seq<Value>): real
  {
    if vs == [] then 0.0 else SumNonNull(vs[..|vs| - 1]) + Contribution(vs[|vs| - 1])
  }

  /** The intended sum for the pair (z, s). */
  function Total(ds: seq<Dataset>, z: string, s: string): real
  {
    SumNonNull(Observed(ds, z, s))
  }

  /** The intended record of region `z`: every substance listed for it, with its total. */
  function RecordOf(ds: seq<Dataset>, z: string): Record
  {
    map s | s in Substances(ds, z) :: Total(ds, z, s)
  }

  /** The intended aggregate of a sequence of quarterly datasets. */
  function Aggregate(ds: seq<Dataset>): Agg
  {
    map z | z in Regions(ds) :: RecordOf(ds, z)
  }

  /** The accumulator seeding of lines 89-91 as written: the slot is (re)set to 0
      whenever it is falsy, that is, absent or holding 0 (a NaN cannot occur, since
      the data files carry null where a figure is missing). */
  function Seed(rec: Record, s: string): (r: Record)
    ensures r.Keys == rec.Keys + {s}
    ensures r[s] == (if s in rec then rec[s] else 0.0)
    ensures forall t :: t in rec && t != s ==> r[t] == rec[t]
  {
    if s !in rec || rec[s] == 0.0 then rec[s := 0.0] else rec
  }

  /** The test of line 89 only ever resets a slot that already holds 0, so it never
      discards a partial sum: it is the same as seeding an absent slot. This restates
      `Seed`'s contract as one closed form of the whole record, for the loop's use. */
  lemma SeedIsSeedWhenAbsent(rec: Record, s: string)
    ensures Seed(rec, s) == if s in rec then rec else rec[s := 0.0]
  {
    if s in rec && rec[s] == 0.0 {
      assert rec[s := 0.0] == rec;
    }
  }

  // ---------------------------------------------------------------------------
  // Unfolding facts

  /** Unfolding the specification on a sequence that ends in `e`. */
  lemma UnfoldLast(p: seq<Dataset>, e: Dataset, z: string, s: string)
    ensures Regions(p + [e]) == Regions(p) + e.Keys
    ensures Substances(p + [e], z) == Substances(p, z) + (if z in e then e[z].Keys else {})
    ensures Observed(p + [e], z, s)
            == Observed(p, z, s) + (if z in e && s in e[z] then [e[z][s]] else [])
  {
    assert (p + [e])[..|p|] == p;
  }

  /** A pair is observed at least once exactly when one of the datasets lists it. */
  lemma {:induction false} ObservedNonEmptyIff(ds: seq<Dataset>, z: string, s: string)
    ensures |Observed(ds, z, s)| > 0 <==> s in Substances(ds, z)
  {
    if ds != [] {
      ObservedNonEmptyIff(ds[..|ds| - 1], z, s);
    }
  }

  /** A region with a listed substance is a listed region. */
  lemma {:induction false} SubstancesWithinRegions(ds: seq<Dataset>, z: string)
    requires z !in Regions(ds)
    ensures Substances(ds, z) == {}
  {
    if ds != [] {
      SubstancesWithinRegions(ds[..|ds| - 1], z);
    }
  }

}
