/** The nested loop of the component (src/components/ChoroplethMap.tsx, lines 84-98),
    proved to compute `Aggregation.Aggregate`, with the step lemmas its invariants need. */
module AggregationLoop {
  import opened Basics
  import opened Aggregation

  /** Lines 84-98: three nested loops that build the aggregate in place, seeding a
      region when first seen and a substance when its slot is falsy, and adding every
      non-null value. The keys of each quarterly map are visited in an arbitrary order. */
  method AggregateQuarterlyData(datasets: seq<Dataset>) returns (agg: Agg)
    ensures agg == Aggregate(datasets)
  {
    agg := map[];
    for i := 0 to |datasets|
      invariant agg == Aggregate(datasets[..i])
    {
      var quarterlyData := datasets[i];
      ghost var prefix := datasets[..i];
      BeginQuarter(prefix, quarterlyData);
      var pending := quarterlyData.Keys;
      ghost var seen: set<string> := {};
      while pending != {}
        invariant pending <= quarterlyData.Keys && seen == quarterlyData.Keys - pending
        invariant agg == Aggregate(prefix + [Restrict(quarterlyData, seen)])
        decreases pending
      {
        var zip3 :| zip3 in pending;
        ghost var done := Restrict(quarterlyData, seen);
        BeginRegion(prefix, quarterlyData, seen, zip3);
        if zip3 !in agg {
          agg := agg[zip3 := map[]];
        }
        agg := AccumulateRegion(agg, prefix, done, zip3, quarterlyData[zip3]);
        EndRegion(prefix, quarterlyData, seen, zip3);
        pending := pending - {zip3};
        seen := seen + {zip3};
      }
      assert seen == quarterlyData.Keys;
      EndQuarter(datasets, i);
    }
    assert datasets[..|datasets|] == datasets;
  }

  /** Lines 88-96: the substances of region `zip3` of the current quarter, added into
      its record one at a time. `prefix` holds the earlier quarters and `done` the regions
      of the current quarter visited so far. */
  method AccumulateRegion(agg0: Agg, ghost prefix: seq<Dataset>, ghost done: Dataset,
                          zip3: string, region: SubstanceData) returns (agg: Agg)
    requires zip3 in agg0
    requires agg0 == Aggregate(prefix + [done[zip3 := Restrict(region, {})]])
    ensures agg == Aggregate(prefix + [done[zip3 := Restrict(region, region.Keys)]])
  {
    agg := agg0;
    var rest := region.Keys;
    ghost var visited: set<string> := {};
    while rest != {}
      invariant rest <= region.Keys && visited == region.Keys - rest
      invariant zip3 in agg
      invariant agg == Aggregate(prefix + [done[zip3 := Restrict(region, visited)]])
      decreases rest
    {
      var substance :| substance in rest;
      AddSubstance(prefix, done, zip3, region, visited, substance);
      var value := region[substance];
      var record := AddCellValue(agg[zip3], substance, value);
      agg := agg[zip3 := record];
      rest := rest - {substance};
      visited := visited + {substance};
    }
    assert visited == region.Keys;
  }

  /** Lines 89-95, the body of the innermost loop, on the record of the current region:
      seed the slot as written, then add the value unless it is null. The result is the
      record with the value added into the slot, an absent slot counting as 0. */
  method AddCellValue(record: Record, substance: string, value: Value) returns (r: Record)
    ensures r == AddToRecord(record, substance, value)
  {
    r := Seed(record, substance);
    if value != Null {
      r := r[substance := r[substance] + value.amount];
    }
    SeedIsSeedWhenAbsent(record, substance);
  }

  /** Entering a quarter: nothing of it is visited yet. */
  lemma BeginQuarter(p: seq<Dataset>, d: Dataset)
    ensures Aggregate(p + [Restrict(d, {})]) == Aggregate(p)
  {
    assert Restrict(d, {}) == map[];
    AggregateEmptyLast(p);
  }

  /** Leaving quarter `i`: all of it is visited. */
  lemma EndQuarter(ds: seq<Dataset>, i: nat)
    requires i < |ds|
    ensures Aggregate(ds[..i] + [Restrict(ds[i], ds[i].Keys)]) == Aggregate(ds[..i + 1])
  {
    assert Restrict(ds[i], ds[i].Keys) == ds[i];
    assert ds[..i + 1] == ds[..i] + [ds[i]];
  }

  /** Entering region `z` of quarter `d` (lines 86-87). */
  lemma BeginRegion(p: seq<Dataset>, d: Dataset, seen: set<string>, z: string)
    requires z in d && z !in seen
    ensures var a := Aggregate(p + [Restrict(d, seen)]);
            Aggregate(p + [Restrict(d, seen)[z := Restrict(d[z], {})]])
            == if z in a then a else a[z := map[]]
  {
    assert Restrict(d[z], {}) == map[];
    AddRegion(p, Restrict(d, seen), z);
  }

  /** Leaving region `z` of quarter `d`: all of its substances are visited. */
  lemma EndRegion(p: seq<Dataset>, d: Dataset, seen: set<string>, z: string)
    requires z in d
    ensures Aggregate(p + [Restrict(d, seen)[z := Restrict(d[z], d[z].Keys)]])
            == Aggregate(p + [Restrict(d, seen + {z})])
  {
    assert Restrict(d[z], d[z].Keys) == d[z];
    assert Restrict(d, seen)[z := d[z]] == Restrict(d, seen + {z});
  }

  /** Visiting substance `s` of region `z` (lines 88-95). */
  lemma AddSubstance(p: seq<Dataset>, e: Dataset, z: string, region: SubstanceData,
                     visited: set<string>, s: string)
    requires s in region && s !in visited
    ensures var a := Aggregate(p + [e[z := Restrict(region, visited)]]);
            z in a &&
            Aggregate(p + [e[z := Restrict(region, visited + {s})]]) == AddToSlot(a, z, s, region[s])
  {
    var e1 := e[z := Restrict(region, visited)];
    AddCell(p, e1, z, s, region[s]);
    RestrictOneMore(e, z, region, visited, s);
  }

  /** The last quarter with one more substance of region `z` visited. */
  lemma RestrictOneMore(e: Dataset, z: string, region: SubstanceData, visited: set<string>, s: string)
    requires s in region
    ensures var e1 := e[z := Restrict(region, visited)];
            e1[z := e1[z][s := region[s]]] == e[z := Restrict(region, visited + {s})]
  {
    assert Restrict(region, visited)[s := region[s]] == Restrict(region, visited + {s});
  }

  // ---------------------------------------------------------------------------
  // Step lemmas for the loop

  /** Two last quarters that list the same cells for region `y` give it the same record. */
  lemma SameRecord(p: seq<Dataset>, e: Dataset, e': Dataset, y: string)
    requires (y in e && y in e' && e[y] == e'[y]) || (y !in e && (y !in e' || e'[y] == map[]))
    ensures RecordOf(p + [e], y) == RecordOf(p + [e'], y)
  {
    forall t
      ensures Substances(p + [e], y) == Substances(p + [e'], y)
      ensures Observed(p + [e], y, t) == Observed(p + [e'], y, t)
    {
      UnfoldLast(p, e, y, t);
      UnfoldLast(p, e', y, t);
    }
  }

  /** A trailing empty quarter changes nothing. */
  lemma AggregateEmptyLast(p: seq<Dataset>)
    ensures Aggregate(p + [map[]]) == Aggregate(p)
  {
    var q := p + [map[]];
    UnfoldLast(p, map[], "", "");
    forall y
      ensures RecordOf(q, y) == RecordOf(p, y)
    {
      forall t
        ensures Substances(q, y) == Substances(p, y)
        ensures Observed(q, y, t) == Observed(p, y, t)
      {
        UnfoldLast(p, map[], y, t);
      }
    }
    AggregateExt(q, p);
  }

  /** Two sequences of quarters with the same regions and the same records have the
      same aggregate. */
  lemma AggregateExt(q: seq<Dataset>, p: seq<Dataset>)
    requires Regions(q) == Regions(p)
    requires forall y :: RecordOf(q, y) == RecordOf(p, y)
    ensures Aggregate(q) == Aggregate(p)
  {
  }

  /** Lines 86-87: a new region of the last quarter, with nothing yet visited inside it. */
  lemma AddRegion(p: seq<Dataset>, e: Dataset, z: string)
    requires z !in e
    ensures var a := Aggregate(p + [e]);
            Aggregate(p + [e[z := map[]]]) == if z in a then a else a[z := map[]]
  {
    var e' := e[z := map[]];
    var a := Aggregate(p + [e]);
    var b := Aggregate(p + [e']);
    var c := if z in a then a else a[z := map[]];
    UnfoldLast(p, e, z, "");
    UnfoldLast(p, e', z, "");
    assert b.Keys == c.Keys;
    forall y | y in b
      ensures b[y] == c[y]
    {
      SameRecord(p, e, e', y);
      if y == z && z !in a {
        SubstancesWithinRegions(p, z);
        assert Substances(p + [e], z) == {};
      }
    }
  }

  /** Two aggregates that agree everywhere except at `z`, where the second holds `x`. */
  lemma AggUpdated(a: Agg, a': Agg, z: string, x: Record)
    requires a'.Keys == a.Keys + {z}
    requires a'[z] == x
    requires forall y :: y in a && y != z ==> a'[y] == a[y]
    ensures a' == a[z := x]
  {
  }

  /** `r` once the slot of `s` is seeded and `v` added to it. */
  function AddToRecord(r: Record, s: string, v: Value): Record
  {
    r[s := (if s in r then r[s] else 0.0) + Contribution(v)]
  }

  /** `a` once the slot of (z, s) is seeded and `v` added to it. */
  function AddToSlot(a: Agg, z: string, s: string, v: Value): Agg
    requires z in a
  {
    a[z := AddToRecord(a[z], s, v)]
  }

  /** A record that agrees with `r` except that `v` was added into the slot of `s`. */
  lemma RecordUpdated(r: Record, r': Record, s: string, v: Value)
    requires r'.Keys == r.Keys + {s}
    requires r'[s] == (if s in r then r[s] else 0.0) + Contribution(v)
    requires forall t :: t in r && t != s ==> r'[t] == r[t]
    ensures r' == AddToRecord(r, s, v)
  {
  }

  /** One more cell (z, s) in the last quarter adds `s` to the substances of `z`. */
  lemma SubstancesStep(p: seq<Dataset>, e: Dataset, e': Dataset, z: string, s: string, v: Value)
    requires z in e && s !in e[z] && e' == e[z := e[z][s := v]]
    ensures Substances(p + [e'], z) == Substances(p + [e], z) + {s}
  {
    UnfoldLast(p, e, z, s);
    UnfoldLast(p, e', z, s);
  }

  /** One more cell (z, s) leaves the totals of the other substances of `z` alone. */
  lemma TotalUnchanged(p: seq<Dataset>, e: Dataset, e': Dataset, z: string, s: string, v: Value, t: string)
    requires z in e && s !in e[z] && e' == e[z := e[z][s := v]] && t != s
    ensures Total(p + [e'], z, t) == Total(p + [e], z, t)
  {
    UnfoldLast(p, e, z, t);
    UnfoldLast(p, e', z, t);
  }

  /** One more cell (z, s) adds its contribution to the total of (z, s). */
  lemma TotalStep(p: seq<Dataset>, e: Dataset, e': Dataset, z: string, s: string, v: Value)
    requires z in e && s !in e[z] && e' == e[z := e[z][s := v]]
    ensures Total(p + [e'], z, s)
            == (if s in Substances(p + [e], z) then Total(p + [e], z, s) else 0.0) + Contribution(v)
  {
    UnfoldLast(p, e, z, s);
    UnfoldLast(p, e', z, s);
    var before := Observed(p, z, s);
    assert Observed(p + [e'], z, s) == before + [v];
    assert (before + [v])[..|before|] == before;
    assert SumNonNull(before + [v]) == SumNonNull(before) + Contribution(v);
    assert Observed(p + [e], z, s) == before;
    if s !in Substances(p + [e], z) {
      ObservedNonEmptyIff(p, z, s);
      assert before == [];
    }
  }

  /** The record of region `z` after one more observation of (z, s). */
  lemma RecordStep(p: seq<Dataset>, e: Dataset, e': Dataset, z: string, s: string, v: Value)
    requires z in e && s !in e[z] && e' == e[z := e[z][s := v]]
    ensures RecordOf(p + [e'], z) == AddToRecord(RecordOf(p + [e], z), s, v)
  {
    var r := RecordOf(p + [e], z);
    var r' := RecordOf(p + [e'], z);
    var x := (if s in r then r[s] else 0.0) + Contribution(v);
    SubstancesStep(p, e, e', z, s, v);
    TotalStep(p, e, e', z, s, v);
    assert r'.Keys == r.Keys + {s};
    assert r'[s] == x;
    forall t | t in r && t != s
      ensures r'[t] == r[t]
    {
      TotalUnchanged(p, e, e', z, s, v, t);
    }
    RecordUpdated(r, r', s, v);
  }

  /** One more cell of a region the last quarter already lists keeps the regions. */
  lemma RegionsKept(p: seq<Dataset>, e: Dataset, e': Dataset, z: string)
    requires z in e && e'.Keys == e.Keys
    ensures Regions(p + [e']) == Regions(p + [e])
    ensures z in Regions(p + [e])
  {
    UnfoldLast(p, e, z, "");
    UnfoldLast(p, e', z, "");
  }

  /** Lines 88-95: one more cell of the last quarter, in a region already visited. */
  lemma AddCell(p: seq<Dataset>, e: Dataset, z: string, s: string, v: Value)
    requires z in e && s !in e[z]
    ensures z in Aggregate(p + [e])
    ensures Aggregate(p + [e[z := e[z][s := v]]]) == AddToSlot(Aggregate(p + [e]), z, s, v)
  {
    var e' := e[z := e[z][s := v]];
    var a := Aggregate(p + [e]);
    var b := Aggregate(p + [e']);
    RegionsKept(p, e, e', z);
    assert b.Keys == a.Keys;
    RecordStep(p, e, e', z, s, v);
    forall y | y in a && y != z
      ensures b[y] == a[y]
    {
      SameRecord(p, e, e', y);
    }
    AggUpdated(a, b, z, AddToRecord(a[z], s, v));
  }
}
