/** The state of the choropleth component and the steps that change it
    (src/components/ChoroplethMap.tsx, lines 16-23, 31-40, 56-112 and 169-183).

    Loading a quarter's file is a parameter `fetch`: `fetch(q)` is the parsed file of
    quarter `q`, or None when the request or its JSON parsing fails. The map shapes,
    rendering and the timing of the asynchronous steps are not part of this model:
    every step runs to completion before the next begins. */
module ChoroplethState {
  import opened Basics
  import opened Aggregation
  import opened AggregationLoop
  import opened QuarterRange

  /** Lines 75-81: loading every quarter in parallel and waiting for all of them. The
      result is every file, in the order of `qs`, or None as soon as one load fails. */
  function FetchAll(qs: seq<string>, fetch: string -> Option<Dataset>): (r: Option<seq<Dataset>>)
    ensures r.Some? <==> forall k :: 0 <= k < |qs| ==> fetch(qs[k]).Some?
    ensures r.Some? ==> |r.value| == |qs| && forall k :: 0 <= k < |qs| ==> fetch(qs[k]) == Some(r.value[k])
  {
    if qs == [] then Some([])
    else
      var init := FetchAll(qs[..|qs| - 1], fetch);
      var last := fetch(qs[|qs| - 1]);
      assert forall k :: 0 <= k < |qs| - 1 ==> qs[..|qs| - 1][k] == qs[k];
      if init.Some? && last.Some? then Some(init.value + [last.value]) else None
  }

  /** The default substance (line 22). */
  const DefaultSubstance: string := "OXYCODONE"

  /** The component's state that the aggregation depends on or produces. */
  class ChoroplethMap {
    var quarters: seq<string>
    var startQuarter: string
    var endQuarter: string
    var selectedSubstance: string
    var aggregatedData: Option<Agg>
    var substances: set<string>
    var isLoading: bool

    /** Once the quarter list is loaded, both ends of the range are quarters of it:
        they are set from it and the dropdowns offer nothing else. */
    predicate Valid()
      reads this
    {
      quarters != [] ==> startQuarter in quarters && endQuarter in quarters
    }

    /** Lines 16-23: nothing loaded yet. */
    constructor ()
      ensures Valid()
      ensures quarters == [] && startQuarter == "" && endQuarter == ""
      ensures selectedSubstance == DefaultSubstance
      ensures aggregatedData == None && substances == {} && isLoading
    {
      quarters := [];
      startQuarter := "";
      endQuarter := "";
      selectedSubstance := DefaultSubstance;
      aggregatedData := None;
      substances := {};
      isLoading := true;
    }

    /** Lines 37-40: the quarter list arrives and the range defaults to the whole list. */
    method LoadQuarters(qs: seq<string>)
      modifies this`quarters, this`startQuarter, this`endQuarter
      ensures Valid()
      ensures quarters == qs
      ensures qs != [] ==> startQuarter == qs[0] && endQuarter == qs[|qs| - 1]
      ensures qs == [] ==> startQuarter == old(startQuarter) && endQuarter == old(endQuarter)
    {
      quarters := qs;
      if qs != [] {
        startQuarter := qs[0];
        endQuarter := qs[|qs| - 1];
      }
    }

    /** Line 176: a start quarter is chosen among all quarters. */
    method SetStartQuarter(q: string)
      requires Valid() && q in quarters
      modifies this`startQuarter
      ensures Valid() && startQuarter == q
    {
      startQuarter := q;
    }

    /** Lines 182-183: an end quarter is chosen among the end options. */
    method SetEndQuarter(q: string)
      requires Valid() && startQuarter in quarters && q in EndQuarterOptions(quarters, startQuarter)
      modifies this`endQuarter
      ensures Valid() && endQuarter == q
    {
      var options := EndQuarterOptions(quarters, startQuarter);
      var k :| 0 <= k < |options| && options[k] == q;
      assert quarters[|quarters| - |options| + k] == q;
      endQuarter := q;
    }

    /** Line 169: a substance is chosen among the listed ones. */
    method SetSelectedSubstance(s: string)
      requires Valid() && s in substances
      modifies this`selectedSubstance
      ensures Valid() && selectedSubstance == s
    {
      selectedSubstance := s;
    }

    /** Lines 56-112: one pass of the aggregation effect.
        - Without quarters nothing happens.
        - An inverted range moves the end onto the start and stops, still loading.
        - Otherwise the selected quarters are loaded. If one load fails, only the
          loading flag changes. If all succeed, the aggregate is replaced by the sum of
          the loaded quarters and, when it has a region, the substance list becomes the
          key set of one region's record. Either way loading ends. */
    method RunAggregation(fetch: string -> Option<Dataset>)
      requires Valid()
      modifies this`endQuarter, this`aggregatedData, this`substances, this`isLoading
      ensures Valid()
      ensures old(quarters) == [] ==>
                && endQuarter == old(endQuarter) && aggregatedData == old(aggregatedData)
                && substances == old(substances) && isLoading == old(isLoading)
      ensures old(quarters) != [] && SelectRange(quarters, startQuarter, old(endQuarter)).Collapse? ==>
                && endQuarter == startQuarter && isLoading
                && aggregatedData == old(aggregatedData) && substances == old(substances)
      ensures old(quarters) != [] && SelectRange(quarters, startQuarter, old(endQuarter)).Fetch? ==>
                var datasets := FetchAll(SelectRange(quarters, startQuarter, old(endQuarter)).quarters, fetch);
                && endQuarter == old(endQuarter) && !isLoading
                && (datasets.None? ==> aggregatedData == old(aggregatedData) && substances == old(substances))
                && (datasets.Some? ==>
                      && aggregatedData == Some(Aggregate(datasets.value))
                      && (aggregatedData.value == map[] ==> substances == old(substances))
                      && (aggregatedData.value != map[] ==>
                            exists z :: z in aggregatedData.value && substances == aggregatedData.value[z].Keys))
    {
      if |quarters| == 0 {
        return;
      }
      ghost var step := SelectRange(quarters, startQuarter, endQuarter);
      isLoading := true;
      var startIndex := IndexOf(quarters, startQuarter);
      var endIndex := IndexOf(quarters, endQuarter);
      if startIndex > endIndex {
        assert step.Collapse?;
        endQuarter := startQuarter;
        return;
      }
      var quartersToFetch := quarters[startIndex..endIndex + 1];
      assert step == Fetch(quartersToFetch);
      var datasets := FetchAll(quartersToFetch, fetch);
      Commit(datasets);
    }

    /** Lines 79-108: the outcome of waiting for all loads. On success the aggregate is
        replaced by the sum of the loaded quarters and, when it has a region, the
        substance list becomes the key set of one region's record; on failure neither
        changes. Either way loading ends. */
    method Commit(datasets: Option<seq<Dataset>>)
      modifies this`aggregatedData, this`substances, this`isLoading
      ensures !isLoading
      ensures datasets.None? ==> aggregatedData == old(aggregatedData) && substances == old(substances)
      ensures datasets.Some? ==>
                && aggregatedData == Some(Aggregate(datasets.value))
                && (aggregatedData.value == map[] ==> substances == old(substances))
                && (aggregatedData.value != map[] ==>
                      exists z :: z in aggregatedData.value && substances == aggregatedData.value[z].Keys)
    {
      if datasets.Some? {
        var newAggregatedData := AggregateQuarterlyData(datasets.value);
        aggregatedData := Some(newAggregatedData);
        if |newAggregatedData| > 0 {
          var first :| first in newAggregatedData;
          substances := newAggregatedData[first].Keys;
        }
      }
      isLoading := false;
    }
  }
}
