# Date-range aggregation and colouring of the ZIP3 choropleth

A model of the logic in the choropleth component of a web map of controlled-substance
distribution by three-digit ZIP code (ZIP3) region.

The data is one JSON file per quarter. Each file maps a region to a record, and each
record maps a substance to an amount or to null. The user picks a start quarter, an end
quarter and a substance. The component then:

- looks both quarters up in the ordered quarter list;
- if the range is inverted, moves the end onto the start and skips the pass;
- otherwise loads every quarter in the inclusive range and sums them, region by region
  and substance by substance;
- commits the result all-or-nothing: on success it replaces the aggregate and takes the
  substance list from one region's record, and on any failed load it only clears the
  loading flag;
- colours each region with a quantile scale over the positive values of the selected
  substance, and greys out every region without a positive value;
- offers as end quarters the suffix of the list that starts at the start quarter.

Modules:

- `Basics` (basics.dfy): `Option`, distinctness of a sequence, and map restriction.
- `Aggregation` (aggregation.dfy): the specification of the sums. `Aggregate` lists a
  region when some quarter lists it. It lists a substance for that region when some
  quarter lists the pair, even with a null. The value is the sum of the non-null
  cells. This module also has the "seed when falsy" step.
- `AggregationLoop` (aggregation_loop.dfy): the three nested loops of the component,
  as a method proved equal to `Aggregate` (its innermost loop is the method
  `AccumulateRegion`), and the step lemmas that carry its
  invariants.
- `AggregationProperties` (aggregation_props.dfy): what `Aggregate` promises in terms
  of the quarters themselves. This covers presence of regions and pairs, the sum over
  quarters, all-null pairs giving 0, empty records, and splitting a range in two.
- `QuarterRange` (quarter_range.dfy): `indexOf`, the range selection and the
  end-quarter options.
- `Colouring` (colouring.dfy): the scale's domain, the ZIP3 key of a map feature and a
  feature's style. The quantile scale is a parameter.
- `ChoroplethState` (choropleth_state.dfy): the component's state as a class. Its
  methods are the quarter-list load, the dropdown handlers and one pass of the
  aggregation effect. Loading a quarter's file is a parameter `fetch`.

Values are exact reals, so the model claims exact sums and not IEEE behaviour.

In the code (lines 89-91) the slot is seeded to 0 as soon as the pair is seen, before
the null test, so an all-null pair is present with 0 (`AllNullPairIsZero`).

## Model

| member | source | states |
|---|---|---|
| Aggregation.Seed | src/components/ChoroplethMap.tsx:89-91 | the falsy test as written: afterwards the slot is present, it holds 0 when it was absent and its old value otherwise (a slot holding 0 is reset to 0), and every other slot is unchanged |
| Aggregation.SeedIsSeedWhenAbsent | src/components/ChoroplethMap.tsx:89-94 | the "reset when falsy" test only ever resets a slot that already holds 0, so it equals "seed when absent" and never discards a partial sum |
| Aggregation.ObservedNonEmptyIff | src/components/ChoroplethMap.tsx:86-91 | a pair has at least one observed cell exactly when some quarter lists it |
| AggregationLoop.AggregateQuarterlyData | src/components/ChoroplethMap.tsx:84-98 | the nested loops over quarters, regions and substances build exactly `Aggregate` of the loaded quarters |
| AggregationLoop.AccumulateRegion | src/components/ChoroplethMap.tsx:88-96 | the loop over one region's substances turns the aggregate over the earlier quarters and regions, with this region not yet visited, into the aggregate with the whole region visited |
| AggregationLoop.AddCellValue | src/components/ChoroplethMap.tsx:89-95 | one innermost step seeds the slot if needed and adds the cell, with a null adding nothing |
| AggregationProperties.RegionsIff | src/components/ChoroplethMap.tsx:86-87 | a region is listed iff some included quarter lists it |
| AggregationProperties.SubstancesIff | src/components/ChoroplethMap.tsx:88-91 | a substance is listed for a region iff some included quarter lists the pair |
| AggregationProperties.AggregateKeys | src/components/ChoroplethMap.tsx:86-91 | a region is in the aggregate iff some quarter lists it; a pair is in it iff some quarter lists the pair, even with a null |
| AggregationProperties.EmptyRecordAppears | src/components/ChoroplethMap.tsx:87 | a region that only comes with empty records still appears, with an empty record |
| AggregationProperties.AllNullPairIsZero | src/components/ChoroplethMap.tsx:89-95 | a pair that is listed but always null is present with 0, not null |
| AggregationProperties.TotalIsSumOverQuarters | src/components/ChoroplethMap.tsx:84-98 | a pair's total is the sum, over the included quarters, of its non-null cells |
| AggregationProperties.AggregateValue | src/components/ChoroplethMap.tsx:84-98 | every value in the aggregate is the sum over the included quarters of that pair's non-null values |
| AggregationProperties.AggregateConcat | src/components/ChoroplethMap.tsx:84-98 | aggregating two adjacent ranges at once equals summing the two aggregates region by region and substance by substance |
| AggregationProperties.ThreeQuarterExample | src/components/ChoroplethMap.tsx:84-98 | one region with 10, null and 5 over three quarters aggregates to 15 |
| QuarterRange.IndexOf | src/components/ChoroplethMap.tsx:63-64 | the index lookup returns the first position holding the quarter, or -1 exactly when it is absent |
| QuarterRange.IndexOfDistinct | src/components/ChoroplethMap.tsx:63-64 | in a list without repeats the lookup finds each quarter at its own position |
| QuarterRange.SelectRange | src/components/ChoroplethMap.tsx:63-72 | the range collapses exactly when the start quarter is found after the end quarter; otherwise the fetched quarters begin with the start quarter and end with the end quarter (the exact slice is `SelectRangeExact`, membership `SelectRangeMembers`) |
| QuarterRange.SelectRangeExact | src/components/ChoroplethMap.tsx:63-72 | with distinct quarters the range collapses iff the start index exceeds the end index; otherwise the fetched quarters are the slice from start to end inclusive, in list order, of length end - start + 1 |
| QuarterRange.SelectRangeMembers | src/components/ChoroplethMap.tsx:63-72 | a quarter is fetched iff its index lies between the two ends |
| QuarterRange.CollapsedRangeFetchesStart | src/components/ChoroplethMap.tsx:67-72 | once the end has been moved onto the start, the next pass fetches just the start quarter |
| QuarterRange.EndQuarterOptions | src/components/ChoroplethMap.tsx:162 | the end options are a non-empty suffix of the quarter list that begins with the start quarter |
| QuarterRange.EndQuarterOptionsMembers | src/components/ChoroplethMap.tsx:162 | with distinct quarters, a quarter is an end option iff it is at or after the start quarter; no earlier quarter is offered |
| QuarterRange.DefaultRangeIsWhole | src/components/ChoroplethMap.tsx:39-40 | the default range, first to last quarter, fetches the whole list, and every quarter is then an end option |
| Colouring.GreyNotInPalette | src/components/ChoroplethMap.tsx:123 | the palette has six colours and none of them is the grey of regions without data |
| Colouring.DataValues | src/components/ChoroplethMap.tsx:122 | every value of the scale's domain is strictly positive, and there are at most as many as regions |
| Colouring.DataValuesMembers | src/components/ChoroplethMap.tsx:122 | a value is in the domain iff it is positive and is the selected value of some enumerated region |
| Colouring.DataValuesCount | src/components/ChoroplethMap.tsx:122 | the domain holds as many values as there are regions whose selected value is positive |
| Colouring.DataValuesMultiplicity | src/components/ChoroplethMap.tsx:122 | each positive value occurs in the domain exactly as often as there are regions whose selected value it is |
| Colouring.DataValuesNoNonPositive | src/components/ChoroplethMap.tsx:122 | no value at or below 0 occurs in the domain |
| Colouring.WithValueAmongIff | src/components/ChoroplethMap.tsx:122 | a region counts among those of an enumeration holding a value iff it is enumerated and its selected value is that value |
| Colouring.PositiveAmongIff | src/components/ChoroplethMap.tsx:122 | a region counts among the positive ones of an enumeration iff it is enumerated and its value is positive |
| Colouring.DataValuesPermutation | src/components/ChoroplethMap.tsx:122 | permuting the enumerated regions permutes the domain |
| Colouring.DataValuesOrderIndependent | src/components/ChoroplethMap.tsx:122 | any two enumerations of the aggregate's keys give the same domain up to order |
| Colouring.ZipFromFeature | src/components/ChoroplethMap.tsx:126-130 | the key is null iff the feature, its properties or a truthy ZIP3 property is missing; otherwise it is a non-empty string, and the property itself when that is a string |
| Colouring.PropertyString | src/components/ChoroplethMap.tsx:129 | converting a truthy property value to a string never gives the empty string |
| Colouring.DecimalRoundTrip | src/components/ChoroplethMap.tsx:129 | the decimal numeral of a number reads back as that number |
| Colouring.NumericZip | src/components/ChoroplethMap.tsx:128-129 | a ZIP3 property written as a positive integer up to `Number.MAX_SAFE_INTEGER` becomes its decimal numeral, which reads back as the same number |
| Colouring.FeatureValue | src/components/ChoroplethMap.tsx:134-136 | a feature's value is present iff it has a key, the aggregate has that region and the record has the selected substance; it is then that entry |
| Colouring.StyleFeature | src/components/ChoroplethMap.tsx:133-141 | the style has weight 0.5, opacity 1, a white outline and fill opacity 0.7, and the fill is grey or a palette colour |
| Colouring.FillGreyIff | src/components/ChoroplethMap.tsx:138 | the fill is grey iff the value is missing or not positive; otherwise it is the scale's colour for the value |
| Colouring.ColouredValueInDomain | src/components/ChoroplethMap.tsx:122-138 | every value that the scale colours is in the scale's domain |
| Colouring.StyleOrderIndependent | src/components/ChoroplethMap.tsx:122-141 | the style of a feature does not depend on the order in which the aggregate's regions are enumerated |
| ChoroplethState.FetchAll | src/components/ChoroplethMap.tsx:75-81 | loading succeeds iff every quarter loads; it then gives one file per quarter, in order |
| ChoroplethState.ChoroplethMap.Commit | src/components/ChoroplethMap.tsx:79-108 | a failed load leaves the aggregate and the substances as they were; a successful one replaces the aggregate with `Aggregate` of the loaded quarters and, when it has a region, sets the substances to some region's key set; loading ends either way |
| ChoroplethState.ChoroplethMap.constructor | src/components/ChoroplethMap.tsx:16-23 | the initial state: no quarters, empty range ends, oxycodone selected, no aggregate, no substances, loading |
| ChoroplethState.ChoroplethMap.LoadQuarters | src/components/ChoroplethMap.tsx:37-40 | the quarter list is stored and the range defaults to the first and last quarter |
| ChoroplethState.ChoroplethMap.SetStartQuarter | src/components/ChoroplethMap.tsx:176 | the start quarter becomes the chosen quarter, and both range ends stay in the list |
| ChoroplethState.ChoroplethMap.SetEndQuarter | src/components/ChoroplethMap.tsx:182-183 | the end quarter becomes the chosen end option, and both range ends stay in the list |
| ChoroplethState.ChoroplethMap.SetSelectedSubstance | src/components/ChoroplethMap.tsx:169 | the selected substance becomes the chosen one, and both range ends stay in the list |
| ChoroplethState.ChoroplethMap.RunAggregation | src/components/ChoroplethMap.tsx:56-112 | without quarters nothing changes. An inverted range moves the end onto the start and leaves the rest as it was, still loading. A failed load changes only the loading flag. A successful one replaces the aggregate with `Aggregate` of the loaded quarters and, when the aggregate has a region, sets the substances to some region's key set; loading then ends |

## Left out

- Fetching, JSON parsing, the map shapes and all React and Leaflet rendering (lines
  31-52, 75-77, 164-200) are input and output. The exception is lines 37-40, which
  `LoadQuarters` models. A quarter's load is the parameter `fetch`, and the shapes
  request is not modelled. The `console.error` logging of failures (lines 48 and 105)
  is not modelled either.
- Overlapping passes of the aggregation effect are not modelled. A slow, stale response
  can overwrite a newer one because nothing is cancelled. In the model each pass runs
  to completion.
- React re-running the effect when its dependencies change is not modelled. The caller
  invokes `RunAggregation` after each change.
- The internals of `d3-scale`'s quantile scale (line 123; it is also used in
  src/data.ts) are not modelled. The scale is the parameter `quantile`, from the
  domain's multiset and a value to a palette index. src/data.ts is otherwise mock data.
- The popup text (lines 144-159) is left out. It depends on `toFixed(2)` float
  formatting and Leaflet's `bindPopup`.
- The loading screen gate (line 117) is rendering and is left out.
- ChoroplethState.ChoroplethMap.RunAggregation, ChoroplethState.ChoroplethMap.Commit:
  the substance list is the key set of *some* region's record. JavaScript takes the first key of `Object.keys`, where keys
  that look like integers come first in numeric order. That order is not modelled.
- Colouring.DataValues: `Object.values` enumerates in the same key order. The
  enumeration is the parameter `order`, and `DataValuesOrderIndependent` and
  `StyleOrderIndependent` show the result does not depend on it.
- ChoroplethState.ChoroplethMap.RunAggregation, ChoroplethState.ChoroplethMap.Commit:
  the substance list is a set, not an ordered array, for the same reason.
- QuarterRange.SelectRange: it requires both ends to be quarters of the list. The case
  where `indexOf` returns -1, with its negative-index `slice`, is not modelled. The
  dropdowns only ever offer quarters of the list.
- ChoroplethState.ChoroplethMap.LoadQuarters: on an empty quarter list the source
  stores `undefined` as both range ends. The model keeps the previous ends, since no
  pass runs without quarters.
- Colouring.PropertyString: only null, boolean, integer and string property values are
  modelled, and integers only up to `Number.MAX_SAFE_INTEGER` (2^53 - 1) in magnitude.
  Fractional numbers, NaN, arrays and objects in the ZIP3 property are not modelled, nor
  are larger integers, which a double rounds and which `String` prints in exponent form
  from 10^21 up.
- Colouring.NumericZip: stated only for integers up to `Number.MAX_SAFE_INTEGER`, for
  the same reason.
- Amounts are exact reals. IEEE rounding and NaN are not modelled. The data files carry
  null where a figure is missing, so NaN does not arise in the sums.
- The data-preparation scripts (data/process_data.py, data/process_individual_quarters.py
  and their copies under public/data) are not part of this model. They are pandas
  pivots, rounding and file writes. Distinct quarter names, which the range lemmas
  assume, come from those scripts listing distinct file names.
- src/App.tsx is a wrapper with no logic and is not part of this model.
