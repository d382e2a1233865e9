/** Colouring the map (src/components/ChoroplethMap.tsx, lines 122 and 126-141): the
    domain of the quantile scale, the ZIP3 key of a map feature and the style of each
    feature.

    `d3`'s quantile scale is not modelled: it is a parameter `quantile` that maps the
    scale's domain and a value to one of the six palette entries. Because a quantile
    scale sorts its domain, it is given the domain as a multiset. */
module Colouring {
  import opened Basics
  import opened Aggregation

  /** The fill of a region without a positive value. */
  const Grey: string := "#CCCCCC"

  /** The six-colour range of the scale, light to dark (line 123). */
  const Palette: seq<string> := ["#FFFFE0", "#FFD07B", "#FF9E4A", "#F96D3A", "#E1422A", "#B41C1C"]

  /** An index into `Palette`. */
  type Bucket = b: nat | b < 6

  /** The quantile scale, left uninterpreted: domain and value to a palette index. */
  type Quantile = (multiset<real>, real) -> Bucket

  lemma GreyNotInPalette()
    ensures |Palette| == 6 && Grey !in Palette
  {
  }

  // ---------------------------------------------------------------------------
  // The scale's domain (line 122)

  /** `d[selectedSubstance] || 0` for the record of region `z`: a missing entry reads
      as 0 (an aggregated entry is never null or NaN). */
  function ValueOrZero(agg: Agg, z: string, sub: string): real
    requires z in agg
  {
    if sub in agg[z] then agg[z][sub] else 0.0
  }

  /** The regions an enumeration visits all exist in the aggregate. */
  predicate Within(agg: Agg, order: seq<string>)
  {
    forall k :: 0 <= k < |order| ==> order[k] in agg
  }

  /** An enumeration of the aggregate's keys, each exactly once: what `Object.values`
      walks, in an order the model does not fix. */
  predicate Enumerates(agg: Agg, order: seq<string>)
  {
    Within(agg, order) && Distinct(order) && forall z :: z in agg ==> z in order
  }

  /** Line 122: the values of the selected substance, region by region in the order
      `order`, with the non-positive ones dropped. */
  function DataValues(agg: Agg, sub: string, order: seq<string>): (r: seq<real>)
    requires Within(agg, order)
    ensures |r| <= |order|
    ensures forall k :: 0 <= k < |r| ==> r[k] > 0.0
  {
    if order == [] then []
    else
      var init := DataValues(agg, sub, order[..|order| - 1]);
      var v := ValueOrZero(agg, order[|order| - 1], sub);
      if v > 0.0 then init + [v] else init
  }

  /** The regions whose selected value is positive. */
  function PositiveRegions(agg: Agg, sub: string): set<string>
  {
    set z | z in agg && ValueOrZero(agg, z, sub) > 0.0
  }

  /** The positive regions among those of `order`. */
  function PositiveAmong(agg: Agg, sub: string, order: seq<string>): set<string>
    requires Within(agg, order)
  {
    if order == [] then {}
    else
      var z := order[|order| - 1];
      PositiveAmong(agg, sub, order[..|order| - 1]) + (if ValueOrZero(agg, z, sub) > 0.0 then {z} else {})
  }

  /** A region is among the positive ones of `order` exactly when `order` visits it
      and its value is positive. */
  lemma {:induction false} PositiveAmongIff(agg: Agg, sub: string, order: seq<string>, z: string)
    requires Within(agg, order)
    ensures z in PositiveAmong(agg, sub, order) <==> z in order && ValueOrZero(agg, z, sub) > 0.0
  {
    if order != [] {
      var init := order[..|order| - 1];
      assert order == init + [order[|order| - 1]];
      PositiveAmongIff(agg, sub, init, z);
    }
  }

  /** A value is in the domain exactly when it is positive and it is the selected value
      of some region the enumeration visits. */
  lemma {:induction false} DataValuesMembers(agg: Agg, sub: string, order: seq<string>, v: real)
    requires Within(agg, order)
    ensures v in DataValues(agg, sub, order) <==>
              v > 0.0 && exists k :: 0 <= k < |order| && ValueOrZero(agg, order[k], sub) == v
  {
    if order != [] {
      var init := order[..|order| - 1];
      DataValuesMembers(agg, sub, init, v);
      if v > 0.0 && ValueOrZero(agg, order[|order| - 1], sub) != v {
        if exists k :: 0 <= k < |order| && ValueOrZero(agg, order[k], sub) == v {
          var k :| 0 <= k < |order| && ValueOrZero(agg, order[k], sub) == v;
          assert init[k] == order[k];
        }
      }
      if exists k :: 0 <= k < |init| && ValueOrZero(agg, init[k], sub) == v {
        var k :| 0 <= k < |init| && ValueOrZero(agg, init[k], sub) == v;
        assert order[k] == init[k];
      }
    }
  }

  /** Walking distinct regions, the domain holds one value per positive region. */
  lemma {:induction false} DataValuesCountAmong(agg: Agg, sub: string, order: seq<string>)
    requires Within(agg, order) && Distinct(order)
    ensures |DataValues(agg, sub, order)| == |PositiveAmong(agg, sub, order)|
  {
    if order != [] {
      var init := order[..|order| - 1];
      var z := order[|order| - 1];
      assert Distinct(init) by {
        forall i, j | 0 <= i < j < |init| ensures init[i] != init[j] {
          assert init[i] == order[i] && init[j] == order[j];
        }
      }
      DataValuesCountAmong(agg, sub, init);
      PositiveAmongIff(agg, sub, init, z);
      assert z !in init by {
        forall k | 0 <= k < |init| ensures init[k] != z {
          assert init[k] == order[k];
        }
      }
    }
  }

  /** Line 122: over an enumeration of the aggregate, the domain holds as many values as
      there are regions whose selected value is positive. */
  lemma DataValuesCount(agg: Agg, sub: string, order: seq<string>)
    requires Enumerates(agg, order)
    ensures |DataValues(agg, sub, order)| == |PositiveRegions(agg, sub)|
  {
    DataValuesCountAmong(agg, sub, order);
    assert PositiveAmong(agg, sub, order) == PositiveRegions(agg, sub) by {
      forall z ensures z in PositiveAmong(agg, sub, order) <==> z in PositiveRegions(agg, sub) {
        PositiveAmongIff(agg, sub, order, z);
      }
    }
  }

  /** The regions among those of `order` whose selected value is `v`. */
  function WithValueAmong(agg: Agg, sub: string, order: seq<string>, v: real): set<string>
    requires Within(agg, order)
  {
    if order == [] then {}
    else
      var z := order[|order| - 1];
      WithValueAmong(agg, sub, order[..|order| - 1], v) + (if ValueOrZero(agg, z, sub) == v then {z} else {})
  }

  /** A region is among those of `order` with value `v` exactly when `order` visits it
      and its value is `v`. */
  lemma {:induction false} WithValueAmongIff(agg: Agg, sub: string, order: seq<string>, v: real, z: string)
    requires Within(agg, order)
    ensures z in WithValueAmong(agg, sub, order, v) <==> z in order && ValueOrZero(agg, z, sub) == v
  {
    if order != [] {
      var init := order[..|order| - 1];
      assert order == init + [order[|order| - 1]];
      WithValueAmongIff(agg, sub, init, v, z);
    }
  }

  /** Walking distinct regions, a positive value occurs in the domain once per region
      that holds it. */
  lemma {:induction false} DataValuesMultiplicityAmong(agg: Agg, sub: string, order: seq<string>, v: real)
    requires Within(agg, order) && Distinct(order) && v > 0.0
    ensures multiset(DataValues(agg, sub, order))[v] == |WithValueAmong(agg, sub, order, v)|
  {
    if order != [] {
      var init := order[..|order| - 1];
      var z := order[|order| - 1];
      assert Distinct(init) by {
        forall i, j | 0 <= i < j < |init| ensures init[i] != init[j] {
          assert init[i] == order[i] && init[j] == order[j];
        }
      }
      DataValuesMultiplicityAmong(agg, sub, init, v);
      WithValueAmongIff(agg, sub, init, v, z);
      assert z !in init by {
        forall k | 0 <= k < |init| ensures init[k] != z {
          assert init[k] == order[k];
        }
      }
    }
  }

  /** Line 122: over an enumeration of the aggregate, each positive value occurs in the
      domain exactly as often as there are regions whose selected value it is. */
  lemma DataValuesMultiplicity(agg: Agg, sub: string, order: seq<string>, v: real)
    requires Enumerates(agg, order) && v > 0.0
    ensures multiset(DataValues(agg, sub, order))[v] == |set z | z in agg && ValueOrZero(agg, z, sub) == v|
  {
    DataValuesMultiplicityAmong(agg, sub, order, v);
    assert WithValueAmong(agg, sub, order, v) == set z | z in agg && ValueOrZero(agg, z, sub) == v by {
      forall z ensures z in WithValueAmong(agg, sub, order, v) <==> z in agg && ValueOrZero(agg, z, sub) == v {
        WithValueAmongIff(agg, sub, order, v, z);
      }
    }
  }

  /** Line 122: no non-positive value is in the domain. */
  lemma DataValuesNoNonPositive(agg: Agg, sub: string, order: seq<string>, v: real)
    requires Within(agg, order) && v <= 0.0
    ensures multiset(DataValues(agg, sub, order))[v] == 0
  {
  }

  /** Enumerating a concatenation concatenates the domains. */
  lemma {:induction false} DataValuesConcat(agg: Agg, sub: string, a: seq<string>, b: seq<string>)
    requires Within(agg, a) && Within(agg, b)
    ensures Within(agg, a + b)
    ensures DataValues(agg, sub, a + b) == DataValues(agg, sub, a) + DataValues(agg, sub, b)
  {
    assert Within(agg, a + b) by {
      forall k | 0 <= k < |a + b| ensures (a + b)[k] in agg {
        if k < |a| { assert (a + b)[k] == a[k]; } else { assert (a + b)[k] == b[k - |a|]; }
      }
    }
    if b != [] {
      var init := b[..|b| - 1];
      assert (a + b)[..|a + b| - 1] == a + init;
      assert (a + b)[|a + b| - 1] == b[|b| - 1];
      DataValuesConcat(agg, sub, a, init);
    } else {
      assert a + b == a;
    }
  }

  /** The last element of `o1` occurs in its permutation `o2`; taking it out of both
      leaves permutations of each other. */
  lemma TakeOutLast(o1: seq<string>, o2: seq<string>) returns (k: nat)
    requires o1 != [] && multiset(o1) == multiset(o2)
    ensures k < |o2| && o2[k] == o1[|o1| - 1]
    ensures o2 == o2[..k] + [o2[k]] + o2[k + 1..]
    ensures multiset(o1[..|o1| - 1]) == multiset(o2[..k] + o2[k + 1..])
  {
    var n := |o1| - 1;
    assert o1[n] in multiset(o2);
    k :| 0 <= k < |o2| && o2[k] == o1[n];
    RemoveAt(o1, n);
    assert o1[..n] + o1[n + 1..] == o1[..n];
    RemoveAt(o2, k);
  }

  /** Taking out the element at `k` takes one occurrence of it out of the multiset. */
  lemma RemoveAt(s: seq<string>, k: nat)
    requires k < |s|
    ensures s == s[..k] + [s[k]] + s[k + 1..]
    ensures multiset(s[..k] + s[k + 1..]) == multiset(s) - multiset{s[k]}
  {
    assert s == s[..k] + [s[k]] + s[k + 1..];
    assert multiset(s) == multiset(s[..k]) + multiset{s[k]} + multiset(s[k + 1..]);
  }

  /** Slices of an enumeration within the aggregate stay within it. */
  lemma WithinSlice(agg: Agg, o: seq<string>, i: nat, j: nat)
    requires Within(agg, o) && i <= j <= |o|
    ensures Within(agg, o[i..j])
  {
    forall m | 0 <= m < j - i ensures o[i..j][m] in agg {
      assert o[i..j][m] == o[i + m];
    }
  }

  /** The domain's multiset depends only on which regions are enumerated, and how
      often, not on the order of the enumeration. */
  lemma {:induction false} DataValuesPermutation(agg: Agg, sub: string, o1: seq<string>, o2: seq<string>)
    requires Within(agg, o1) && Within(agg, o2) && multiset(o1) == multiset(o2)
    ensures multiset(DataValues(agg, sub, o1)) == multiset(DataValues(agg, sub, o2))
  {
    if o1 != [] {
      var n := |o1| - 1;
      var k := TakeOutLast(o1, o2);
      var init, last, left, right := o1[..n], [o1[n]], o2[..k], o2[k + 1..];
      assert o1 == init + last;
      assert o2 == left + last + right;
      WithinSlice(agg, o1, 0, n);
      WithinSlice(agg, o1, n, n + 1);
      WithinSlice(agg, o2, 0, k);
      WithinSlice(agg, o2, k + 1, |o2|);
      assert o1[n..n + 1] == last;
      DataValuesConcat(agg, sub, left, right);
      DataValuesPermutation(agg, sub, init, left + right);
      DataValuesConcat(agg, sub, init, last);
      DataValuesConcat(agg, sub, left, last);
      DataValuesConcat(agg, sub, left + last, right);
      var dl, dx, dr := DataValues(agg, sub, left), DataValues(agg, sub, last), DataValues(agg, sub, right);
      calc {
        multiset(DataValues(agg, sub, o1));
        multiset(DataValues(agg, sub, init)) + multiset(dx);
        multiset(dl + dr) + multiset(dx);
        multiset(dl + dx + dr);
        multiset(DataValues(agg, sub, o2));
      }
    }
  }

  /** In a sequence without repetitions every element occurs once. */
  lemma {:induction false} DistinctMultiplicity<T>(s: seq<T>, x: T)
    requires Distinct(s)
    ensures multiset(s)[x] == if x in s then 1 else 0
  {
    if s != [] {
      var init := s[..|s| - 1];
      assert s == init + [s[|s| - 1]];
      assert Distinct(init) by {
        forall i, j | 0 <= i < j < |init| ensures init[i] != init[j] {
          assert init[i] == s[i] && init[j] == s[j];
        }
      }
      DistinctMultiplicity(init, x);
      if x == s[|s| - 1] {
        assert x !in init by {
          forall i | 0 <= i < |init| ensures init[i] != x {
            assert init[i] == s[i];
          }
        }
      }
    }
  }

  /** Any two enumerations of the aggregate's keys give the scale the same domain, up
      to order. */
  lemma DataValuesOrderIndependent(agg: Agg, sub: string, o1: seq<string>, o2: seq<string>)
    requires Enumerates(agg, o1) && Enumerates(agg, o2)
    ensures multiset(DataValues(agg, sub, o1)) == multiset(DataValues(agg, sub, o2))
  {
    assert multiset(o1) == multiset(o2) by {
      forall x ensures multiset(o1)[x] == multiset(o2)[x] {
        DistinctMultiplicity(o1, x);
        DistinctMultiplicity(o2, x);
      }
    }
    DataValuesPermutation(agg, sub, o1, o2);
  }

  // ---------------------------------------------------------------------------
  // The ZIP3 key of a feature (lines 126-130)

  /** `Number.MAX_SAFE_INTEGER`: up to it every integer is a double and `String` prints
      it in full. */
  const MaxSafeInteger: int := 9007199254740991

  /** An integer JavaScript holds exactly. */
  type SafeInteger = i: int | -MaxSafeInteger <= i <= MaxSafeInteger

  /** A GeoJSON property value; integers are those a double holds exactly. */
  datatype Property = PNull | PBool(b: bool) | PInt(i: SafeInteger) | PStr(s: string)

  /** A map feature; `properties` is None where GeoJSON has null or no properties. */
  datatype Feature = Feature(properties: Option<map<string, Property>>)

  /** The property holding the ZIP3 code. */
  const ZipProperty: string := "3dig_zip"

  /** JavaScript truthiness of a property value. */
  predicate Truthy(p: Property)
  {
    match p
    case PNull => false
    case PBool(b) => b
    case PInt(i) => i != 0
    case PStr(s) => s != ""
  }

  /** The decimal digit `d`. */
  function DigitChar(d: nat): char
    requires d < 10
  {
    "0123456789"[d]
  }

  /** The decimal numeral of `n`, without leading zeros. */
  function NatToDecimal(n: nat): (r: string)
    ensures |r| > 0
    decreases n
  {
    if n < 10 then [DigitChar(n)] else NatToDecimal(n / 10) + [DigitChar(n % 10)]
  }

  /** The value of a string of decimal digits. */
  function ParseDecimal(s: string): nat
  {
    if s == [] then 0
    else
      var c := s[|s| - 1];
      var d := if '0' <= c <= '9' then (c - '0') as nat else 0;
      10 * ParseDecimal(s[..|s| - 1]) + d
  }

  /** Reading the numeral of `n` gives `n` back. */
  lemma {:induction false} DecimalRoundTrip(n: nat)
    ensures ParseDecimal(NatToDecimal(n)) == n
    decreases n
  {
    if n >= 10 {
      var r := NatToDecimal(n);
      assert r[..|r| - 1] == NatToDecimal(n / 10);
      DecimalRoundTrip(n / 10);
    }
  }

  /** `String(p)` for a truthy property value. */
  function PropertyString(p: Property): (r: string)
    requires Truthy(p)
    ensures r != ""
  {
    match p
    case PBool(_) => "true"
    case PInt(i) => if i < 0 then "-" + NatToDecimal(-i) else NatToDecimal(i)
    case PStr(s) => s
  }

  /** Lines 126-130: no feature, no properties, or a falsy ZIP3 property give null;
      otherwise the property as a string. */
  function ZipFromFeature(feature: Option<Feature>): (r: Option<string>)
    ensures r.Some? <==>
              && feature.Some? && feature.value.properties.Some?
              && ZipProperty in feature.value.properties.value
              && Truthy(feature.value.properties.value[ZipProperty])
    ensures r.Some? ==> r.value != ""
    ensures r.Some? ==> feature.value.properties.value[ZipProperty].PStr? ==>
              r.value == feature.value.properties.value[ZipProperty].s
  {
    if feature.None? || feature.value.properties.None? then None
    else
      var props := feature.value.properties.value;
      if ZipProperty in props && Truthy(props[ZipProperty]) then Some(PropertyString(props[ZipProperty]))
      else None
  }

  /** A positive integer code written as a number comes back as its decimal numeral,
      which reads back as the same number. */
  lemma NumericZip(props: map<string, Property>, n: nat)
    requires 0 < n <= MaxSafeInteger
    requires ZipProperty in props && props[ZipProperty] == PInt(n)
    ensures ZipFromFeature(Some(Feature(Some(props)))) == Some(NatToDecimal(n))
    ensures ParseDecimal(ZipFromFeature(Some(Feature(Some(props)))).value) == n
  {
    DecimalRoundTrip(n);
  }

  // ---------------------------------------------------------------------------
  // The style of a feature (lines 133-141)

  /** The Leaflet path style of a feature. */
  datatype Style = Style(fillColor: string, weight: real, opacity: real, color: string, fillOpacity: real)

  /** Lines 134-136: the aggregated value of the feature's region for the selected
      substance; None where the feature has no key, the region no record or the record
      no entry. */
  function FeatureValue(agg: Agg, sub: string, feature: Option<Feature>): (r: Option<real>)
    ensures r.Some? <==>
              var zip := ZipFromFeature(feature);
              zip.Some? && zip.value in agg && sub in agg[zip.value]
    ensures r.Some? ==> r.value == agg[ZipFromFeature(feature).value][sub]
  {
    var zip3 := ZipFromFeature(feature);
    var record := if zip3.Some? && zip3.value != "" && zip3.value in agg then Some(agg[zip3.value]) else None;
    if record.Some? && sub in record.value then Some(record.value[sub]) else None
  }

  /** Lines 133-141: a positive value is coloured by the scale, anything else is grey;
      the outline and opacities are fixed. */
  function StyleFeature(agg: Agg, sub: string, order: seq<string>, quantile: Quantile,
                        feature: Option<Feature>): (r: Style)
    requires Within(agg, order)
    ensures r.weight == 0.5 && r.opacity == 1.0 && r.color == "white" && r.fillOpacity == 0.7
    ensures r.fillColor == Grey || r.fillColor in Palette
  {
    var value := FeatureValue(agg, sub, feature);
    var domain := multiset(DataValues(agg, sub, order));
    var fill := if value.Some? && value.value != 0.0 && value.value > 0.0
                then Palette[quantile(domain, value.value)]
                else Grey;
    Style(fill, 0.5, 1.0, "white", 0.7)
  }

  /** A feature is grey exactly when its value is missing or not positive; otherwise
      its fill is the scale's colour for its value. */
  lemma FillGreyIff(agg: Agg, sub: string, order: seq<string>, quantile: Quantile,
                    feature: Option<Feature>)
    requires Within(agg, order)
    ensures var value := FeatureValue(agg, sub, feature);
            StyleFeature(agg, sub, order, quantile, feature).fillColor == Grey
            <==> value.None? || value.value <= 0.0
    ensures var value := FeatureValue(agg, sub, feature);
            value.Some? && value.value > 0.0 ==>
              StyleFeature(agg, sub, order, quantile, feature).fillColor
              == Palette[quantile(multiset(DataValues(agg, sub, order)), value.value)]
  {
    GreyNotInPalette();
  }

  /** Every value the scale colours is in its domain: the domain covers every region of
      a complete enumeration. */
  lemma ColouredValueInDomain(agg: Agg, sub: string, order: seq<string>, feature: Option<Feature>)
    requires Enumerates(agg, order)
    requires FeatureValue(agg, sub, feature).Some? && FeatureValue(agg, sub, feature).value > 0.0
    ensures FeatureValue(agg, sub, feature).value in DataValues(agg, sub, order)
  {
    var z := ZipFromFeature(feature).value;
    var k :| 0 <= k < |order| && order[k] == z;
    DataValuesMembers(agg, sub, order, FeatureValue(agg, sub, feature).value);
  }

  /** The colouring does not depend on the order in which the aggregate's keys are
      enumerated. */
  lemma StyleOrderIndependent(agg: Agg, sub: string, o1: seq<string>, o2: seq<string>,
                              quantile: Quantile, feature: Option<Feature>)
    requires Enumerates(agg, o1) && Enumerates(agg, o2)
    ensures StyleFeature(agg, sub, o1, quantile, feature) == StyleFeature(agg, sub, o2, quantile, feature)
  {
    DataValuesOrderIndependent(agg, sub, o1, o2);
  }
}
