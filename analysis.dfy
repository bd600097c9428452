/**
 * The analysis page: spatial binning of the crime features into areas, the
 * bar widths of the area list, the crime-type pie, the headline metrics and
 * the forecast summary.
 */
module Analysis {
  import opened Common
  import opened Numeric
  import opened Text
  import opened StableSort
  import opened ApiTypes
  import CrimeTypeDistribution

  /** `getDaysFromRange`: the look-back window of a range button. */
  function GetDaysFromRange(range: string): (days: int)
    ensures range == "7d" ==> days == 7
    ensures range == "30d" ==> days == 30
    ensures range == "1y" ==> days == 365
    ensures range !in {"7d", "30d", "1y"} ==> days == 90
  {
    match range
    case "7d" => 7
    case "30d" => 30
    case "1y" => 365
    case _ => 90
  }

  // ---------------------------------------------------------------- area keys

  /** `district || ward || beat`: the first truthy of the three, else `beat`. */
  function RawArea(p: Properties): JsValue
  {
    if Truthy(p.district) then p.district else if Truthy(p.ward) then p.ward else p.beat
  }

  /** The latitude band label `District n`, one band per 0.02 degrees from 41.6. */
  function LatitudeBand(lat: real): string
  {
    "District " + IntToString(Floor((lat - 41.6) / 0.02) + 1)
  }

  /**
   * The label before trimming: the raw value unless it is falsy or the text
   * "null", in which case the latitude band when `coordinates[1]` is truthy
   * (present and non-zero), and "Unknown" otherwise.
   */
  function AreaLabel(f: Feature): JsValue
  {
    var raw := RawArea(f.properties);
    if !Truthy(raw) || raw == Str("null") then
      match Coordinate(f, 1)
      case Some(lat) => if lat != 0.0 then Str(LatitudeBand(lat)) else Str("Unknown")
      case None => Str("Unknown")
    else raw
  }

  /** `String(district).trim()`: the key the feature is counted under. */
  function AreaKey(f: Feature): string
  {
    Trim(JsString(AreaLabel(f)))
  }

  /**
   * The key of a feature with a usable property: the first truthy of
   * district, ward and beat, trimmed, as long as it is not the text "null".
   */
  lemma AreaKeyFromProperties(f: Feature)
    ensures var p := f.properties;
            Truthy(p.district) && p.district != Str("null") ==> AreaKey(f) == Trim(JsString(p.district))
    ensures var p := f.properties;
            !Truthy(p.district) && Truthy(p.ward) && p.ward != Str("null") ==> AreaKey(f) == Trim(JsString(p.ward))
    ensures var p := f.properties;
            !Truthy(p.district) && !Truthy(p.ward) && Truthy(p.beat) && p.beat != Str("null") ==>
              AreaKey(f) == Trim(JsString(p.beat))
  {
  }

  /**
   * Without a usable property the key is the latitude band when a non-zero
   * latitude is present, and "Unknown" otherwise; neither is changed by the
   * trim.
   */
  lemma AreaKeyFallback(f: Feature)
    requires !Truthy(RawArea(f.properties)) || RawArea(f.properties) == Str("null")
    ensures Coordinate(f, 1).Some? && Coordinate(f, 1).value != 0.0 ==> AreaKey(f) == LatitudeBand(Coordinate(f, 1).value)
    ensures (Coordinate(f, 1).None? || Coordinate(f, 1).value == 0.0) ==> AreaKey(f) == "Unknown"
  {
    var lat := Coordinate(f, 1);
    if lat.Some? && lat.value != 0.0 {
      var band := LatitudeBand(lat.value);
      assert AreaLabel(f) == Str(band);
      assert band[0] == 'D';
      TrimKeepsClean(band);
    } else {
      assert AreaLabel(f) == Str("Unknown");
      assert !IsJsSpace("Unknown"[0]) && !IsJsSpace("Unknown"[6]);
      TrimKeepsClean("Unknown");
    }
  }

  /**
   * The district "null" is truthy, so `||` stops there and the ward is never
   * consulted: the feature falls back to its latitude band even when it has
   * a ward.
   */
  lemma NullDistrictIgnoresWard(f: Feature, g: Feature)
    requires f.properties.district == Str("null") && g.properties.district == Str("null")
    requires f.coordinates == g.coordinates
    ensures AreaKey(f) == AreaKey(g)
  {
    assert RawArea(f.properties) == RawArea(g.properties);
    assert AreaLabel(f) == AreaLabel(g);
  }

  /**
   * Trimming comes after selection: a district of white space only is
   * truthy, is selected, and is counted under the empty key.
   */
  lemma BlankDistrictBecomesEmptyKey(f: Feature, s: string)
    requires f.properties.district == Str(s) && s != ""
    requires forall i :: 0 <= i < |s| ==> IsJsSpace(s[i])
    ensures AreaKey(f) == ""
  {
    assert IsJsSpace(s[0]) && !IsJsSpace("null"[0]);
    TrimAllSpace(s);
  }

  // ---------------------------------------------------------- spatial binning

  datatype District = District(name: string, count: nat, percentage: real)

  function DistrictCount(d: District): int { d.count }

  function DistrictPercentage(d: District): real { d.percentage }

  datatype SpatialData = SpatialData(districts: seq<District>, totalCrimes: nat)

  const MaxDistricts := 10

  /** The key of every feature under `key`, in feature order. */
  function KeysBy(features: seq<Feature>, key: Feature -> string): (keys: seq<string>)
    ensures |keys| == |features|
    ensures forall i :: 0 <= i < |features| ==> keys[i] == key(features[i])
  {
    if features == [] then [] else KeysBy(features[..|features| - 1], key) + [key(features[|features| - 1])]
  }

  /** The area key of every feature, in feature order. */
  function AreaKeys(features: seq<Feature>): (keys: seq<string>)
    ensures |keys| == |features|
  {
    KeysBy(features, AreaKey)
  }

  /** The Map's entries in insertion order, with `count / total * 100` as percentage. */
  function Entries(order: seq<string>, keys: seq<string>, total: nat): (es: seq<District>)
    requires total > 0
    ensures |es| == |order|
    ensures forall i :: 0 <= i < |order| ==>
              es[i] == District(order[i], Occurrences(keys, order[i]),
                                Occurrences(keys, order[i]) as real / total as real * 100.0)
  {
    seq(|order|, i requires 0 <= i < |order| =>
      District(order[i], Occurrences(keys, order[i]), Occurrences(keys, order[i]) as real / total as real * 100.0))
  }

  function Top<T>(s: seq<T>, n: nat): (r: seq<T>)
    ensures |r| == if |s| < n then |s| else n
    ensures r == s[..|r|]
  {
    s[..if |s| < n then |s| else n]
  }

  /**
   * `processedSpatialData`: `null` for no features; otherwise the Map's
   * entries sorted by count (stably) and cut to the first ten, with the
   * number of features as the total.
   */
  function SpatialSummary(features: seq<Feature>): (r: Option<SpatialData>)
    ensures r.None? <==> features == []
    ensures r.Some? ==> r.value.totalCrimes == |features|
    ensures r.Some? ==> 1 <= |r.value.districts| <= MaxDistricts
    ensures var n := |FirstSeen(AreaKeys(features))|;
            r.Some? ==> |r.value.districts| == (if n < MaxDistricts then n else MaxDistricts)
    ensures r.Some? ==> SortedDesc(r.value.districts, DistrictCount)
  {
    if features == [] then None
    else
      var keys := AreaKeys(features);
      assert keys[0] in keys;
      var sorted := SortDescBy(Entries(FirstSeen(keys), keys, |features|), DistrictCount);
      Some(SpatialData(Top(sorted, MaxDistricts), |features|))
  }

  /** The counts of a Map filled from `keys`: one more for a key at each occurrence. */
  function Tally(keys: seq<string>): map<string, nat>
  {
    if keys == [] then map[]
    else
      var m := Tally(keys[..|keys| - 1]);
      var x := keys[|keys| - 1];
      m[x := (if x in m then m[x] else 0) + 1]
  }

  /** The Map holds exactly the keys seen, each with its number of occurrences. */
  lemma {:induction false} TallyCounts(keys: seq<string>)
    ensures forall k :: k in Tally(keys) <==> k in keys
    ensures forall k :: k in Tally(keys) ==> Tally(keys)[k] == Occurrences(keys, k)
  {
    if keys != [] {
      var init := keys[..|keys| - 1];
      var x := keys[|keys| - 1];
      assert keys == init + [x];
      TallyCounts(init);
      forall k ensures k in Tally(keys) ==> Tally(keys)[k] == Occurrences(keys, k) {
        OccurrencesSnoc(init, x, k);
        if k == x && x !in init {
          OccurrencesPositive(init, x);
        }
      }
    }
  }

  /** One more key: the Map and the insertion order grow together. */
  lemma TallySnoc(prev: seq<string>, k: string)
    ensures k in Tally(prev) <==> k in FirstSeen(prev)
    ensures Tally(prev + [k]) == Tally(prev)[k := (if k in Tally(prev) then Tally(prev)[k] else 0) + 1]
    ensures FirstSeen(prev + [k]) == if k in FirstSeen(prev) then FirstSeen(prev) else FirstSeen(prev) + [k]
  {
    TallyStep(prev, k);
    FirstSeenSnoc(prev, k);
    TallyHas(prev, k);
  }

  lemma TallyStep(prev: seq<string>, k: string)
    ensures Tally(prev + [k]) == Tally(prev)[k := (if k in Tally(prev) then Tally(prev)[k] else 0) + 1]
  {
    assert (prev + [k])[..|prev|] == prev;
  }

  lemma TallyHas(keys: seq<string>, k: string)
    ensures k in Tally(keys) <==> k in keys
  {
    TallyCounts(keys);
  }

  /**
   * The `forEach` over the features that fills the Map: a key seen for the
   * first time is inserted with count 0, and every feature then increments
   * its key's count. The key function is `AreaKey` at the one call site.
   */
  method CountAreas(features: seq<Feature>, key: Feature -> string) returns (order: seq<string>, counts: map<string, nat>)
    ensures order == FirstSeen(KeysBy(features, key))
    ensures forall k :: k in counts <==> k in order
    ensures forall k :: k in counts ==> counts[k] == Occurrences(KeysBy(features, key), k)
  {
    order := [];
    counts := map[];
    ghost var keys := KeysBy(features, key);
    ghost var seen: seq<string> := [];
    var i := 0;
    while i < |features|
      invariant 0 <= i <= |features|
      invariant seen == keys[..i]
      invariant order == FirstSeen(seen)
      invariant counts == Tally(seen)
    {
      var k := key(features[i]);
      TallySnoc(seen, k);
      if k !in counts {
        order := order + [k];
        counts := counts[k := 0];
        UpdateTwice(Tally(seen), k, 0, 1);
      }
      counts := counts[k := counts[k] + 1];
      PrefixSnoc(keys, i);
      seen := seen + [k];
      i := i + 1;
    }
    assert seen == keys;
    TallyMatchesOrder(seen);
  }

  lemma UpdateTwice<K, V>(m: map<K, V>, k: K, a: V, b: V)
    ensures m[k := a][k := b] == m[k := b]
  {
  }

  lemma TallyMatchesOrder(keys: seq<string>)
    ensures forall k :: k in Tally(keys) <==> k in FirstSeen(keys)
    ensures forall k :: k in Tally(keys) ==> Tally(keys)[k] == Occurrences(keys, k)
  {
    TallyCounts(keys);
  }

  /**
   * `processedSpatialData`: `null` for no features; otherwise the Map is
   * filled, its entries are mapped to name, count and percentage, sorted by
   * count and cut to ten.
   */
  method ProcessSpatialData(features: seq<Feature>) returns (r: Option<SpatialData>)
    ensures r == SpatialSummary(features)
  {
    if |features| == 0 {
      return None;
    }
    var order, counts := CountAreas(features, AreaKey);
    var total := |features|;
    var entries := seq(|order|, j requires 0 <= j < |order| =>
      District(order[j], counts[order[j]], counts[order[j]] as real / total as real * 100.0));
    ghost var keys := AreaKeys(features);
    forall j | 0 <= j < |order| ensures entries[j] == Entries(order, keys, total)[j] {
      assert order[j] in counts;
    }
    assert entries == Entries(order, keys, total);
    assert SpatialSummary(features) == Some(SpatialData(Top(SortDescBy(entries, DistrictCount), MaxDistricts), total));
    var sorted := SortDescBy(entries, DistrictCount);
    r := Some(SpatialData(Top(sorted, MaxDistricts), total));
  }

  /** Sum of the Map's counts over the keys in `order`. */
  function TotalOcc(order: seq<string>, keys: seq<string>): int
  {
    if order == [] then 0 else TotalOcc(order[..|order| - 1], keys) + Occurrences(keys, order[|order| - 1])
  }

  lemma {:induction false} TotalOccSnoc(order: seq<string>, keys: seq<string>, x: string)
    requires Distinct(order)
    ensures TotalOcc(order, keys + [x]) == TotalOcc(order, keys) + (if x in order then 1 else 0)
  {
    if order != [] {
      var init := order[..|order| - 1];
      var last := order[|order| - 1];
      assert order == init + [last];
      TotalOccSnoc(init, keys, x);
      assert (keys + [x])[..|keys|] == keys;
      assert x in order <==> x in init || x == last;
      assert last !in init;
    }
  }

  /** Every feature is counted under exactly one key. */
  lemma {:induction false} TotalOccFirstSeen(keys: seq<string>)
    ensures TotalOcc(FirstSeen(keys), keys) == |keys|
  {
    if keys != [] {
      var init := keys[..|keys| - 1];
      var x := keys[|keys| - 1];
      assert keys == init + [x];
      var o := FirstSeen(init);
      TotalOccFirstSeen(init);
      TotalOccSnoc(o, init, x);
      if x !in o {
        OccurrencesPositive(init, x);
        assert (o + [x])[..|o|] == o;
      }
    }
  }

  lemma {:induction false} EntriesSum(order: seq<string>, keys: seq<string>, total: nat)
    requires total > 0
    ensures SumOf(Entries(order, keys, total), DistrictCount) == TotalOcc(order, keys)
  {
    if order != [] {
      var es := Entries(order, keys, total);
      assert es[..|es| - 1] == Entries(order[..|order| - 1], keys, total);
      EntriesSum(order[..|order| - 1], keys, total);
    }
  }

  /**
   * Before the cut, the Map's counts add up to the number of features, which
   * is also the reported total.
   */
  lemma SpatialCountsAddUp(features: seq<Feature>)
    requires features != []
    ensures var keys := AreaKeys(features);
            SumOf(Entries(FirstSeen(keys), keys, |features|), DistrictCount) == |features|
  {
    var keys := AreaKeys(features);
    EntriesSum(FirstSeen(keys), keys, |features|);
    TotalOccFirstSeen(keys);
  }

  /**
   * Every listed area is one of the Map's entries: a key some feature has,
   * with its number of features (at least one) and `count / total * 100`.
   */
  lemma SpatialEntriesFromMap(features: seq<Feature>)
    requires features != []
    ensures var keys := AreaKeys(features);
            var ds := SpatialSummary(features).value.districts;
            forall d :: d in ds ==>
              && d.name in keys
              && d.count == Occurrences(keys, d.name) >= 1
              && d.percentage == d.count as real / |features| as real * 100.0
  {
    var keys := AreaKeys(features);
    var order := FirstSeen(keys);
    var entries := Entries(order, keys, |features|);
    var sorted := SortDescBy(entries, DistrictCount);
    var ds := SpatialSummary(features).value.districts;
    forall d | d in ds
      ensures d.name in keys && d.count == Occurrences(keys, d.name) >= 1
      ensures d.percentage == d.count as real / |features| as real * 100.0
    {
      assert d in sorted;
      assert d in multiset(entries);
      var j :| 0 <= j < |entries| && entries[j] == d;
      OccurrencesPositive(keys, order[j]);
    }
  }

  function Rank(order: seq<string>, name: string): int
  {
    if name in order then IndexOf(order, name) else |order|
  }

  lemma IndexOfDistinct<T>(s: seq<T>, i: nat)
    requires Distinct(s) && i < |s|
    ensures IndexOf(s, s[i]) == i
  {
  }

  /** Position of an entry's name in the Map's insertion order. */
  function NameRank(order: seq<string>): District -> int
  {
    (d: District) => Rank(order, d.name)
  }

  lemma SortedEntriesStable(order: seq<string>, keys: seq<string>, total: nat)
    requires total > 0 && Distinct(order)
    ensures LexSorted(SortDescBy(Entries(order, keys, total), DistrictCount), DistrictCount, NameRank(order))
  {
    var entries := Entries(order, keys, total);
    forall i, j | 0 <= i < j < |entries| ensures NameRank(order)(entries[i]) < NameRank(order)(entries[j]) {
      IndexOfDistinct(order, i);
      IndexOfDistinct(order, j);
    }
    SortIsStable(entries, DistrictCount, NameRank(order));
  }

  /**
   * Equal counts keep the order in which their keys were first inserted into
   * the Map, because `Array.prototype.sort` is stable.
   */
  lemma SpatialTiesKeepFirstSeen(features: seq<Feature>)
    requires features != []
    ensures var keys := AreaKeys(features);
            var order := FirstSeen(keys);
            var ds := SpatialSummary(features).value.districts;
            forall i, j :: 0 <= i < j < |ds| && ds[i].count == ds[j].count ==>
              ds[i].name in order && ds[j].name in order &&
              IndexOf(order, ds[i].name) < IndexOf(order, ds[j].name)
  {
    var keys := AreaKeys(features);
    var order := FirstSeen(keys);
    var sorted := SortDescBy(Entries(order, keys, |features|), DistrictCount);
    SortedEntriesStable(order, keys, |features|);
    var ds := SpatialSummary(features).value.districts;
    assert ds == sorted[..|ds|];
    SpatialEntriesFromMap(features);
    forall i, j | 0 <= i < j < |ds| && ds[i].count == ds[j].count
      ensures ds[i].name in order && ds[j].name in order && IndexOf(order, ds[i].name) < IndexOf(order, ds[j].name)
    {
      assert ds[i] == sorted[i] && ds[j] == sorted[j];
      assert ds[i] in ds && ds[j] in ds;
      assert NameRank(order)(sorted[i]) < NameRank(order)(sorted[j]);
    }
  }

  /**
   * The cut keeps the busiest areas: an area left off the list has no more
   * features than any area on it.
   */
  lemma SpatialKeepsBusiest(features: seq<Feature>)
    requires features != []
    ensures var keys := AreaKeys(features);
            var ds := SpatialSummary(features).value.districts;
            forall k, i :: k in keys && (forall t :: 0 <= t < |ds| ==> ds[t].name != k) && 0 <= i < |ds| ==>
              ds[i].count >= Occurrences(keys, k)
  {
    var keys := AreaKeys(features);
    var order := FirstSeen(keys);
    var entries := Entries(order, keys, |features|);
    var ds := SpatialSummary(features).value.districts;
    SpatialSummaryUnfold(features);
    forall k | k in keys && (forall t :: 0 <= t < |ds| ==> ds[t].name != k)
      ensures forall i :: 0 <= i < |ds| ==> ds[i].count >= Occurrences(keys, k)
    {
      assert k in order;
      var j := IndexOf(order, k);
      var x := entries[j];
      assert x.name == k && x.count == Occurrences(keys, k);
      var sorted := SortDescBy(entries, DistrictCount);
      forall t | 0 <= t < |ds| ensures sorted[t].name != x.name {
        assert ds[t] == sorted[t];
      }
      LeftOutIsSmaller(entries, |ds|, x);
    }
  }

  lemma SpatialSummaryUnfold(features: seq<Feature>)
    requires features != []
    ensures var keys := AreaKeys(features);
            var ds := SpatialSummary(features).value.districts;
            ds == SortDescBy(Entries(FirstSeen(keys), keys, |features|), DistrictCount)[..|ds|]
  {
  }

  /** No area is listed twice. */
  lemma SpatialNamesDistinct(features: seq<Feature>)
    requires features != []
    ensures var ds := SpatialSummary(features).value.districts;
            forall i, j :: 0 <= i < j < |ds| ==> ds[i].name != ds[j].name
  {
    var keys := AreaKeys(features);
    var order := FirstSeen(keys);
    var sorted := SortDescBy(Entries(order, keys, |features|), DistrictCount);
    SortedEntriesStable(order, keys, |features|);
    var ds := SpatialSummary(features).value.districts;
    SpatialSummaryUnfold(features);
    SpatialEntriesFromMap(features);
    forall i, j | 0 <= i < j < |ds| ensures ds[i].name != ds[j].name {
      assert ds[i] == sorted[i] && ds[j] == sorted[j];
      assert ds[i] in ds && ds[j] in ds;
    }
  }

  /** Inserting into a sorted list adds the element's term to any sum over it. */
  lemma {:induction false} InsertKeepsRealSum<T>(x: T, t: seq<T>, key: T -> int, f: T -> real)
    requires SortedDesc(t, key)
    ensures SumOfReal(Insert(x, t, key), f) == f(x) + SumOfReal(t, f)
  {
    if t == [] || key(t[0]) <= key(x) {
      SumOfRealCons(x, t, f);
    } else {
      var h, tail := t[0], t[1..];
      SortedTail(t, key);
      InsertKeepsRealSum(x, tail, key, f);
      var r' := Insert(x, tail, key);
      assert Insert(x, t, key) == [h] + r';
      ConsSumStep(h, r', tail, f, f(x));
      assert t == [h] + tail;
    }
  }

  lemma SortedTail<T>(t: seq<T>, key: T -> int)
    requires t != [] && SortedDesc(t, key)
    ensures SortedDesc(t[1..], key)
  {
    forall i, j | 0 <= i < j < |t| - 1 ensures key(t[1..][i]) >= key(t[1..][j]) {
      assert t[1..][i] == t[i + 1] && t[1..][j] == t[j + 1];
    }
  }

  /** Putting the same element in front of two sequences keeps the difference of their sums. */
  lemma ConsSumStep<T>(h: T, a: seq<T>, b: seq<T>, f: T -> real, c: real)
    requires SumOfReal(a, f) == c + SumOfReal(b, f)
    ensures SumOfReal([h] + a, f) == c + SumOfReal([h] + b, f)
  {
    SumOfRealCons(h, a, f);
    SumOfRealCons(h, b, f);
  }

  /** Sorting does not change a sum. */
  lemma {:induction false} SortKeepsRealSum<T>(s: seq<T>, key: T -> int, f: T -> real)
    ensures SumOfReal(SortDescBy(s, key), f) == SumOfReal(s, f)
  {
    if s != [] {
      var x, rest := s[0], s[1..];
      SortKeepsRealSum(rest, key, f);
      InsertSumStep(x, rest, SortDescBy(rest, key), SortDescBy(s, key), key, f);
      assert s == [x] + rest;
    }
  }

  lemma InsertSumStep<T>(x: T, rest: seq<T>, t: seq<T>, r: seq<T>, key: T -> int, f: T -> real)
    requires SortedDesc(t, key) && r == Insert(x, t, key)
    requires SumOfReal(t, f) == SumOfReal(rest, f)
    ensures SumOfReal(r, f) == SumOfReal([x] + rest, f)
  {
    InsertKeepsRealSum(x, t, key, f);
    SumOfRealCons(x, rest, f);
  }

  lemma {:induction false} EntriesPercentSum(order: seq<string>, keys: seq<string>, total: nat)
    requires total > 0
    ensures SumOfReal(Entries(order, keys, total), DistrictPercentage) ==
            TotalOcc(order, keys) as real / total as real * 100.0
  {
    if order != [] {
      var es := Entries(order, keys, total);
      var init := order[..|order| - 1];
      assert es[..|es| - 1] == Entries(init, keys, total);
      EntriesPercentSum(init, keys, total);
      var a := TotalOcc(init, keys) as real;
      var b := Occurrences(keys, order[|order| - 1]) as real;
      var t := total as real;
      QuotientSum(a, b, t);
    }
  }

  /** Entries covering every feature have percentages adding up to 100, in any order the sort gives. */
  lemma SortedPercentSum(order: seq<string>, keys: seq<string>, total: nat)
    requires total > 0 && TotalOcc(order, keys) == total
    ensures SumOfReal(SortDescBy(Entries(order, keys, total), DistrictCount), DistrictPercentage) == 100.0
  {
    var entries := Entries(order, keys, total);
    SortKeepsRealSum(entries, DistrictCount, DistrictPercentage);
    EntriesPercentSum(order, keys, total);
    var n := total as real;
    assert SumOfReal(entries, DistrictPercentage) == n / n * 100.0;
    QuotientBounds(n, n, 1.0, 1.0);
  }

  /**
   * With at most ten areas nothing is cut, and the listed percentages add up
   * to 100.
   */
  lemma SpatialPercentagesAddUp(features: seq<Feature>)
    requires features != [] && |FirstSeen(AreaKeys(features))| <= MaxDistricts
    ensures SumOfReal(SpatialSummary(features).value.districts, DistrictPercentage) == 100.0
  {
    var keys := AreaKeys(features);
    var sorted := SortDescBy(Entries(FirstSeen(keys), keys, |features|), DistrictCount);
    var ds := SpatialSummary(features).value.districts;
    SpatialSummaryUnfold(features);
    assert |ds| == |sorted|;
    assert ds == sorted;
    TotalOccFirstSeen(keys);
    SortedPercentSum(FirstSeen(keys), keys, |features|);
  }

  /** An entry missing from a prefix of the sorted list counts no more than anything in that prefix. */
  lemma LeftOutIsSmaller(entries: seq<District>, n: nat, x: District)
    requires n <= |entries| && x in entries
    requires forall t :: 0 <= t < n ==> SortDescBy(entries, DistrictCount)[t].name != x.name
    ensures forall i :: 0 <= i < n ==> SortDescBy(entries, DistrictCount)[i].count >= x.count
  {
    var prefix := SortDescBy(entries, DistrictCount)[..n];
    assert x !in prefix;
    assert x in multiset(entries);
    assert multiset(prefix)[x] == 0;
    PrefixHoldsLargest(entries, DistrictCount, n, x);
  }

  // ---------------------------------------------------------- bars and pie

  /**
   * The bar widths of the area list: each count against the first (largest)
   * count, times 100. The division is not guarded.
   */
  function BarWidths(ds: seq<District>): (ws: seq<JsNumber>)
    ensures |ws| == |ds|
  {
    if ds == [] then []
    else seq(|ds|, i requires 0 <= i < |ds| => JsScale(JsDivide(ds[i].count as real, ds[0].count as real), 100.0))
  }

  /**
   * With the largest count first and every count at least one, every bar is
   * a finite width in (0, 100] and the first bar is full.
   */
  lemma BarWidthsInRange(ds: seq<District>)
    requires ds != []
    requires forall i :: 0 <= i < |ds| ==> 1 <= ds[i].count <= ds[0].count
    ensures var ws := BarWidths(ds);
            ws[0] == Finite(100.0) &&
            forall i :: 0 <= i < |ws| ==> ws[i].Finite? && 0.0 < ws[i].v <= 100.0
  {
    var top := ds[0].count as real;
    var ws := BarWidths(ds);
    forall i | 0 <= i < |ds| ensures ws[i].Finite? && 0.0 < ws[i].v <= 100.0 {
      var c := ds[i].count as real;
      QuotientBounds(c, top, 0.0, 1.0);
      var q := c / top;
      assert q * top == c;
      assert ws[i] == Finite(q * 100.0);
    }
    QuotientBounds(top, top, 1.0, 1.0);
  }

  /** On a spatial summary the conditions hold: the list is sorted and every area has a feature. */
  lemma BarWidthsOfSummary(features: seq<Feature>)
    requires features != []
    ensures var ws := BarWidths(SpatialSummary(features).value.districts);
            ws[0] == Finite(100.0) &&
            forall i :: 0 <= i < |ws| ==> ws[i].Finite? && 0.0 < ws[i].v <= 100.0
  {
    var ds := SpatialSummary(features).value.districts;
    SpatialEntriesFromMap(features);
    forall i | 0 <= i < |ds| ensures 1 <= ds[i].count <= ds[0].count {
      assert ds[i] in ds;
      assert DistrictCount(ds[0]) >= DistrictCount(ds[i]);
    }
    BarWidthsInRange(ds);
  }

  const AnalysisMaxTypes := 7

  /**
   * The crime-type pie on the patterns tab: the same grouping as the pie
   * component, with seven slices at most.
   */
  function CrimeTypePie(crimeTypes: seq<CategoryCount>): (r: CrimeTypeDistribution.Distribution)
    ensures r.NoData? <==> crimeTypes == []
    ensures r.Pie? ==> |r.slices| == (if |crimeTypes| <= AnalysisMaxTypes then |crimeTypes| else AnalysisMaxTypes)
    ensures r.Pie? && |crimeTypes| <= AnalysisMaxTypes ==> r.slices == crimeTypes
    ensures r.Pie? && |crimeTypes| > AnalysisMaxTypes ==>
              r.slices[..AnalysisMaxTypes - 1] == crimeTypes[..AnalysisMaxTypes - 1] &&
              r.slices[AnalysisMaxTypes - 1].crimeType == "Others"
    ensures r.Pie? ==> r.totalCrimes == SumOf(crimeTypes, CountOf) == SumOf(r.slices, CountOf)
  {
    CrimeTypeDistribution.Distribute(crimeTypes, AnalysisMaxTypes)
  }

  // ---------------------------------------------------------------- metrics

  /**
   * What `calculateMetrics` returns: the placeholders while the first load
   * is running, or the four headline values.
   */
  datatype Metrics =
    | Placeholder
    | Ready(crimeRateChange: Fixed1, peakHour: int, peakHourFormatted: string, hotspotCount: nat, riskLevel: string)

  /** The exact value behind `crimeRateChange`: the net share of rising series, scaled to [-50, 50]. */
  function RateChange(trends: seq<TrendLabel>): (x: real)
    requires trends != []
    ensures -50.0 <= x <= 50.0
  {
    var n := |trends|;
    var inc := Occurrences(trends, Increasing);
    OccurrencesAtMost(trends, Increasing);
    var q := (inc - (n - inc)) as real / n as real;
    QuotientBounds((inc - (n - inc)) as real, n as real, -1.0, 1.0);
    q * 50.0
  }

  lemma {:induction false} OccurrencesAtMost<T>(s: seq<T>, x: T)
    ensures Occurrences(s, x) <= |s|
  {
    if s != [] {
      OccurrencesAtMost(s[..|s| - 1], x);
    }
  }

  function CalculateMetrics(loading: bool, trends: seq<TrendLabel>, peakHours: Option<seq<int>>,
                            risk: Option<RiskAssessment>): (m: Metrics)
    ensures m.Placeholder? <==> loading && trends == []
    ensures m.Ready? ==>
      && (trends == [] ==> m.crimeRateChange == Fixed1(false, 0))
      && (trends != [] ==> -0.05 <= ValueOf(m.crimeRateChange) - RateChange(trends) <= 0.05)
      && m.crimeRateChange.tenths <= 500
      && m.peakHour == (if peakHours.Some? && peakHours.value != [] then peakHours.value[0] else 0)
      && m.peakHourFormatted == IntToString(m.peakHour) + ":00"
      && m.hotspotCount == (if risk.Some? then |risk.value.highRiskAreas| else 0)
      && m.riskLevel == (if risk.Some? && risk.value.overallRisk != "" then risk.value.overallRisk else "N/A")
  {
    if loading && trends == [] then Placeholder
    else
      var change := if trends == [] then Fixed1(false, 0) else ToFixed1(RateChange(trends));
      var peakHour := match peakHours
        case Some(hs) => if hs != [] then hs[0] else 0
        case None => 0;
      var hotspots := match risk
        case Some(ra) => |ra.highRiskAreas|
        case None => 0;
      var level := match risk
        case Some(ra) => if ra.overallRisk != "" then ra.overallRisk else "N/A"
        case None => "N/A";
      Ready(change, peakHour, IntToString(peakHour) + ":00", hotspots, level)
  }

  /** All series rising reads "50.0"; none rising reads "-50.0". */
  lemma RateChangeExtremes(trends: seq<TrendLabel>)
    requires trends != []
    ensures (forall i :: 0 <= i < |trends| ==> trends[i] == Increasing) ==> RateChange(trends) == 50.0
    ensures (forall i :: 0 <= i < |trends| ==> trends[i] != Increasing) ==> RateChange(trends) == -50.0
  {
    if forall i :: 0 <= i < |trends| ==> trends[i] == Increasing {
      AllOccurrences(trends, Increasing);
      RateChangeOfCount(trends, |trends|);
    }
    if forall i :: 0 <= i < |trends| ==> trends[i] != Increasing {
      OccurrencesPositive(trends, Increasing);
      RateChangeOfCount(trends, 0);
    }
  }

  /** The rate change when `inc` of the series are rising, at the two ends of the range. */
  lemma RateChangeOfCount(trends: seq<TrendLabel>, inc: int)
    requires trends != [] && inc == Occurrences(trends, Increasing)
    ensures inc == |trends| ==> RateChange(trends) == 50.0
    ensures inc == 0 ==> RateChange(trends) == -50.0
  {
    var n := |trends|;
    assert RateChange(trends) == (inc - (n - inc)) as real / n as real * 50.0;
    if inc == n {
      assert (inc - (n - inc)) as real == n as real;
    }
    if inc == 0 {
      assert (inc - (n - inc)) as real == -(n as real);
    }
  }

  lemma {:induction false} AllOccurrences<T>(s: seq<T>, x: T)
    requires forall i :: 0 <= i < |s| ==> s[i] == x
    ensures Occurrences(s, x) == |s|
  {
    if s != [] {
      AllOccurrences(s[..|s| - 1], x);
    }
  }

  /** A 'stable' series weighs exactly like a 'decreasing' one. */
  lemma SteadyCountsAsNotRising(trends: seq<TrendLabel>)
    ensures RateChange(trends + [Steady]) == RateChange(trends + [Decreasing])
  {
    assert (trends + [Steady])[..|trends|] == trends;
    assert (trends + [Decreasing])[..|trends|] == trends;
  }

  // ---------------------------------------------------------- forecast summary

  datatype ForecastSummary = ForecastSummary(avgConfidence: int, trendDirection: Step)

  function ConfidenceOf(p: ForecastPoint): int { p.confidence }

  /**
   * The forecast tab's summary cards: nothing for an empty forecast,
   * otherwise the rounded mean confidence and the last day's trend.
   */
  function SummarizeForecast(forecast: seq<ForecastPoint>): (r: Option<ForecastSummary>)
    ensures r.None? <==> forecast == []
    ensures r.Some? ==>
      && r.value.trendDirection == forecast[|forecast| - 1].trend
      && var mean := SumOf(forecast, ConfidenceOf) as real / |forecast| as real;
         mean - 0.5 < r.value.avgConfidence as real <= mean + 0.5
  {
    if forecast == [] then None
    else
      var mean := SumOf(forecast, ConfidenceOf) as real / |forecast| as real;
      Some(ForecastSummary(JsRound(mean), forecast[|forecast| - 1].trend))
  }

  /** Confidences inside a band average to a rounded value inside the same band. */
  lemma AverageConfidenceInBand(forecast: seq<ForecastPoint>, lo: int, hi: int)
    requires forecast != []
    requires forall i :: 0 <= i < |forecast| ==> lo <= forecast[i].confidence <= hi
    ensures lo <= SummarizeForecast(forecast).value.avgConfidence <= hi
  {
    var n := |forecast|;
    SumOfBounds(forecast, ConfidenceOf, lo, hi);
    var s := SumOf(forecast, ConfidenceOf);
    QuotientBounds(s as real, n as real, lo as real, hi as real);
  }
}
