/**
 * The crime-type pie chart: the long tail of the crime-type summary is folded
 * into one "Others" slice so that at most `maxTypes` slices are drawn.
 */
module CrimeTypeDistribution {
  import opened Common
  import opened ApiTypes

  /** Default for the component's `maxTypes` property. */
  const DefaultMaxTypes := 7

  /**
   * The slices drawn. Up to `maxTypes` entries pass through unchanged;
   * beyond that the first `maxTypes - 1` stay and one "Others" entry carries
   * the summed count and the summed (not recomputed) percentage of the rest.
   * The component does not guard `maxTypes <= 0`, where `slice` with a negative
   * index would keep a different set; this model requires `maxTypes >= 1`.
   */
  function GroupOthers(data: seq<CategoryCount>, maxTypes: int): (r: seq<CategoryCount>)
    requires maxTypes >= 1
    ensures |data| <= maxTypes ==> r == data
    ensures |data| > maxTypes ==>
      && |r| == maxTypes
      && r[..maxTypes - 1] == data[..maxTypes - 1]
      && r[maxTypes - 1] == CategoryCount("Others", SumOf(data[maxTypes - 1..], CountOf),
                                          SumOfReal(data[maxTypes - 1..], PercentageOf))
  {
    if |data| > maxTypes then
      var topTypes := data[..maxTypes - 1];
      var otherTypes := data[maxTypes - 1..];
      topTypes + [CategoryCount("Others", SumOf(otherTypes, CountOf), SumOfReal(otherTypes, PercentageOf))]
    else
      data
  }

  /** The output never has more than `maxTypes` slices, and exactly `min(|data|, maxTypes)`. */
  lemma GroupOthersLength(data: seq<CategoryCount>, maxTypes: int)
    requires maxTypes >= 1
    ensures |GroupOthers(data, maxTypes)| == if |data| <= maxTypes then |data| else maxTypes
    ensures |GroupOthers(data, maxTypes)| <= maxTypes
  {
  }

  /** Grouping moves counts into "Others" without losing or inventing any. */
  lemma GroupOthersPreservesCount(data: seq<CategoryCount>, maxTypes: int)
    requires maxTypes >= 1
    ensures SumOf(GroupOthers(data, maxTypes), CountOf) == SumOf(data, CountOf)
  {
    if |data| > maxTypes {
      var top := data[..maxTypes - 1];
      var rest := data[maxTypes - 1..];
      var others := CategoryCount("Others", SumOf(rest, CountOf), SumOfReal(rest, PercentageOf));
      assert data == top + rest;
      SumOfAppend(top, rest, CountOf);
      SumOfAppend(top, [others], CountOf);
      assert [others][..0] == [];
    }
  }

  /** The "Others" percentage is the plain sum of the folded percentages. */
  lemma GroupOthersPreservesPercentage(data: seq<CategoryCount>, maxTypes: int)
    requires maxTypes >= 1
    ensures SumOfReal(GroupOthers(data, maxTypes), PercentageOf) == SumOfReal(data, PercentageOf)
  {
    if |data| > maxTypes {
      var top := data[..maxTypes - 1];
      var rest := data[maxTypes - 1..];
      var others := CategoryCount("Others", SumOf(rest, CountOf), SumOfReal(rest, PercentageOf));
      assert data == top + rest;
      SumOfRealAppend(top, rest, PercentageOf);
      SumOfRealAppend(top, [others], PercentageOf);
      assert [others][..0] == [];
    }
  }

  /** What the component renders: the no-data card, or the pie and its total. */
  datatype Distribution = NoData | Pie(slices: seq<CategoryCount>, totalCrimes: int)

  /**
   * The component: empty data shows the no-data card; otherwise the grouped
   * slices are drawn and the total is summed over the ungrouped data, so the
   * drawn counts add up to the total shown.
   */
  function Distribute(data: seq<CategoryCount>, maxTypes: int): (r: Distribution)
    requires maxTypes >= 1
    ensures r.NoData? <==> data == []
    ensures r.Pie? ==> (
              && r.totalCrimes == SumOf(data, CountOf)
              && SumOf(r.slices, CountOf) == r.totalCrimes
              && 1 <= |r.slices| <= maxTypes && |r.slices| <= |data|
              && r.slices[..|r.slices| - 1] == data[..|r.slices| - 1])
  {
    if data == [] then NoData
    else
      GroupOthersPreservesCount(data, maxTypes);
      Pie(GroupOthers(data, maxTypes), SumOf(data, CountOf))
  }
}
