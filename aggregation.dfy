/**
 * The two aggregate views: mean price by district (line 72) and mean, std
 * and count of price by (bedrooms, bathrooms) (lines 83-87).
 */
module Aggregation {
  import opened Wrappers
  import opened Grouping
  import opened Stats
  import District

  datatype DistrictMean = DistrictMean(district: string, mean: Option<real>)

  function DistrictPairs(districts: seq<string>, prices: seq<Option<real>>): (ps: seq<(string, Option<real>)>)
    requires |districts| == |prices|
    ensures |ps| == |districts|
  {
    seq(|districts|, i requires 0 <= i < |districts| => (districts[i], prices[i]))
  }

  /** `groupby("Distrito")['Precio_Soles'].mean()` over the district and price columns. */
  function MeanByDistrict(districts: seq<string>, prices: seq<Option<real>>): seq<DistrictMean>
    requires |districts| == |prices|
  {
    var gs := GroupBy(DistrictPairs(districts, prices));
    seq(|gs|, i requires 0 <= i < |gs| => DistrictMean(gs[i].key, Summarize(gs[i].members).mean))
  }

  function DistrictNames(districts: seq<string>): set<string>
  {
    set i | 0 <= i < |districts| :: districts[i]
  }

  /**
   * One row per distinct district of the input, and each row's mean is the
   * mean of the prices of exactly that district's listings.
   */
  lemma MeanByDistrictSpec(districts: seq<string>, prices: seq<Option<real>>)
    requires |districts| == |prices|
    ensures var out := MeanByDistrict(districts, prices);
      && (forall i, j :: 0 <= i < j < |out| ==> out[i].district != out[j].district)
      && (set i | 0 <= i < |out| :: out[i].district) == DistrictNames(districts)
      && (forall i :: 0 <= i < |out| ==>
            out[i].mean == Summarize(Select(DistrictPairs(districts, prices), out[i].district)).mean)
  {
    var ps := DistrictPairs(districts, prices);
    GroupBySpec(ps);
    var gs := GroupBy(ps);
    var out := MeanByDistrict(districts, prices);
    assert forall i :: 0 <= i < |out| ==> out[i].district == gs[i].key;
    assert (set i | 0 <= i < |out| :: out[i].district) == GroupKeys(gs);
    assert PairKeys(ps) == DistrictNames(districts) by {
      assert forall i :: 0 <= i < |ps| ==> ps[i].0 == districts[i];
    }
  }

  /** When no input row carries the sentinel, no mean row does. */
  lemma MeanByDistrictHasNoSentinel(districts: seq<string>, prices: seq<Option<real>>)
    requires |districts| == |prices|
    requires forall i :: 0 <= i < |districts| ==> districts[i] != District.Unknown
    ensures forall i :: 0 <= i < |MeanByDistrict(districts, prices)| ==>
      MeanByDistrict(districts, prices)[i].district != District.Unknown
  {
    MeanByDistrictSpec(districts, prices);
    var out := MeanByDistrict(districts, prices);
    forall i | 0 <= i < |out| ensures out[i].district != District.Unknown {
      assert out[i].district in DistrictNames(districts);
    }
  }

  /** Every district of the input has a mean row. */
  lemma MeanByDistrictCovers(districts: seq<string>, prices: seq<Option<real>>)
    requires |districts| == |prices|
    ensures forall k :: 0 <= k < |districts| ==>
      exists j :: (0 <= j < |MeanByDistrict(districts, prices)| &&
        MeanByDistrict(districts, prices)[j].district == districts[k])
  {
    MeanByDistrictSpec(districts, prices);
    var out := MeanByDistrict(districts, prices);
    forall k | 0 <= k < |districts|
      ensures exists j :: 0 <= j < |out| && out[j].district == districts[k]
    {
      assert districts[k] in DistrictNames(districts);
    }
  }

  /** A district with a single priced listing has that listing's price as its mean. */
  lemma SingleListingDistrict(districts: seq<string>, prices: seq<Option<real>>, j: int, p: real)
    requires |districts| == |prices|
    requires 0 <= j < |districts| && prices[j] == Some(p)
    requires forall i :: 0 <= i < |districts| && i != j ==> districts[i] != districts[j]
    ensures exists i :: (0 <= i < |MeanByDistrict(districts, prices)| &&
      MeanByDistrict(districts, prices)[i] == DistrictMean(districts[j], Some(p)))
  {
    var ps := DistrictPairs(districts, prices);
    MeanByDistrictSpec(districts, prices);
    var out := MeanByDistrict(districts, prices);
    assert districts[j] in DistrictNames(districts);
    var i :| 0 <= i < |out| && out[i].district == districts[j];
    SelectSingle(ps, j);
    SummaryOfOne(p);
    assert out[i] == DistrictMean(districts[j], Some(p));
  }

  type RoomKey = (nat, real)

  datatype RoomStats = RoomStats(bedrooms: nat, baths: real, mean: Option<real>, variance: Option<real>, count: nat)

  /** The rows whose bedroom and bathroom keys are both present, keyed by that pair. */
  function KeyedRows(beds: seq<Option<nat>>, baths: seq<Option<real>>, prices: seq<Option<real>>)
    : seq<(RoomKey, Option<real>)>
    requires |beds| == |baths| == |prices|
    decreases |beds|
  {
    if beds == [] then []
    else
      var n := |beds| - 1;
      KeyedRows(beds[..n], baths[..n], prices[..n])
        + (if beds[n].Some? && baths[n].Some? then [((beds[n].value, baths[n].value), prices[n])] else [])
  }

  function Summaries(gs: seq<Group<RoomKey, Option<real>>>): (out: seq<RoomStats>)
    ensures |out| == |gs|
  {
    seq(|gs|, i requires 0 <= i < |gs| =>
      var s := Summarize(gs[i].members);
      RoomStats(gs[i].key.0, gs[i].key.1, s.mean, s.variance, s.count))
  }

  /**
   * `groupby(['Habitaciones_Num', 'Baños']).agg(mean, std, count)`; groupby
   * leaves out every row with a null key.
   */
  function StatsByRooms(beds: seq<Option<nat>>, baths: seq<Option<real>>, prices: seq<Option<real>>)
    : seq<RoomStats>
    requires |beds| == |baths| == |prices|
  {
    Summaries(GroupBy(KeyedRows(beds, baths, prices)))
  }

  function RoomKeys(beds: seq<Option<nat>>, baths: seq<Option<real>>): set<RoomKey>
    requires |beds| == |baths|
  {
    set i | 0 <= i < |beds| && beds[i].Some? && baths[i].Some? :: (beds[i].value, baths[i].value)
  }

  /** The prices of the listings with exactly b bedrooms and t bathrooms, in row order. */
  function RoomPrices(beds: seq<Option<nat>>, baths: seq<Option<real>>, prices: seq<Option<real>>, b: nat, t: real)
    : seq<Option<real>>
    requires |beds| == |baths| == |prices|
    decreases |beds|
  {
    if beds == [] then []
    else
      var n := |beds| - 1;
      RoomPrices(beds[..n], baths[..n], prices[..n], b, t)
        + (if beds[n] == Some(b) && baths[n] == Some(t) then [prices[n]] else [])
  }

  /** The rows that count towards the grouped statistics: both keys and a price present. */
  function CountedRows(beds: seq<Option<nat>>, baths: seq<Option<real>>, prices: seq<Option<real>>): set<nat>
    requires |beds| == |baths| == |prices|
  {
    set i: nat | i < |beds| && beds[i].Some? && baths[i].Some? && prices[i].Some?
  }

  function TotalCount(out: seq<RoomStats>): nat
    decreases |out|
  {
    if out == [] then 0 else TotalCount(out[..|out| - 1]) + out[|out| - 1].count
  }

  function PresentWeight(v: Option<real>): nat { if v.Some? then 1 else 0 }

  lemma {:induction false} KeyedRowsKeys(beds: seq<Option<nat>>, baths: seq<Option<real>>, prices: seq<Option<real>>)
    requires |beds| == |baths| == |prices|
    ensures PairKeys(KeyedRows(beds, baths, prices)) == RoomKeys(beds, baths)
    decreases |beds|
  {
    if beds != [] {
      var n := |beds| - 1;
      var pre := KeyedRows(beds[..n], baths[..n], prices[..n]);
      KeyedRowsKeys(beds[..n], baths[..n], prices[..n]);
      if beds[n].Some? && baths[n].Some? {
        PairKeysSnoc(pre, ((beds[n].value, baths[n].value), prices[n]));
      } else {
        assert KeyedRows(beds, baths, prices) == pre;
      }
      assert RoomKeys(beds, baths) == RoomKeys(beds[..n], baths[..n])
        + (if beds[n].Some? && baths[n].Some? then {(beds[n].value, baths[n].value)} else {}) by {
        assert forall i :: 0 <= i < n ==> beds[..n][i] == beds[i] && baths[..n][i] == baths[i];
      }
    }
  }

  /** Grouping the keyed rows by (b, t) gathers exactly the prices of the listings with that pair. */
  lemma {:induction false} KeyedRowsSelect(beds: seq<Option<nat>>, baths: seq<Option<real>>, prices: seq<Option<real>>, b: nat, t: real)
    requires |beds| == |baths| == |prices|
    ensures Select(KeyedRows(beds, baths, prices), (b, t)) == RoomPrices(beds, baths, prices, b, t)
    decreases |beds|
  {
    if beds != [] {
      var n := |beds| - 1;
      var pre := KeyedRows(beds[..n], baths[..n], prices[..n]);
      KeyedRowsSelect(beds[..n], baths[..n], prices[..n], b, t);
      if beds[n].Some? && baths[n].Some? {
        var p := ((beds[n].value, baths[n].value), prices[n]);
        assert KeyedRows(beds, baths, prices) == pre + [p];
        SelectSnoc(pre, p, (b, t));
      } else {
        assert KeyedRows(beds, baths, prices) == pre;
      }
    }
  }

  /**
   * The grouped rows: one per distinct (bedrooms, bathrooms) pair that some
   * row has with both keys present. Each row's mean, variance and count
   * summarise the prices of exactly the listings with its pair; std is
   * defined exactly when the count is at least two, and then it is the root
   * of a non-negative variance.
   */
  lemma StatsByRoomsKeys(beds: seq<Option<nat>>, baths: seq<Option<real>>, prices: seq<Option<real>>)
    requires |beds| == |baths| == |prices|
    ensures var out := StatsByRooms(beds, baths, prices);
      && (forall i, j :: 0 <= i < j < |out| ==>
            (out[i].bedrooms, out[i].baths) != (out[j].bedrooms, out[j].baths))
      && (set i | 0 <= i < |out| :: (out[i].bedrooms, out[i].baths)) == RoomKeys(beds, baths)
      && (forall i :: 0 <= i < |out| ==>
            var s := Summarize(RoomPrices(beds, baths, prices, out[i].bedrooms, out[i].baths));
            out[i].mean == s.mean && out[i].variance == s.variance && out[i].count == s.count)
      && (forall i :: 0 <= i < |out| ==> (out[i].variance.Some? <==> out[i].count >= 2))
      && (forall i :: 0 <= i < |out| && out[i].variance.Some? ==> out[i].variance.value >= 0.0)
  {
    var rows := KeyedRows(beds, baths, prices);
    GroupBySpec(rows);
    KeyedRowsKeys(beds, baths, prices);
    var gs := GroupBy(rows);
    var out := StatsByRooms(beds, baths, prices);
    assert forall i :: 0 <= i < |out| ==> (out[i].bedrooms, out[i].baths) == gs[i].key;
    assert (set i | 0 <= i < |out| :: (out[i].bedrooms, out[i].baths)) == GroupKeys(gs);
    forall i | 0 <= i < |out| ensures out[i].variance.Some? ==> out[i].variance.value >= 0.0 {
      VarianceNonNegative(gs[i].members);
    }
    forall i | 0 <= i < |out|
      ensures gs[i].members == RoomPrices(beds, baths, prices, out[i].bedrooms, out[i].baths)
    {
      KeyedRowsSelect(beds, baths, prices, out[i].bedrooms, out[i].baths);
    }
  }

  lemma {:induction false} PresentIsWeight(vs: seq<Option<real>>)
    ensures |Present(vs)| == Weight(PresentWeight, vs)
    decreases |vs|
  {
    if vs != [] {
      PresentIsWeight(vs[..|vs| - 1]);
    }
  }

  lemma {:induction false} CountsAreWeights(gs: seq<Group<RoomKey, Option<real>>>)
    ensures TotalCount(Summaries(gs)) == GroupsWeight(PresentWeight, gs)
    decreases |gs|
  {
    if gs != [] {
      var n := |gs| - 1;
      assert Summaries(gs)[..n] == Summaries(gs[..n]);
      CountsAreWeights(gs[..n]);
      PresentIsWeight(gs[n].members);
    }
  }

  lemma CountedRowsLast(beds: seq<Option<nat>>, baths: seq<Option<real>>, prices: seq<Option<real>>)
    requires |beds| == |baths| == |prices| > 0
    ensures var n := |beds| - 1;
      |CountedRows(beds, baths, prices)| == |CountedRows(beds[..n], baths[..n], prices[..n])|
        + (if beds[n].Some? && baths[n].Some? && prices[n].Some? then 1 else 0)
  {
    var n := |beds| - 1;
    var counted := CountedRows(beds, baths, prices);
    var counted0 := CountedRows(beds[..n], baths[..n], prices[..n]);
    assert n !in counted0;
    assert forall i :: 0 <= i < n ==> beds[..n][i] == beds[i] && baths[..n][i] == baths[i] && prices[..n][i] == prices[i];
    if beds[n].Some? && baths[n].Some? && prices[n].Some? {
      assert counted == counted0 + {n};
    } else {
      assert counted == counted0;
    }
  }

  lemma {:induction false} KeyedRowsWeight(beds: seq<Option<nat>>, baths: seq<Option<real>>, prices: seq<Option<real>>)
    requires |beds| == |baths| == |prices|
    ensures Weight(PresentWeight, Values(KeyedRows(beds, baths, prices))) == |CountedRows(beds, baths, prices)|
    decreases |beds|
  {
    if beds != [] {
      var n := |beds| - 1;
      var pre := KeyedRows(beds[..n], baths[..n], prices[..n]);
      KeyedRowsWeight(beds[..n], baths[..n], prices[..n]);
      CountedRowsLast(beds, baths, prices);
      if beds[n].Some? && baths[n].Some? {
        var p := ((beds[n].value, baths[n].value), prices[n]);
        assert KeyedRows(beds, baths, prices) == pre + [p];
        assert Values(pre + [p]) == Values(pre) + [prices[n]];
        WeightSnoc(PresentWeight, Values(pre), prices[n]);
      } else {
        assert KeyedRows(beds, baths, prices) == pre;
      }
    }
  }

  /**
   * The counts add up to the number of rows with both keys and a price:
   * grouping drops exactly the rows with a null key and loses no other.
   */
  lemma CountsAddUp(beds: seq<Option<nat>>, baths: seq<Option<real>>, prices: seq<Option<real>>)
    requires |beds| == |baths| == |prices|
    ensures TotalCount(StatsByRooms(beds, baths, prices)) == |CountedRows(beds, baths, prices)|
  {
    var rows := KeyedRows(beds, baths, prices);
    CountsAreWeights(GroupBy(rows));
    GroupByWeight(PresentWeight, rows);
    KeyedRowsWeight(beds, baths, prices);
  }

  lemma {:induction false} KeyedRowsPriced(beds: seq<Option<nat>>, baths: seq<Option<real>>, prices: seq<Option<real>>)
    requires |beds| == |baths| == |prices|
    requires forall i :: 0 <= i < |prices| ==> prices[i].Some?
    ensures forall j :: 0 <= j < |KeyedRows(beds, baths, prices)| ==> KeyedRows(beds, baths, prices)[j].1.Some?
    decreases |beds|
  {
    if beds != [] {
      var n := |beds| - 1;
      KeyedRowsPriced(beds[..n], baths[..n], prices[..n]);
    }
  }

  lemma {:induction false} SelectPriced<K>(pairs: seq<(K, Option<real>)>, k: K)
    requires forall j :: 0 <= j < |pairs| ==> pairs[j].1.Some?
    ensures forall j :: 0 <= j < |Select(pairs, k)| ==> Select(pairs, k)[j].Some?
    decreases |pairs|
  {
    if pairs != [] {
      SelectPriced(pairs[..|pairs| - 1], k);
    }
  }

  /** When every listing has a price, as loading guarantees, every group counts at least one listing. */
  lemma CountsPositive(beds: seq<Option<nat>>, baths: seq<Option<real>>, prices: seq<Option<real>>)
    requires |beds| == |baths| == |prices|
    requires forall i :: 0 <= i < |prices| ==> prices[i].Some?
    ensures forall i :: 0 <= i < |StatsByRooms(beds, baths, prices)| ==> StatsByRooms(beds, baths, prices)[i].count >= 1
  {
    var rows := KeyedRows(beds, baths, prices);
    GroupBySpec(rows);
    KeyedRowsPriced(beds, baths, prices);
    var gs := GroupBy(rows);
    forall i | 0 <= i < |gs| ensures |Present(gs[i].members)| >= 1 {
      SelectPriced(rows, gs[i].key);
      PresentAll(gs[i].members);
    }
  }
}
