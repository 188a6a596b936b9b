/**
 * The data frame the script threads through its steps. Loading gives the
 * rows; `asignar_distrito` writes the Distrito column in place; the sentinel
 * filter builds a new frame; lines 80-81 add Habitaciones_Num and replace
 * Baños with its numeric coercion, again in place.
 */
module Frame {
  import opened Wrappers
  import opened Numeric
  import opened Seqs
  import opened Loader
  import opened District
  import opened DigitRun
  import Aggregation

  /** A column cut by a row mask, when the frame has that column. */
  function MaskColumn<T>(column: Option<seq<T>>, keep: seq<bool>): (r: Option<seq<T>>)
    requires column.Some? ==> |column.value| == |keep|
    ensures r.Some? <==> column.Some?
  {
    match column
    case None => None
    case Some(values) => Some(Mask(values, keep))
  }

  /** `df['Distrito'] != 'Desconocido'`, row by row. */
  function KnownFlags(districts: seq<string>): (keep: seq<bool>)
    ensures |keep| == |districts|
  {
    seq(|districts|, i requires 0 <= i < |districts| => districts[i] != Unknown)
  }

  /**
   * The sentinel filter keeps, in order, exactly the rows whose district is
   * not the sentinel, and cuts every column at the same rows.
   */
  lemma DropUnknownSpec<T>(column: seq<T>, districts: seq<string>)
    requires |column| == |districts|
    ensures var keep := KnownFlags(districts);
      && Selects(Mask(column, keep), column, TrueIndices(keep))
      && Selects(Mask(districts, keep), districts, TrueIndices(keep))
      && (forall i :: 0 <= i < |districts| ==> (i in TrueIndices(keep) <==> districts[i] != Unknown))
      && (forall k :: 0 <= k < |Mask(districts, keep)| ==> Mask(districts, keep)[k] != Unknown)
  {
    var keep := KnownFlags(districts);
    MaskSelects(column, keep);
    MaskSelects(districts, keep);
    var idx := TrueIndices(keep);
    forall k | 0 <= k < |Mask(districts, keep)| ensures Mask(districts, keep)[k] != Unknown {
      assert idx[k] in idx;
    }
  }

  /** A row whose district is not the sentinel survives the filter. */
  lemma ResolvedRowKept(districts: seq<string>, i: int)
    requires 0 <= i < |districts| && districts[i] != Unknown
    ensures exists k :: (0 <= k < |Mask(districts, KnownFlags(districts))| &&
      Mask(districts, KnownFlags(districts))[k] == districts[i])
  {
    var keep := KnownFlags(districts);
    MaskSelects(districts, keep);
    var idx := TrueIndices(keep);
    assert keep[i];
    assert i in idx;
    var k :| 0 <= k < |idx| && idx[k] == i;
    assert Mask(districts, keep)[k] == districts[i];
  }

  /** Filtering keeps the loader's guarantee that every listing has a price. */
  lemma FilterKeepsPrices(rows: seq<Listing>, keep: seq<bool>)
    requires |rows| == |keep|
    requires forall i :: 0 <= i < |rows| ==> rows[i].price.Some?
    ensures forall k :: 0 <= k < |Mask(rows, keep)| ==> Mask(rows, keep)[k].price.Some?
  {
    MaskSelects(rows, keep);
  }

  /** Masking two columns of the same frame by the same flags keeps them aligned. */
  lemma MaskAligned<S, T>(xs: seq<S>, ys: seq<T>, keep: seq<bool>)
    requires |xs| == |ys| == |keep|
    ensures |Mask(xs, keep)| == |Mask(ys, keep)|
  {
    MaskSelects(xs, keep);
    MaskSelects(ys, keep);
  }

  function PriceColumn(rows: seq<Listing>): (c: seq<Option<real>>)
    ensures |c| == |rows|
  {
    seq(|rows|, i requires 0 <= i < |rows| => rows[i].price)
  }

  /** Habitaciones_Num (line 80) of the given rows. */
  function BedroomColumn(rows: seq<Listing>): (c: seq<Option<nat>>)
    ensures |c| == |rows|
  {
    seq(|rows|, i requires 0 <= i < |rows| => ExtractCount(rows[i].bedrooms))
  }

  /** The numeric Baños column (line 81) of the given rows. */
  function BathColumn(rows: seq<Listing>): (c: seq<Option<real>>)
    ensures |c| == |rows|
  {
    seq(|rows|, i requires 0 <= i < |rows| => ParseCell(rows[i].baths))
  }

  class ListingFrame {
    var rows: seq<Listing>
    /** The Distrito column, once assigned. */
    var district: Option<seq<string>>
    /** The Habitaciones_Num column, once added. */
    var bedroomsNum: Option<seq<Option<nat>>>
    /** The Baños column after numeric coercion; until then the text stays in rows. */
    var bathsNum: Option<seq<Option<real>>>

    ghost predicate Valid()
      reads this
    {
      && (district.Some? ==> |district.value| == |rows|)
      && (bedroomsNum.Some? ==> |bedroomsNum.value| == |rows|)
      && (bathsNum.Some? ==> |bathsNum.value| == |rows|)
    }

    constructor (rows: seq<Listing>)
      ensures Valid() && this.rows == rows
      ensures district.None? && bedroomsNum.None? && bathsNum.None?
    {
      this.rows := rows;
      district := None;
      bedroomsNum := None;
      bathsNum := None;
    }

    function Prices(): (prices: seq<Option<real>>)
      reads this
      ensures |prices| == |rows|
      ensures forall i :: 0 <= i < |rows| ==> prices[i] == rows[i].price
    {
      PriceColumn(rows)
    }

    /**
     * `asignar_distrito`: one lookup outcome per row, in row order; the
     * Distrito column gets one district per row and nothing else changes.
     */
    method AssignDistricts(outcomes: seq<GeoOutcome>)
      requires Valid() && |outcomes| == |rows|
      modifies this
      ensures Valid()
      ensures rows == old(rows) && bedroomsNum == old(bedroomsNum) && bathsNum == old(bathsNum)
      ensures district.Some? && |district.value| == |rows|
      ensures forall i :: 0 <= i < |rows| ==> district.value[i] == PickDistrict(outcomes[i])
      ensures district.value == ResolvedDistricts(outcomes)
    {
      var districts := ResolveDistricts(outcomes);
      district := Some(districts);
    }

    /** `df[df['Distrito'] != 'Desconocido']`: a new frame of the resolved rows. */
    method WithoutUnknown() returns (f: ListingFrame)
      requires Valid() && district.Some?
      ensures fresh(f) && f.Valid() && f.district.Some?
      ensures var keep := KnownFlags(district.value);
        && f.rows == Mask(rows, keep)
        && f.district.value == Mask(district.value, keep)
        && f.bedroomsNum == MaskColumn(bedroomsNum, keep)
        && f.bathsNum == MaskColumn(bathsNum, keep)
      ensures forall k :: 0 <= k < |f.rows| ==> f.district.value[k] != Unknown
    {
      var keep := KnownFlags(district.value);
      DropUnknownSpec(rows, district.value);
      f := new ListingFrame(Mask(rows, keep));
      f.district := Some(Mask(district.value, keep));
      f.bedroomsNum := MaskColumn(bedroomsNum, keep);
      f.bathsNum := MaskColumn(bathsNum, keep);
      if bedroomsNum.Some? {
        MaskSelects(bedroomsNum.value, keep);
      }
      if bathsNum.Some? {
        MaskSelects(bathsNum.value, keep);
      }
    }

    /** Line 80: Habitaciones_Num is the first integer in each row's bedroom text. */
    method AddBedroomCount()
      requires Valid()
      modifies this
      ensures Valid()
      ensures rows == old(rows) && district == old(district) && bathsNum == old(bathsNum)
      ensures bedroomsNum.Some? && |bedroomsNum.value| == |rows|
      ensures forall i :: 0 <= i < |rows| ==> bedroomsNum.value[i] == ExtractCount(rows[i].bedrooms)
    {
      var rs := rows;
      bedroomsNum := Some(seq(|rs|, i requires 0 <= i < |rs| => ExtractCount(rs[i].bedrooms)));
    }

    /** Line 81: Baños becomes numeric, a non-numeric cell becoming null. */
    method CoerceBaths()
      requires Valid()
      modifies this
      ensures Valid()
      ensures rows == old(rows) && district == old(district) && bedroomsNum == old(bedroomsNum)
      ensures bathsNum.Some? && |bathsNum.value| == |rows|
      ensures forall i :: 0 <= i < |rows| ==> bathsNum.value[i] == ParseCell(rows[i].baths)
    {
      var rs := rows;
      bathsNum := Some(seq(|rs|, i requires 0 <= i < |rs| => ParseCell(rs[i].baths)));
    }

    /** Line 72, over this frame's columns. */
    function DistrictMeans(): seq<Aggregation.DistrictMean>
      reads this
      requires Valid() && district.Some?
    {
      Aggregation.MeanByDistrict(district.value, Prices())
    }

    /** Lines 83-87, over this frame's columns. */
    function RoomGroups(): seq<Aggregation.RoomStats>
      reads this
      requires Valid() && bedroomsNum.Some? && bathsNum.Some?
    {
      Aggregation.StatsByRooms(bedroomsNum.value, bathsNum.value, Prices())
    }
  }

  /** The loaded listings that the sentinel filter keeps, given one lookup outcome per listing. */
  function KeptListings(raw: seq<RawRow>, outcomes: seq<GeoOutcome>): seq<Listing>
    requires |outcomes| == |Load(raw)|
  {
    Mask(Load(raw), KnownFlags(ResolvedDistricts(outcomes)))
  }

  /** The Distrito column of the kept listings. */
  function KeptDistricts(outcomes: seq<GeoOutcome>): seq<string>
  {
    var ds := ResolvedDistricts(outcomes);
    Mask(ds, KnownFlags(ds))
  }

  /** Line 72 over the kept listings: mean price per district. */
  function DistrictMeansOf(raw: seq<RawRow>, outcomes: seq<GeoOutcome>): seq<Aggregation.DistrictMean>
    requires |outcomes| == |Load(raw)|
  {
    var ds := ResolvedDistricts(outcomes);
    MaskAligned(ds, Load(raw), KnownFlags(ds));
    Aggregation.MeanByDistrict(KeptDistricts(outcomes), PriceColumn(KeptListings(raw, outcomes)))
  }

  /** Lines 80-87 over the kept listings: price statistics per (bedrooms, bathrooms). */
  function RoomGroupsOf(raw: seq<RawRow>, outcomes: seq<GeoOutcome>): seq<Aggregation.RoomStats>
    requires |outcomes| == |Load(raw)|
  {
    var kept := KeptListings(raw, outcomes);
    Aggregation.StatsByRooms(BedroomColumn(kept), BathColumn(kept), PriceColumn(kept))
  }

  /**
   * What the dashboard shows: no mean row is the sentinel, every district
   * some listing resolved to has a mean row, every group counts at least one
   * listing, and a group's std is defined exactly when it counts two or more.
   */
  lemma DashboardProperties(raw: seq<RawRow>, outcomes: seq<GeoOutcome>)
    requires |outcomes| == |Load(raw)|
    ensures var means := DistrictMeansOf(raw, outcomes);
      && (forall i :: 0 <= i < |means| ==> means[i].district != Unknown)
      && (forall i :: 0 <= i < |outcomes| && PickDistrict(outcomes[i]) != Unknown ==>
            exists j :: 0 <= j < |means| && means[j].district == PickDistrict(outcomes[i]))
    ensures var groups := RoomGroupsOf(raw, outcomes);
      && (forall i :: 0 <= i < |groups| ==> groups[i].count >= 1)
      && (forall i :: 0 <= i < |groups| ==> (groups[i].variance.Some? <==> groups[i].count >= 2))
  {
    var ds := ResolvedDistricts(outcomes);
    var keep := KnownFlags(ds);
    var kept := KeptListings(raw, outcomes);
    var prices := PriceColumn(kept);
    MaskAligned(ds, Load(raw), keep);
    DropUnknownSpec(Load(raw), ds);
    Aggregation.MeanByDistrictHasNoSentinel(KeptDistricts(outcomes), prices);
    Aggregation.MeanByDistrictCovers(KeptDistricts(outcomes), prices);
    var means := DistrictMeansOf(raw, outcomes);
    forall i | 0 <= i < |outcomes| && PickDistrict(outcomes[i]) != Unknown
      ensures exists j :: 0 <= j < |means| && means[j].district == PickDistrict(outcomes[i])
    {
      ResolvedRowKept(ds, i);
    }
    LoadSpec(raw);
    FilterKeepsPrices(Load(raw), keep);
    Aggregation.CountsPositive(BedroomColumn(kept), BathColumn(kept), prices);
    Aggregation.StatsByRoomsKeys(BedroomColumn(kept), BathColumn(kept), prices);
  }

  /**
   * The script from loading to the two aggregates, given the raw rows and
   * one geocoder outcome per loaded row: the district means of line 72 and
   * the room statistics of lines 83-87, both over the loaded listings whose
   * district is not the sentinel, with the properties of DashboardProperties.
   */
  method Dashboard(raw: seq<RawRow>, outcomes: seq<GeoOutcome>)
    returns (means: seq<Aggregation.DistrictMean>, groups: seq<Aggregation.RoomStats>)
    requires |outcomes| == |Load(raw)|
    ensures means == DistrictMeansOf(raw, outcomes)
    ensures groups == RoomGroupsOf(raw, outcomes)
    ensures forall i :: 0 <= i < |means| ==> means[i].district != Unknown
    ensures forall i :: 0 <= i < |outcomes| && PickDistrict(outcomes[i]) != Unknown ==>
      exists j :: 0 <= j < |means| && means[j].district == PickDistrict(outcomes[i])
    ensures forall i :: 0 <= i < |groups| ==> groups[i].count >= 1
    ensures forall i :: 0 <= i < |groups| ==> (groups[i].variance.Some? <==> groups[i].count >= 2)
  {
    var df := new ListingFrame(Load(raw));
    df.AssignDistricts(outcomes);
    var filtered := df.WithoutUnknown();
    means := filtered.DistrictMeans();
    filtered.AddBedroomCount();
    filtered.CoerceBaths();
    groups := filtered.RoomGroups();
    assert filtered.bedroomsNum.value == BedroomColumn(filtered.rows);
    assert filtered.bathsNum.value == BathColumn(filtered.rows);
    DashboardProperties(raw, outcomes);
  }
}
