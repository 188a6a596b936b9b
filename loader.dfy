/**
 * The dataset loader (`load_data`): drop rows without raw coordinates, coerce
 * the coordinate and price columns to numbers, then drop rows without a price.
 */
module Loader {
  import opened Wrappers
  import opened Numeric
  import opened Seqs

  /**
   * One row as read from the spreadsheet, each cell text or null. The fields
   * are the columns lat, lon, Precio_Soles, Precio, Ubicación, Habitaciones
   * and Baños.
   */
  datatype RawRow = RawRow(
    lat: Option<string>,
    lon: Option<string>,
    price: Option<string>,
    priceText: Option<string>,
    location: Option<string>,
    bedrooms: Option<string>,
    baths: Option<string>)

  /** A row after coercion: coordinates and price are numeric columns that may hold nulls. */
  datatype Listing = Listing(
    lat: Option<real>,
    lon: Option<real>,
    price: Option<real>,
    priceText: Option<string>,
    location: Option<string>,
    bedrooms: Option<string>,
    baths: Option<string>)

  /** `dropna(subset=['lat', 'lon'])` tests the raw cells, before any coercion. */
  predicate HasRawCoordinates(r: RawRow) { r.lat.Some? && r.lon.Some? }

  predicate Priced(l: Listing) { l.price.Some? }

  /** The three `to_numeric(errors='coerce')` assignments applied to one row. */
  function Coerce(r: RawRow): Listing
  {
    Listing(ParseCell(r.lat), ParseCell(r.lon), ParseCell(r.price),
            r.priceText, r.location, r.bedrooms, r.baths)
  }

  function CoerceColumns(rows: seq<RawRow>): (ls: seq<Listing>)
    ensures |ls| == |rows|
  {
    seq(|rows|, i requires 0 <= i < |rows| => Coerce(rows[i]))
  }

  /** The loader, step by step in the order the source runs them. */
  function Load(rows: seq<RawRow>): seq<Listing>
  {
    var located := Filter(HasRawCoordinates, rows);
    var coerced := CoerceColumns(located);
    Filter(Priced, coerced)
  }

  /** Whether a raw row survives loading: raw coordinates present and a numeric price. */
  predicate Kept(r: RawRow) { HasRawCoordinates(r) && ParseCell(r.price).Some? }

  lemma LoadSnoc(rows: seq<RawRow>, r: RawRow)
    ensures Load(rows + [r]) == Load(rows) + (if Kept(r) then [Coerce(r)] else [])
  {
    var located := Filter(HasRawCoordinates, rows);
    FilterSnoc(HasRawCoordinates, rows, r);
    if HasRawCoordinates(r) {
      assert Filter(HasRawCoordinates, rows + [r]) == located + [r];
      assert CoerceColumns(located + [r]) == CoerceColumns(located) + [Coerce(r)];
      FilterSnoc(Priced, CoerceColumns(located), Coerce(r));
    } else {
      assert Filter(HasRawCoordinates, rows + [r]) == located;
    }
  }

  /** Loading is the same as coercing, in order, exactly the rows that are kept. */
  lemma {:induction false} LoadIsOnePass(rows: seq<RawRow>)
    ensures Load(rows) == CoerceColumns(Filter(Kept, rows))
    decreases |rows|
  {
    if rows == [] {
    } else {
      var n := |rows| - 1;
      var pre, r := rows[..n], rows[n];
      assert rows == pre + [r];
      LoadIsOnePass(pre);
      LoadSnoc(pre, r);
      FilterSnoc(Kept, pre, r);
      var kept := Filter(Kept, pre);
      assert CoerceColumns(kept + (if Kept(r) then [r] else [])) ==
        CoerceColumns(kept) + (if Kept(r) then [Coerce(r)] else []);
    }
  }

  /**
   * Every loaded listing has a price, and the loaded listings are the kept
   * raw rows, coerced, in their original relative order: the k-th listing
   * comes from raw row idx[k], idx ascends, and a raw row index is in idx
   * exactly when the row has raw coordinates and a numeric price.
   */
  lemma LoadSpec(rows: seq<RawRow>)
    ensures forall k :: 0 <= k < |Load(rows)| ==> Load(rows)[k].price.Some?
    ensures Selects(Load(rows), CoerceColumns(rows), KeptIndices(Kept, rows))
    ensures forall i :: 0 <= i < |rows| ==> (i in KeptIndices(Kept, rows) <==> Kept(rows[i]))
  {
    LoadIsOnePass(rows);
    FilterSelects(Kept, rows);
    var kept := Filter(Kept, rows);
    assert forall k :: 0 <= k < |kept| ==> Load(rows)[k] == Coerce(kept[k]);
  }

  /**
   * A row whose raw latitude is present but not numeric is not dropped: it
   * is loaded with a null latitude, because the drop runs before coercion.
   */
  lemma UnparsableLatitudeSurvives(rows: seq<RawRow>, i: int)
    requires 0 <= i < |rows|
    requires rows[i].lat.Some? && ParseNumber(rows[i].lat.value).None?
    requires rows[i].lon.Some? && ParseCell(rows[i].price).Some?
    ensures exists k :: 0 <= k < |Load(rows)| && Load(rows)[k] == Coerce(rows[i]) && Load(rows)[k].lat.None?
  {
    LoadSpec(rows);
    var idx := KeptIndices(Kept, rows);
    var k :| 0 <= k < |idx| && idx[k] == i;
    assert Load(rows)[k] == CoerceColumns(rows)[i];
  }

  /** A row with a missing raw latitude or longitude never reaches the output. */
  lemma MissingCoordinateDropped(rows: seq<RawRow>, i: int)
    requires 0 <= i < |rows|
    requires rows[i].lat.None? || rows[i].lon.None?
    ensures forall k :: 0 <= k < |KeptIndices(Kept, rows)| ==> KeptIndices(Kept, rows)[k] != i
  {
    LoadSpec(rows);
  }

  lemma PriceExamples()
    ensures ParseCell(Some("100")) == Some(100.0) && ParseCell(Some("200")) == Some(200.0)
  {
    ParseIntRoundTrip(100);
    ParseIntRoundTrip(200);
    assert NatToDigits(1) == "1" && NatToDigits(10) == "10" && NatToDigits(100) == "100";
    assert NatToDigits(2) == "2" && NatToDigits(20) == "20" && NatToDigits(200) == "200";
  }

  /**
   * Three rows priced 100, 200 and null, the third without a longitude:
   * exactly the first two come out, with their prices.
   */
  lemma LoadScenario(a: RawRow, b: RawRow, c: RawRow)
    requires HasRawCoordinates(a) && a.price == Some("100")
    requires HasRawCoordinates(b) && b.price == Some("200")
    requires c.lon.None? && c.price.None?
    ensures Load([a, b, c]) == [Coerce(a), Coerce(b)]
    ensures Load([a, b, c])[0].price == Some(100.0) && Load([a, b, c])[1].price == Some(200.0)
  {
    PriceExamples();
    LoadSnoc([], a);
    LoadSnoc([a], b);
    LoadSnoc([a, b], c);
    assert [] + [a] == [a] && [a] + [b] == [a, b] && [a, b] + [c] == [a, b, c];
  }
}
