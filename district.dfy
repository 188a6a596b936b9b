/**
 * District resolution (`asignar_distrito`). The reverse geocoder is outside
 * the model: each row's lookup is given as an outcome, either a failure (any
 * exception, a missing location or a response without an address) or the
 * address it returned.
 */
module District {
  import opened Wrappers

  /** The sentinel for a row whose district could not be resolved. */
  const Unknown: string := "Desconocido"

  /** The address fields of a geocoder response that the resolver reads. */
  datatype Address = Address(suburb: Option<string>, cityDistrict: Option<string>, town: Option<string>)

  datatype GeoOutcome = Failed | Located(address: Address)

  /** Python truthiness of an optional string: present and non-empty. */
  predicate Truthy(v: Option<string>) { v.Some? && v.value != "" }

  /**
   * Python's `c0 or c1 or ... or fallback`: the first truthy candidate, or
   * the fallback when there is none.
   */
  function FirstTruthy(candidates: seq<Option<string>>, fallback: string): (r: string)
    ensures || (exists j :: 0 <= j < |candidates| && Truthy(candidates[j]) && r == candidates[j].value
                 && forall i :: 0 <= i < j ==> !Truthy(candidates[i]))
            || ((forall j :: 0 <= j < |candidates| ==> !Truthy(candidates[j])) && r == fallback)
    decreases |candidates|
  {
    if candidates == [] then fallback
    else if Truthy(candidates[0]) then candidates[0].value
    else
      var r := FirstTruthy(candidates[1..], fallback);
      assert forall j :: 1 <= j < |candidates| ==> candidates[j] == candidates[1..][j - 1];
      r
  }

  /**
   * The district of one row: suburb, else city district, else town, else the
   * sentinel; a failed lookup gives the sentinel.
   */
  function PickDistrict(outcome: GeoOutcome): (d: string)
    ensures d != ""
    ensures outcome.Failed? ==> d == Unknown
    ensures outcome.Located? ==>
      var a := outcome.address;
      && (Truthy(a.suburb) ==> d == a.suburb.value)
      && (!Truthy(a.suburb) && Truthy(a.cityDistrict) ==> d == a.cityDistrict.value)
      && (!Truthy(a.suburb) && !Truthy(a.cityDistrict) && Truthy(a.town) ==> d == a.town.value)
      && (!Truthy(a.suburb) && !Truthy(a.cityDistrict) && !Truthy(a.town) ==> d == Unknown)
  {
    match outcome
    case Failed => Unknown
    case Located(a) =>
      var candidates := [a.suburb, a.cityDistrict, a.town];
      assert candidates[0] == a.suburb && candidates[1] == a.cityDistrict && candidates[2] == a.town;
      FirstTruthy(candidates, Unknown)
  }

  /** The Distrito column the loop writes for these lookup outcomes, one district per row. */
  function ResolvedDistricts(outcomes: seq<GeoOutcome>): (ds: seq<string>)
    ensures |ds| == |outcomes|
  {
    seq(|outcomes|, i requires 0 <= i < |outcomes| => PickDistrict(outcomes[i]))
  }

  /**
   * The loop of `asignar_distrito`: one district per row, appended in row
   * order; a failed lookup yields the sentinel and the loop goes on.
   */
  method ResolveDistricts(outcomes: seq<GeoOutcome>) returns (districts: seq<string>)
    ensures |districts| == |outcomes|
    ensures forall i :: 0 <= i < |outcomes| ==> districts[i] == PickDistrict(outcomes[i])
    ensures districts == ResolvedDistricts(outcomes)
  {
    districts := [];
    var i := 0;
    while i < |outcomes|
      invariant 0 <= i <= |outcomes|
      invariant |districts| == i
      invariant forall k :: 0 <= k < i ==> districts[k] == PickDistrict(outcomes[k])
    {
      var district := PickDistrict(outcomes[i]);
      districts := districts + [district];
      i := i + 1;
    }
  }
}
