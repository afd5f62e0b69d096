/** The place name shown for the user's position, built from a reverse-geocoding reply. */
module Geocoding {
  import opened Wrappers
  import opened Text

  /** The address fields of the reply that the label reads. */
  datatype Address = Address(
    city: Option<string>,
    town: Option<string>,
    village: Option<string>,
    county: Option<string>,
    state: Option<string>,
    region: Option<string>,
    countryCode: Option<string>)

  /** The fetch failed or its body was not JSON, or it parsed, with or without an `address`. */
  datatype GeoReply = GeoFailed | GeoReplied(address: Option<Address>)

  const Fallback := "your location"

  /** Reference definition: the first truthy entry of a list, if any. */
  function FirstTruthy(xs: seq<Option<string>>): Option<string> {
    if xs == [] then None else if Truthy(xs[0]) then xs[0] else FirstTruthy(xs[1..])
  }

  /** `address.city || address.town || address.village || address.county`. */
  function CityOf(a: Address): (r: Option<string>)
    ensures Truthy(r) <==> Truthy(a.city) || Truthy(a.town) || Truthy(a.village) || Truthy(a.county)
    ensures Truthy(r) ==> r == FirstTruthy([a.city, a.town, a.village, a.county])
  {
    var xs := [a.city, a.town, a.village, a.county];
    assert xs[1..] == [a.town, a.village, a.county];
    assert xs[1..][1..] == [a.village, a.county];
    assert xs[1..][1..][1..] == [a.county];
    assert xs[1..][1..][1..][1..] == [];
    assert FirstTruthy(xs[1..][1..][1..]) == if Truthy(a.county) then a.county else None;
    assert FirstTruthy(xs[1..][1..]) == if Truthy(a.village) then a.village else FirstTruthy(xs[1..][1..][1..]);
    assert FirstTruthy(xs[1..]) == if Truthy(a.town) then a.town else FirstTruthy(xs[1..][1..]);
    assert FirstTruthy(xs) == if Truthy(a.city) then a.city else FirstTruthy(xs[1..]);
    Or(Or(Or(a.city, a.town), a.village), a.county)
  }

  /** `address.state || address.region`. */
  function StateOf(a: Address): (r: Option<string>)
    ensures Truthy(r) <==> Truthy(a.state) || Truthy(a.region)
    ensures Truthy(a.state) ==> r == a.state
    ensures !Truthy(a.state) ==> r == a.region
  {
    Or(a.state, a.region)
  }

  /** `address.country_code?.toUpperCase()`. */
  function CountryOf(a: Address): (r: Option<string>)
    ensures Truthy(r) <==> Truthy(a.countryCode)
    ensures Truthy(r) ==> r.value == ToUpper(a.countryCode.value)
  {
    match a.countryCode
    case None => None
    case Some(c) => Some(ToUpper(c))
  }

  /**
   * The if/else ladder over the three derived values: never empty, and the
   * fallback whenever there is no state and no city with a country code.
   */
  function Label(city: Option<string>, state: Option<string>, country: Option<string>): (place: string)
    ensures place != ""
    ensures !Truthy(state) && (!Truthy(city) || !Truthy(country)) ==> place == Fallback
  {
    if Truthy(city) && Truthy(state) then city.value + ", " + state.value
    else if Truthy(city) && Truthy(country) then city.value + ", " + country.value
    else if Truthy(state) then state.value
    else Fallback
  }

  /** `getCityFromCoordinates` after the fetch: any failure, a missing address included, gives the fallback. */
  function CityFromReply(reply: GeoReply): (place: string)
    ensures place != ""
    ensures reply.GeoFailed? || reply.address.None? ==> place == Fallback
  {
    match reply
    case GeoFailed => Fallback
    case GeoReplied(None) => Fallback
    case GeoReplied(Some(a)) => Label(CityOf(a), StateOf(a), CountryOf(a))
  }

  /** The four shapes of the label, by which address fields are present. */
  lemma LabelShapes(a: Address)
    ensures var city, state, country := CityOf(a), StateOf(a), CountryOf(a);
            var place := CityFromReply(GeoReplied(Some(a)));
            && (Truthy(city) && Truthy(state) ==> place == city.value + ", " + state.value)
            && (Truthy(city) && !Truthy(state) && Truthy(a.countryCode) ==>
                  place == city.value + ", " + ToUpper(a.countryCode.value))
            && (!Truthy(city) && Truthy(state) ==> place == state.value)
            && (!Truthy(state) && (!Truthy(city) || !Truthy(a.countryCode)) ==> place == Fallback)
  {
  }

  /** A city with a state beats a city with a country code. */
  lemma StatePreferredOverCountry(a: Address)
    requires Truthy(a.city) && Truthy(a.state) && Truthy(a.countryCode)
    ensures CityFromReply(GeoReplied(Some(a))) == a.city.value + ", " + a.state.value
  {
  }
}
