/**
 * The Explore page's derived values: the detected continent, the effect
 * that copies it into the region selection, and the list shown. The
 * species list is a parameter.
 */
module Explore {
  import opened Wrappers
  import opened Seqs
  import opened Text
  import opened SpeciesData
  import opened LocationUtils
  import UseSpecies

  const AllRegions := "All Regions"

  /** The page's own state. */
  datatype ExploreState = ExploreState(searchQuery: string, useLocation: bool, selectedRegion: string, maxDistance: real)

  /** Search empty, "near me" on, all regions, 50 km. */
  const InitialState := ExploreState("", true, AllRegions, 50.0)

  /** `detectedRegion`: the continent of the user's position, if there is one. */
  function DetectedRegion(coordinates: Option<Point>): (r: Option<string>)
    ensures r.Some? <==> coordinates.Some?
    ensures coordinates.Some? ==> r.value == GetRegionFromCoordinates(coordinates.value) && r.value != ""
  {
    match coordinates
    case None => None
    case Some(c) => Some(GetRegionFromCoordinates(c))
  }

  /**
   * The region-sync effect: in "near me" mode a detected continent replaces
   * the selection; the result is either the old selection or that continent.
   */
  function SyncRegion(detected: Option<string>, useLocation: bool, selectedRegion: string): (r: string)
    ensures r == selectedRegion || (useLocation && detected == Some(r) && r != "")
    ensures !useLocation ==> r == selectedRegion
  {
    if Truthy(detected) && useLocation then detected.value else selectedRegion
  }

  /** After the effect, "near me" with a position selects the detected continent; otherwise the selection stays. */
  lemma SyncRegionFollowsPosition(coordinates: Option<Point>, useLocation: bool, selectedRegion: string)
    ensures useLocation && coordinates.Some? ==>
              SyncRegion(DetectedRegion(coordinates), useLocation, selectedRegion) == GetRegionFromCoordinates(coordinates.value)
    ensures !useLocation || coordinates.None? ==>
              SyncRegion(DetectedRegion(coordinates), useLocation, selectedRegion) == selectedRegion
  {
  }

  /** The first step of `filteredSpecies`: radius filtering, else region equality, else nothing. */
  function GeoStep(species: seq<Species>, coordinates: Option<Point>, st: ExploreState,
                   dist: (Point, Point) -> real): (r: seq<Species>)
    ensures IsSubseq(r, species)
  {
    if st.useLocation && coordinates.Some? then FilterSpeciesByLocation(species, coordinates, st.maxDistance, dist)
    else if st.selectedRegion != AllRegions then Filter(species, (s: Species) => s.region == st.selectedRegion)
    else SubseqRefl(species); species
  }

  /** `filteredSpecies`: the geographic step, then the search step. */
  function FilteredSpecies(species: seq<Species>, coordinates: Option<Point>, st: ExploreState,
                           dist: (Point, Point) -> real): (r: seq<Species>)
    ensures IsSubseq(r, species)
  {
    var located := GeoStep(species, coordinates, st, dist);
    var r := UseSpecies.SearchFilter(located, st.searchQuery);
    SubseqTrans(r, located, species);
    r
  }

  /** "Near me" with a position: exactly the species in range that match the search; the selected region plays no part. */
  lemma RadiusMode(species: seq<Species>, coordinates: Option<Point>, st: ExploreState, dist: (Point, Point) -> real, region: string)
    requires st.useLocation && coordinates.Some?
    ensures forall x :: x in FilteredSpecies(species, coordinates, st, dist) <==>
              x in species && IsInRange(coordinates.value, x, st.maxDistance, dist) &&
              (st.searchQuery == "" || UseSpecies.MatchesQuery(x, st.searchQuery))
    ensures forall x :: multiset(FilteredSpecies(species, coordinates, st, dist))[x] ==
              if IsInRange(coordinates.value, x, st.maxDistance, dist) && UseSpecies.MatchesQuery(x, st.searchQuery)
              then multiset(species)[x] else 0
    ensures FilteredSpecies(species, coordinates, st, dist) == FilteredSpecies(species, coordinates, st.(selectedRegion := region), dist)
  {
  }

  /** Otherwise a chosen region: exactly the species of that region that match; radius and distance play no part. */
  lemma RegionMode(species: seq<Species>, coordinates: Option<Point>, st: ExploreState, dist: (Point, Point) -> real,
                   other: (Point, Point) -> real, maxDistance: real)
    requires !(st.useLocation && coordinates.Some?) && st.selectedRegion != AllRegions
    ensures forall x :: x in FilteredSpecies(species, coordinates, st, dist) <==>
              x in species && x.region == st.selectedRegion &&
              (st.searchQuery == "" || UseSpecies.MatchesQuery(x, st.searchQuery))
    ensures forall x :: multiset(FilteredSpecies(species, coordinates, st, dist))[x] ==
              if x.region == st.selectedRegion && UseSpecies.MatchesQuery(x, st.searchQuery)
              then multiset(species)[x] else 0
    ensures FilteredSpecies(species, coordinates, st, dist) == FilteredSpecies(species, coordinates, st.(maxDistance := maxDistance), other)
  {
  }

  /** Neither mode: only the search step applies. */
  lemma NoGeographicFilter(species: seq<Species>, coordinates: Option<Point>, st: ExploreState, dist: (Point, Point) -> real)
    requires !(st.useLocation && coordinates.Some?) && st.selectedRegion == AllRegions
    ensures FilteredSpecies(species, coordinates, st, dist) == UseSpecies.SearchFilter(species, st.searchQuery)
  {
  }

  /** On first render, before a position arrives, nothing is filtered out. */
  lemma InitialStateShowsAll(species: seq<Species>, dist: (Point, Point) -> real)
    ensures FilteredSpecies(species, None, InitialState, dist) == species
  {
  }
}
