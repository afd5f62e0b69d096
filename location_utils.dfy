/**
 * Range tests and the continent classifier. Great-circle distance is
 * floating-point trigonometry, so it is a parameter `dist` of the
 * operations that use it and no fact about it is assumed except where a
 * lemma says so in its `requires`.
 */
module LocationUtils {
  import opened Wrappers
  import opened Seqs
  import opened SpeciesData

  /** Inclusive containment on all four bounds. */
  predicate InBox(p: Point, b: Box) {
    b.latMin <= p.latitude <= b.latMax && b.lonMin <= p.longitude <= b.lonMax
  }

  predicate WellFormed(b: Box) {
    b.latMin <= b.latMax && b.lonMin <= b.lonMax
  }

  function Max(x: real, y: real): real { if x >= y then x else y }
  function Min(x: real, y: real): real { if x <= y then x else y }

  /** `Math.max(lo, Math.min(hi, x))`. */
  function Clamp(x: real, lo: real, hi: real): real {
    Max(lo, Min(hi, x))
  }

  /** The point of the box nearest to `p`, axis by axis. */
  function Nearest(p: Point, b: Box): (q: Point)
    ensures WellFormed(b) ==> InBox(q, b)
    ensures InBox(p, b) ==> q == p
  {
    Point(Clamp(p.latitude, b.latMin, b.latMax), Clamp(p.longitude, b.lonMin, b.lonMax))
  }

  function Abs(x: real): real { if x < 0.0 then -x else x }

  /** No point of a well-formed box is closer to `p` on either axis than `Nearest(p, b)`. */
  lemma NearestIsClosestPerAxis(p: Point, b: Box, r: Point)
    requires WellFormed(b) && InBox(r, b)
    ensures Abs(Nearest(p, b).latitude - p.latitude) <= Abs(r.latitude - p.latitude)
    ensures Abs(Nearest(p, b).longitude - p.longitude) <= Abs(r.longitude - p.longitude)
  {
  }

  /**
   * `isInRange(userCoords, species, maxDistance)` with the distance function
   * as a parameter: unknown range is never nearby, and inside the box the
   * answer is yes whatever the limit, zero and negative limits included.
   */
  function IsInRange(user: Point, s: Species, maxDistance: real, dist: (Point, Point) -> real): (r: bool)
    ensures s.coordinates.None? ==> !r
    ensures s.coordinates.Some? && InBox(user, s.coordinates.value) ==> r
  {
    match s.coordinates
    case None => false
    case Some(b) => InBox(user, b) || dist(user, Nearest(user, b)) <= maxDistance
  }

  /** Outside the box the answer is exactly the distance test against the clamped point. */
  lemma OutsideUsesDistance(user: Point, s: Species, maxDistance: real, dist: (Point, Point) -> real)
    requires s.coordinates.Some? && !InBox(user, s.coordinates.value)
    ensures IsInRange(user, s, maxDistance, dist) <==>
              dist(user, Nearest(user, s.coordinates.value)) <= maxDistance
  {
  }

  /** Raising the limit never drops a species. */
  lemma InRangeMonotone(user: Point, s: Species, m1: real, m2: real, dist: (Point, Point) -> real)
    requires m1 <= m2 && IsInRange(user, s, m1, dist)
    ensures IsInRange(user, s, m2, dist)
  {
  }

  /**
   * The box test is a shortcut: for a distance that is zero from a point to
   * itself and a non-negative limit, the answer is the distance test alone.
   */
  lemma BoxTestIsShortcut(user: Point, s: Species, maxDistance: real, dist: (Point, Point) -> real)
    requires forall p :: dist(p, p) == 0.0
    requires maxDistance >= 0.0
    ensures IsInRange(user, s, maxDistance, dist) <==>
              s.coordinates.Some? && dist(user, Nearest(user, s.coordinates.value)) <= maxDistance
  {
    if s.coordinates.Some? && InBox(user, s.coordinates.value) {
      assert Nearest(user, s.coordinates.value) == user;
      assert dist(user, user) == 0.0;
    }
  }

  /** A continent name with its box, in the order the classifier tries them. */
  datatype NamedBox = NamedBox(name: string, box: Box)

  const NorthAmerica := Box(15.0, 72.0, -168.0, -52.0)
  const Europe := Box(36.0, 71.0, -10.0, 40.0)
  const Asia := Box(-10.0, 55.0, 40.0, 180.0)
  const SouthAmerica := Box(-56.0, 13.0, -82.0, -34.0)
  const Africa := Box(-35.0, 37.0, -18.0, 52.0)
  const Australia := Box(-47.0, -10.0, 113.0, 180.0)

  const Unknown := "Unknown"

  const RegionTable: seq<NamedBox> := [
    NamedBox("North America", NorthAmerica),
    NamedBox("Europe", Europe),
    NamedBox("Asia", Asia),
    NamedBox("South America", SouthAmerica),
    NamedBox("Africa", Africa),
    NamedBox("Australia", Australia)
  ]

  /** `getRegionFromCoordinates`: the if-chain of continent boxes. */
  function GetRegionFromCoordinates(p: Point): (r: string)
    ensures r in ["North America", "Europe", "Asia", "South America", "Africa", "Australia", Unknown]
  {
    if InBox(p, NorthAmerica) then "North America"
    else if InBox(p, Europe) then "Europe"
    else if InBox(p, Asia) then "Asia"
    else if InBox(p, SouthAmerica) then "South America"
    else if InBox(p, Africa) then "Africa"
    else if InBox(p, Australia) then "Australia"
    else Unknown
  }

  /** Reference definition: the name of the first box of `table` holding `p`, else "Unknown". */
  function FirstMatch(table: seq<NamedBox>, p: Point): string {
    if table == [] then Unknown
    else if InBox(p, table[0].box) then table[0].name
    else FirstMatch(table[1..], p)
  }

  /** `FirstMatch` returns the name of the first matching entry, or "Unknown" when none matches. */
  lemma {:induction false} FirstMatchIsFirst(table: seq<NamedBox>, p: Point)
    requires forall i :: 0 <= i < |table| ==> table[i].name != Unknown
    ensures FirstMatch(table, p) == Unknown <==> forall i :: 0 <= i < |table| ==> !InBox(p, table[i].box)
    ensures FirstMatch(table, p) != Unknown ==>
              exists i :: 0 <= i < |table| && table[i].name == FirstMatch(table, p) && InBox(p, table[i].box) &&
                forall j :: 0 <= j < i ==> !InBox(p, table[j].box)
  {
    if table != [] && !InBox(p, table[0].box) {
      FirstMatchIsFirst(table[1..], p);
      if FirstMatch(table, p) != Unknown {
        var i :| 0 <= i < |table[1..]| && table[1..][i].name == FirstMatch(table[1..], p) &&
                 InBox(p, table[1..][i].box) && forall j :: 0 <= j < i ==> !InBox(p, table[1..][j].box);
        assert table[i + 1] == table[1..][i];
        assert forall j :: 1 <= j < i + 1 ==> table[j] == table[1..][j - 1];
      }
    }
  }

  /** The if-chain is the first-match scan of the table, in the table's order. */
  lemma GetRegionIsFirstMatch(p: Point)
    ensures GetRegionFromCoordinates(p) == FirstMatch(RegionTable, p)
  {
    var t1 := RegionTable[1..];
    var t2 := t1[1..];
    var t3 := t2[1..];
    var t4 := t3[1..];
    var t5 := t4[1..];
    assert t5 == [NamedBox("Australia", Australia)] && t5[1..] == [];
    assert FirstMatch(t5, p) == if InBox(p, Australia) then "Australia" else Unknown;
    assert FirstMatch(t4, p) == if InBox(p, Africa) then "Africa" else FirstMatch(t5, p);
    assert FirstMatch(t3, p) == if InBox(p, SouthAmerica) then "South America" else FirstMatch(t4, p);
    assert FirstMatch(t2, p) == if InBox(p, Asia) then "Asia" else FirstMatch(t3, p);
    assert FirstMatch(t1, p) == if InBox(p, Europe) then "Europe" else FirstMatch(t2, p);
  }

  /**
   * "Unknown" exactly when no box holds the point; otherwise the answer is
   * the first listed box that holds it, so overlaps go to the earlier entry.
   */
  lemma RegionFirstMatchWins(p: Point)
    ensures GetRegionFromCoordinates(p) == Unknown <==>
              forall i :: 0 <= i < |RegionTable| ==> !InBox(p, RegionTable[i].box)
    ensures GetRegionFromCoordinates(p) != Unknown ==>
              exists i :: 0 <= i < |RegionTable| && RegionTable[i].name == GetRegionFromCoordinates(p) &&
                InBox(p, RegionTable[i].box) && forall j :: 0 <= j < i ==> !InBox(p, RegionTable[j].box)
  {
    GetRegionIsFirstMatch(p);
    FirstMatchIsFirst(RegionTable, p);
  }

  /** Overlap points are decided by list order. */
  lemma OverlapExamples()
    ensures InBox(Point(45.0, 40.0), Asia) && GetRegionFromCoordinates(Point(45.0, 40.0)) == "Europe"
    ensures InBox(Point(0.0, 45.0), Africa) && GetRegionFromCoordinates(Point(0.0, 45.0)) == "Asia"
    ensures InBox(Point(-10.0, 150.0), Australia) && GetRegionFromCoordinates(Point(-10.0, 150.0)) == "Asia"
  {
  }

  /** `filterSpeciesByLocation`: no position means no filtering; otherwise keep each species in range, as often as it occurs. */
  function FilterSpeciesByLocation(species: seq<Species>, userCoords: Option<Point>, maxDistance: real,
                                   dist: (Point, Point) -> real): (r: seq<Species>)
    ensures userCoords.None? ==> r == species
    ensures userCoords.Some? ==> forall x :: x in r <==> x in species && IsInRange(userCoords.value, x, maxDistance, dist)
    ensures userCoords.Some? ==> forall x ::
              multiset(r)[x] == if IsInRange(userCoords.value, x, maxDistance, dist) then multiset(species)[x] else 0
    ensures IsSubseq(r, species)
  {
    match userCoords
    case None => SubseqRefl(species); species
    case Some(u) => Filter(species, (s: Species) => IsInRange(u, s, maxDistance, dist))
  }
}
