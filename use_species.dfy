/**
 * The species-resolution hook: read the cached catalog, optionally merge
 * live iNaturalist records in front of it, then narrow by search text and
 * category. The database read and the edge-function call are inputs.
 */
module UseSpecies {
  import opened Wrappers
  import opened Seqs
  import opened Text
  import opened SpeciesData
  import FetchSpecies

  /**
   * The columns of a `species` row that the transform reads. `category` and
   * `conservationStatus` are stored as strings and cast without a check;
   * here they are assumed to hold valid names.
   */
  datatype DbRow = DbRow(
    id: string,
    name: string,
    scientificName: string,
    category: Category,
    region: Option<string>,
    primaryImageUrl: Option<string>,
    conservationStatus: Option<Rarity>,
    latMin: Option<real>,
    latMax: Option<real>,
    lonMin: Option<real>,
    lonMax: Option<real>)

  /** JavaScript truthiness of a nullable number: present and not zero. */
  predicate TruthyNum(x: Option<real>) {
    x.Some? && x.value != 0.0
  }

  /** The per-row mapping of `transformDbToSpecies`. */
  function RowToSpecies(row: DbRow): (s: Species)
    ensures s.id == row.id && s.name == row.name && s.scientificName == row.scientificName
    ensures s.category == row.category && s.imageUrl == row.primaryImageUrl
    ensures s.region == OrElse(row.region, "Unknown")
    ensures s.rarity == row.conservationStatus.GetOr(Common)
    ensures s.coordinates.Some? <==>
              TruthyNum(row.latMin) && TruthyNum(row.latMax) && TruthyNum(row.lonMin) && TruthyNum(row.lonMax)
    ensures s.coordinates.Some? ==>
              s.coordinates.value == Box(row.latMin.value, row.latMax.value, row.lonMin.value, row.lonMax.value)
    ensures s.inaturalistId.None? && s.wikipediaUrl.None? && s.description.None?
    ensures s.observationCount.None? && s.imageUrls.None? && s.source.None?
  {
    Species(
      row.id,
      row.name,
      row.scientificName,
      row.category,
      OrElse(row.region, "Unknown"),
      row.primaryImageUrl,
      row.conservationStatus.GetOr(Common),
      if TruthyNum(row.latMin) && TruthyNum(row.latMax) && TruthyNum(row.lonMin) && TruthyNum(row.lonMax)
      then Some(Box(row.latMin.value, row.latMax.value, row.lonMin.value, row.lonMax.value))
      else None,
      None, None, None, None, None, None)
  }

  /** `transformDbToSpecies`: one record per row, in row order. */
  function TransformDbToSpecies(rows: seq<DbRow>): (r: seq<Species>)
    ensures |r| == |rows|
    ensures forall i :: 0 <= i < |r| ==> r[i] == RowToSpecies(rows[i])
  {
    seq(|rows|, i requires 0 <= i < |rows| => RowToSpecies(rows[i]))
  }

  /** A bound of exactly 0 (the equator or the prime meridian) counts as missing and drops the whole box. */
  lemma ZeroBoundDropsBox(row: DbRow)
    requires row.latMin == Some(0.0) || row.latMax == Some(0.0) || row.lonMin == Some(0.0) || row.lonMax == Some(0.0)
    ensures RowToSpecies(row).coordinates.None?
  {
  }

  // ---------------------------------------------------------------------
  // Merging: deduplicate on scientificName, live records first.

  function Names(s: seq<Species>): set<string> {
    set x | x in s :: x.scientificName
  }

  ghost predicate UniqueNames(s: seq<Species>) {
    forall i, j :: 0 <= i < j < |s| ==> s[i].scientificName != s[j].scientificName
  }

  /** `s[i]` is the first record of `s` with its name, and that name is not in `seen`. */
  ghost predicate FirstFresh(seen: set<string>, s: seq<Species>, i: int) {
    0 <= i < |s| && s[i].scientificName !in seen &&
    forall j :: 0 <= j < i ==> s[j].scientificName != s[i].scientificName
  }

  /** One pass over `s` with a `seen` set: keep a record when its name has not been seen yet. */
  function DedupAfter(seen: set<string>, s: seq<Species>): (r: seq<Species>)
    decreases |s|
  {
    if s == [] then []
    else if s[0].scientificName in seen then DedupAfter(seen, s[1..])
    else [s[0]] + DedupAfter(seen + {s[0].scientificName}, s[1..])
  }

  /**
   * The result of `mergeSpeciesLists(cached, api)`: the api pass, then the
   * cached pass with api's names already seen. No name of either list is lost.
   */
  function Merge(cached: seq<Species>, api: seq<Species>): (r: seq<Species>)
    ensures Names(r) == Names(api) + Names(cached)
  {
    var a, c := DedupAfter({}, api), DedupAfter(Names(api), cached);
    DedupAfterShape({}, api);
    DedupAfterShape(Names(api), cached);
    NamesConcat(a, c);
    a + c
  }

  lemma NamesCons(x: Species, s: seq<Species>)
    ensures Names([x] + s) == {x.scientificName} + Names(s)
  {
    assert forall y :: y in [x] + s <==> y == x || y in s;
  }

  lemma NamesConcat(a: seq<Species>, b: seq<Species>)
    ensures Names(a + b) == Names(a) + Names(b)
  {
    assert forall y :: y in a + b <==> y in a || y in b;
  }

  /** The pass keeps exactly the unseen names, once each, in input order. */
  lemma {:induction false} DedupAfterShape(seen: set<string>, s: seq<Species>)
    ensures UniqueNames(DedupAfter(seen, s))
    ensures Names(DedupAfter(seen, s)) == Names(s) - seen
    ensures IsSubseq(DedupAfter(seen, s), s)
    decreases |s|
  {
    if s != [] {
      var x, rest := s[0], s[1..];
      assert s == [x] + rest;
      NamesCons(x, rest);
      if x.scientificName in seen {
        DedupAfterShape(seen, rest);
        var d := DedupAfter(seen, rest);
        assert d == [] || IsSubseq(d, s);
      } else {
        var seen' := seen + {x.scientificName};
        DedupAfterShape(seen', rest);
        var d := DedupAfter(seen', rest);
        NamesCons(x, d);
        assert ([x] + d)[1..] == d;
        forall i, j | 0 <= i < j < |[x] + d|
          ensures ([x] + d)[i].scientificName != ([x] + d)[j].scientificName
        {
          if i == 0 {
            assert ([x] + d)[j] == d[j - 1] && d[j - 1] in d;
          } else {
            assert ([x] + d)[i] == d[i - 1] && ([x] + d)[j] == d[j - 1];
          }
        }
      }
    }
  }

  /** The `k`-th record the pass keeps is the first fresh occurrence of its name. */
  ghost predicate KeptIsFirstFresh(seen: set<string>, s: seq<Species>, k: nat)
    requires k < |DedupAfter(seen, s)|
  {
    exists i :: FirstFresh(seen, s, i) && s[i] == DedupAfter(seen, s)[k]
  }

  /** Every record the pass keeps is the first fresh occurrence of its name. */
  lemma {:induction false} DedupAfterKeptAreFirstFresh(seen: set<string>, s: seq<Species>)
    ensures forall k: nat :: k < |DedupAfter(seen, s)| ==> KeptIsFirstFresh(seen, s, k)
    decreases |s|
  {
    if s != [] {
      var x, rest := s[0], s[1..];
      var seen' := if x.scientificName in seen then seen else seen + {x.scientificName};
      DedupAfterKeptAreFirstFresh(seen', rest);
      var d := DedupAfter(seen', rest);
      var out := DedupAfter(seen, s);
      assert out == if x.scientificName in seen then d else [x] + d;
      forall k: nat | k < |out|
        ensures KeptIsFirstFresh(seen, s, k)
      {
        if x.scientificName !in seen && k == 0 {
          assert FirstFresh(seen, s, 0);
        } else {
          var k': nat := if x.scientificName in seen then k else k - 1;
          assert out[k] == d[k'];
          assert KeptIsFirstFresh(seen', rest, k');
          var i' :| FirstFresh(seen', rest, i') && rest[i'] == d[k'];
          assert s[i' + 1] == rest[i'];
          assert forall j :: 1 <= j < i' + 1 ==> s[j] == rest[j - 1];
          assert FirstFresh(seen, s, i' + 1) && s[i' + 1] == out[k];
        }
      }
    }
  }

  /** Every first fresh occurrence of a name is kept by the pass. */
  lemma {:induction false} DedupAfterKeepsFirstFresh(seen: set<string>, s: seq<Species>)
    ensures forall i :: FirstFresh(seen, s, i) ==> s[i] in DedupAfter(seen, s)
    decreases |s|
  {
    if s != [] {
      var x, rest := s[0], s[1..];
      var seen' := if x.scientificName in seen then seen else seen + {x.scientificName};
      DedupAfterKeepsFirstFresh(seen', rest);
      var d := DedupAfter(seen', rest);
      var out := DedupAfter(seen, s);
      assert out == if x.scientificName in seen then d else [x] + d;
      forall i | FirstFresh(seen, s, i)
        ensures s[i] in out
      {
        if i > 0 {
          assert s[i] == rest[i - 1];
          assert forall j :: 0 <= j < i - 1 ==> rest[j] == s[j + 1];
          assert s[0].scientificName != s[i].scientificName;
          assert FirstFresh(seen', rest, i - 1);
        }
      }
    }
  }

  /** The pass keeps a record exactly when it is the first fresh occurrence of its name. */
  lemma DedupAfterFirstFresh(seen: set<string>, s: seq<Species>)
    ensures forall k: nat :: k < |DedupAfter(seen, s)| ==> KeptIsFirstFresh(seen, s, k)
    ensures forall i :: FirstFresh(seen, s, i) ==> s[i] in DedupAfter(seen, s)
  {
    DedupAfterKeptAreFirstFresh(seen, s);
    DedupAfterKeepsFirstFresh(seen, s);
  }

  /** Running the pass over `x + y` is the pass over `x` followed by the pass over `y` with `x`'s names seen. */
  lemma {:induction false} DedupAfterAppend(seen: set<string>, x: seq<Species>, y: seq<Species>)
    ensures DedupAfter(seen, x + y) == DedupAfter(seen, x) + DedupAfter(seen + Names(x), y)
    decreases |x|, 1
  {
    if x == [] {
      assert x + y == y;
      assert Names(x) == {};
      assert seen + Names(x) == seen;
    } else if x[0].scientificName in seen {
      DedupAfterAppendSeen(seen, x, y);
    } else {
      DedupAfterAppendFresh(seen, x, y);
    }
  }

  /** `DedupAfterAppend` when the head of `x` is skipped. */
  lemma {:induction false} DedupAfterAppendSeen(seen: set<string>, x: seq<Species>, y: seq<Species>)
    requires x != [] && x[0].scientificName in seen
    ensures DedupAfter(seen, x + y) == DedupAfter(seen, x) + DedupAfter(seen + Names(x), y)
    decreases |x|, 0
  {
    var h, t := x[0], x[1..];
    assert (x + y)[0] == h && (x + y)[1..] == t + y;
    assert x == [h] + t;
    NamesCons(h, t);
    DedupAfterAppend(seen, t, y);
    assert seen + Names(x) == seen + Names(t);
  }

  /** `DedupAfterAppend` when the head of `x` is kept. */
  lemma {:induction false} DedupAfterAppendFresh(seen: set<string>, x: seq<Species>, y: seq<Species>)
    requires x != [] && x[0].scientificName !in seen
    ensures DedupAfter(seen, x + y) == DedupAfter(seen, x) + DedupAfter(seen + Names(x), y)
    decreases |x|, 0
  {
    var h, t := x[0], x[1..];
    var seen' := seen + {h.scientificName};
    assert (x + y)[0] == h && (x + y)[1..] == t + y;
    assert x == [h] + t;
    NamesCons(h, t);
    DedupAfterAppend(seen', t, y);
    assert seen' + Names(t) == seen + Names(x);
  }

  lemma UniqueConcat(a: seq<Species>, b: seq<Species>)
    requires UniqueNames(a) && UniqueNames(b) && Names(a) !! Names(b)
    ensures UniqueNames(a + b)
  {
    forall i, j | 0 <= i < j < |a + b|
      ensures (a + b)[i].scientificName != (a + b)[j].scientificName
    {
      if i < |a| && j >= |a| {
        assert (a + b)[i] == a[i] && a[i].scientificName in Names(a);
        assert (a + b)[j] == b[j - |a|] && b[j - |a|].scientificName in Names(b);
      } else if i >= |a| {
        assert (a + b)[i] == b[i - |a|] && (a + b)[j] == b[j - |a|];
      } else {
        assert (a + b)[i] == a[i] && (a + b)[j] == a[j];
      }
    }
  }

  /** Merging yields pairwise-distinct scientific names. */
  lemma MergeUniqueNames(cached: seq<Species>, api: seq<Species>)
    ensures UniqueNames(Merge(cached, api))
  {
    DedupAfterShape({}, api);
    DedupAfterShape(Names(api), cached);
    UniqueConcat(DedupAfter({}, api), DedupAfter(Names(api), cached));
  }

  /**
   * Merging is the single pass over `api + cached`, so it is an
   * order-preserving subsequence of that list and no longer than both lists.
   */
  lemma MergeIsSinglePass(cached: seq<Species>, api: seq<Species>)
    ensures Merge(cached, api) == DedupAfter({}, api + cached)
    ensures IsSubseq(Merge(cached, api), api + cached)
    ensures |Merge(cached, api)| <= |api| + |cached|
  {
    DedupAfterAppend({}, api, cached);
    assert {} + Names(api) == Names(api);
    DedupAfterShape({}, api + cached);
    SubseqMembers(DedupAfter({}, api + cached), api + cached);
  }

  /** The api half of the merge: its records are exactly the first api record of each name. */
  lemma MergeApiSide(cached: seq<Species>, api: seq<Species>)
    ensures forall r :: r in Merge(cached, api) && r.scientificName in Names(api) ==>
              exists i :: FirstFresh({}, api, i) && api[i] == r
    ensures forall i :: FirstFresh({}, api, i) ==> api[i] in Merge(cached, api)
  {
    var a, c := DedupAfter({}, api), DedupAfter(Names(api), cached);
    DedupAfterFirstFresh({}, api);
    DedupAfterShape(Names(api), cached);
    assert forall y :: y in c ==> y.scientificName in Names(c);
    forall r | r in Merge(cached, api) && r.scientificName in Names(api)
      ensures exists i :: FirstFresh({}, api, i) && api[i] == r
    {
      assert r in a;
      var k :| 0 <= k < |a| && a[k] == r;
      assert KeptIsFirstFresh({}, api, k);
    }
  }

  /** The cached half of the merge: its records are exactly the first cached record of each name missing from api. */
  lemma MergeCachedSide(cached: seq<Species>, api: seq<Species>)
    ensures forall r :: r in Merge(cached, api) && r.scientificName !in Names(api) ==>
              exists i :: FirstFresh(Names(api), cached, i) && cached[i] == r
    ensures forall i :: FirstFresh(Names(api), cached, i) ==> cached[i] in Merge(cached, api)
  {
    var a, c := DedupAfter({}, api), DedupAfter(Names(api), cached);
    DedupAfterFirstFresh(Names(api), cached);
    DedupAfterShape({}, api);
    assert forall y :: y in a ==> y.scientificName in Names(a);
    forall r | r in Merge(cached, api) && r.scientificName !in Names(api)
      ensures exists i :: FirstFresh(Names(api), cached, i) && cached[i] == r
    {
      assert r in c;
      var k :| 0 <= k < |c| && c[k] == r;
      assert KeptIsFirstFresh(Names(api), cached, k);
    }
  }

  /**
   * Live records win: a merged record whose name occurs in `api` is the
   * first `api` record with that name, every such first record is kept, and
   * every other merged record is the first `cached` record of a name
   * missing from `api`.
   */
  lemma MergeApiPriority(cached: seq<Species>, api: seq<Species>)
    ensures forall r :: r in Merge(cached, api) && r.scientificName in Names(api) ==>
              exists i :: FirstFresh({}, api, i) && api[i] == r
    ensures forall r :: r in Merge(cached, api) && r.scientificName !in Names(api) ==>
              exists i :: FirstFresh(Names(api), cached, i) && cached[i] == r
    ensures forall i :: FirstFresh({}, api, i) ==> api[i] in Merge(cached, api)
    ensures forall i :: FirstFresh(Names(api), cached, i) ==> cached[i] in Merge(cached, api)
  {
    MergeApiSide(cached, api);
    MergeCachedSide(cached, api);
  }

  /**
   * One iteration of either loop keeps "what is pushed so far, then the pass
   * over what is left" equal to the whole pass.
   */
  lemma PassStep(merged: seq<Species>, seen: set<string>, s: seq<Species>, whole: seq<Species>)
    requires s != [] && merged + DedupAfter(seen, s) == whole
    ensures s[0].scientificName in seen ==> merged + DedupAfter(seen, s[1..]) == whole
    ensures s[0].scientificName !in seen ==>
              (merged + [s[0]]) + DedupAfter(seen + {s[0].scientificName}, s[1..]) == whole
  {
    if s[0].scientificName !in seen {
      assert DedupAfter(seen, s) == [s[0]] + DedupAfter(seen + {s[0].scientificName}, s[1..]);
      assert merged + ([s[0]] + DedupAfter(seen + {s[0].scientificName}, s[1..])) ==
             (merged + [s[0]]) + DedupAfter(seen + {s[0].scientificName}, s[1..]);
    }
  }

  lemma NamesSnoc(s: seq<Species>, i: int)
    requires 0 <= i < |s|
    ensures Names(s[..i + 1]) == Names(s[..i]) + {s[i].scientificName}
  {
    assert s[..i + 1] == s[..i] + [s[i]];
    NamesConcat(s[..i], [s[i]]);
  }

  /**
   * The body both loops of `mergeSpeciesLists` share: walk `list`, pushing
   * each record whose name is not in `seen` and recording that name. The
   * result is the pass over `list` appended to `merged`, with every name of
   * `list` now seen.
   */
  method PushUnseen(merged: seq<Species>, seen: set<string>, list: seq<Species>)
    returns (merged': seq<Species>, seen': set<string>)
    ensures merged' == merged + DedupAfter(seen, list)
    ensures seen' == seen + Names(list)
  {
    merged', seen' := merged, seen;
    var i := 0;
    while i < |list|
      invariant 0 <= i <= |list|
      invariant seen' == seen + Names(list[..i])
      invariant merged' + DedupAfter(seen', list[i..]) == merged + DedupAfter(seen, list)
    {
      var species := list[i];
      PassStep(merged', seen', list[i..], merged + DedupAfter(seen, list));
      assert list[i..][1..] == list[i + 1..];
      NamesSnoc(list, i);
      if species.scientificName !in seen' {
        merged' := merged' + [species];
        seen' := seen' + {species.scientificName};
      }
      i := i + 1;
    }
    assert list[..i] == list;
    assert list[i..] == [];
  }

  /** `mergeSpeciesLists`: the api records first, then the cached ones, sharing one `seen` set. */
  method MergeSpeciesLists(cached: seq<Species>, api: seq<Species>) returns (merged: seq<Species>)
    ensures merged == Merge(cached, api)
  {
    var seen: set<string>;
    merged, seen := PushUnseen([], {}, api);
    assert merged == DedupAfter({}, api) && seen == Names(api);
    merged, seen := PushUnseen(merged, seen, cached);
  }

  // ---------------------------------------------------------------------
  // Narrowing steps.

  /** Case-insensitive match of the query against the display or the scientific name. */
  predicate MatchesQuery(s: Species, searchQuery: string)
    ensures searchQuery == "" ==> MatchesQuery(s, searchQuery)
    ensures MatchesQuery(s, searchQuery) ==> |searchQuery| <= |s.name| || |searchQuery| <= |s.scientificName|
  {
    var query := ToLower(searchQuery);
    assert query == "" ==> OccursAt(ToLower(s.name), query, 0);
    Contains(ToLower(s.name), query) || Contains(ToLower(s.scientificName), query)
  }

  /** The match ignores letter case, in the query and in both names. */
  lemma MatchesQueryIgnoresCase(s: Species, searchQuery: string)
    ensures MatchesQuery(s, ToLower(searchQuery)) == MatchesQuery(s, searchQuery)
    ensures MatchesQuery(s.(name := ToLower(s.name), scientificName := ToLower(s.scientificName)), searchQuery) ==
            MatchesQuery(s, searchQuery)
  {
    LowerTwice(searchQuery);
    LowerTwice(s.name);
    LowerTwice(s.scientificName);
  }

  lemma LowerTwice(t: string)
    ensures ToLower(ToLower(t)) == ToLower(t)
  {
    assert forall i :: 0 <= i < |t| ==> ToLower(ToLower(t))[i] == ToLower(t)[i];
  }

  /** The search step: skipped for an empty query, otherwise keep the matching records in order. */
  function SearchFilter(species: seq<Species>, searchQuery: string): (r: seq<Species>)
    ensures searchQuery == "" ==> r == species
    ensures forall x :: x in r <==> x in species && (searchQuery == "" || MatchesQuery(x, searchQuery))
    ensures forall x :: multiset(r)[x] == if MatchesQuery(x, searchQuery) then multiset(species)[x] else 0
    ensures IsSubseq(r, species)
  {
    if searchQuery == "" then SubseqRefl(species); species
    else Filter(species, (s: Species) => MatchesQuery(s, searchQuery))
  }

  /** The category step: skipped for an empty list, otherwise keep the records whose category is listed. */
  function CategoryFilter(species: seq<Species>, categories: seq<string>): (r: seq<Species>)
    ensures categories == [] ==> r == species
    ensures forall x :: x in r <==> x in species && (categories == [] || CategoryName(x.category) in categories)
    ensures forall x ::
              multiset(r)[x] == if categories == [] || CategoryName(x.category) in categories then multiset(species)[x] else 0
    ensures IsSubseq(r, species)
  {
    if |categories| == 0 then SubseqRefl(species); species
    else Filter(species, (s: Species) => CategoryName(s.category) in categories)
  }

  /** A subsequence of a list with distinct names has distinct names. */
  lemma {:induction false} UniqueSubseq(a: seq<Species>, b: seq<Species>)
    requires IsSubseq(a, b) && UniqueNames(b)
    ensures UniqueNames(a)
    decreases |b|
  {
    if a != [] {
      assert UniqueNames(b[1..]) by {
        forall i, j | 0 <= i < j < |b[1..]| ensures b[1..][i].scientificName != b[1..][j].scientificName {
          assert b[1..][i] == b[i + 1] && b[1..][j] == b[j + 1];
        }
      }
      if IsSubseq(a, b[1..]) {
        UniqueSubseq(a, b[1..]);
      } else {
        UniqueSubseq(a[1..], b[1..]);
        SubseqMembers(a[1..], b[1..]);
        forall i, j | 0 <= i < j < |a| ensures a[i].scientificName != a[j].scientificName {
          assert a[j] == a[1..][j - 1] && a[1..][j - 1] in b[1..];
          var k :| 0 <= k < |b[1..]| && b[1..][k] == a[j];
          assert b[k + 1] == a[j];
          if i > 0 {
            assert a[i] == a[1..][i - 1];
          }
        }
      }
    }
  }

  // ---------------------------------------------------------------------
  // The query function.

  const DefaultMaxDistance: real := 50.0
  const BridgePageSize: int := 30

  /** The hook's options once its defaults are applied. */
  datatype SpeciesQuery = SpeciesQuery(
    coordinates: Option<Point>, maxDistance: real, searchQuery: string, categories: seq<string>)

  /** Destructuring defaults of the hook: radius 50 km, no search, no categories. */
  function QueryWithDefaults(coordinates: Option<Point>, maxDistance: Option<real>,
                             searchQuery: Option<string>, categories: Option<seq<string>>): (q: SpeciesQuery)
    ensures q.coordinates == coordinates && q.maxDistance == maxDistance.GetOr(DefaultMaxDistance)
    ensures q.searchQuery == searchQuery.GetOr("") && q.categories == categories.GetOr([])
  {
    SpeciesQuery(coordinates, maxDistance.GetOr(DefaultMaxDistance), searchQuery.GetOr(""), categories.GetOr([]))
  }

  /**
   * What the edge-function call yields: a failure (an error reply, a thrown
   * call, a reply without a body), or a reply whose `species` may be absent.
   */
  datatype BridgeOutcome = BridgeFailed | BridgeReplied(species: Option<seq<Species>>)

  /**
   * The body the hook sends to the edge function: once the edge function
   * applies its defaults, it searches around the user's position with the
   * hook's radius and a page of 30.
   */
  function BridgeRequest(coords: Point, maxDistance: real): (req: FetchSpecies.Request)
    ensures FetchSpecies.ResolveRequest(req) == FetchSpecies.SearchParams(coords.latitude, coords.longitude, maxDistance, 30)
  {
    FetchSpecies.Request(coords.latitude, coords.longitude, Some(maxDistance), Some(BridgePageSize))
  }

  /** Step 1: the cached catalog; a store error (`None`) leaves it empty. */
  function CachedSpecies(cacheRead: Option<seq<DbRow>>): (r: seq<Species>)
    ensures cacheRead.None? ==> r == []
    ensures cacheRead.Some? ==> r == TransformDbToSpecies(cacheRead.value)
  {
    if cacheRead.Some? then TransformDbToSpecies(cacheRead.value) else []
  }

  /** Steps 2 and 3: merge the live records in front when there is a position and the call succeeded. */
  function CombinedSpecies(cached: seq<Species>, q: SpeciesQuery, invoke: FetchSpecies.Request -> BridgeOutcome): (r: seq<Species>)
    ensures q.coordinates.None? || invoke(BridgeRequest(q.coordinates.value, q.maxDistance)).BridgeFailed? ==> r == cached
    ensures q.coordinates.Some? && invoke(BridgeRequest(q.coordinates.value, q.maxDistance)).BridgeReplied? ==>
              var api := invoke(BridgeRequest(q.coordinates.value, q.maxDistance)).species.GetOr([]);
              r == Merge(cached, api) &&
              UniqueNames(r) && Names(r) == Names(api) + Names(cached) && IsSubseq(r, api + cached)
  {
    if q.coordinates.Some? && invoke(BridgeRequest(q.coordinates.value, q.maxDistance)).BridgeReplied? then
      var api := invoke(BridgeRequest(q.coordinates.value, q.maxDistance)).species.GetOr([]);
      MergeIsSinglePass(cached, api);
      MergeUniqueNames(cached, api);
      Merge(cached, api)
    else cached
  }

  /** A record passes the search and category steps of the query. */
  predicate PassesQuery(x: Species, q: SpeciesQuery) {
    MatchesQuery(x, q.searchQuery) && (q.categories == [] || CategoryName(x.category) in q.categories)
  }

  /**
   * The list the query function returns, steps 1 to 5 in order: exactly the
   * combined records that pass both steps, each as often as it occurs there,
   * in combined order; with no search and no categories, the combined list.
   */
  function ResolvedSpecies(cacheRead: Option<seq<DbRow>>, q: SpeciesQuery,
                           invoke: FetchSpecies.Request -> BridgeOutcome): (r: seq<Species>)
    ensures var combined := CombinedSpecies(CachedSpecies(cacheRead), q, invoke);
            && (forall x :: x in r <==> x in combined && PassesQuery(x, q))
            && (forall x :: multiset(r)[x] == if PassesQuery(x, q) then multiset(combined)[x] else 0)
            && IsSubseq(r, combined)
    ensures q.searchQuery == "" && q.categories == [] ==> r == CombinedSpecies(CachedSpecies(cacheRead), q, invoke)
  {
    var combined := CombinedSpecies(CachedSpecies(cacheRead), q, invoke);
    var searched := SearchFilter(combined, q.searchQuery);
    var r := CategoryFilter(searched, q.categories);
    SubseqTrans(r, searched, combined);
    r
  }

  /** The query function, assigning `allSpecies` step by step. */
  method QuerySpecies(cacheRead: Option<seq<DbRow>>, q: SpeciesQuery,
                      invoke: FetchSpecies.Request -> BridgeOutcome) returns (allSpecies: seq<Species>)
    ensures allSpecies == ResolvedSpecies(cacheRead, q, invoke)
  {
    allSpecies := [];
    if cacheRead.Some? {
      allSpecies := TransformDbToSpecies(cacheRead.value);
    }
    if q.coordinates.Some? {
      var reply := invoke(BridgeRequest(q.coordinates.value, q.maxDistance));
      if reply.BridgeReplied? {
        var apiSpecies := reply.species.GetOr([]);
        allSpecies := MergeSpeciesLists(allSpecies, apiSpecies);
      }
    }
    if q.searchQuery != "" {
      allSpecies := SearchFilter(allSpecies, q.searchQuery);
    }
    if |q.categories| > 0 {
      allSpecies := CategoryFilter(allSpecies, q.categories);
    }
  }

  /**
   * Without a position the bridge is never consulted, and on a failed call
   * the steps run over the cache alone.
   */
  lemma ResolvedWithoutBridge(cacheRead: Option<seq<DbRow>>, q: SpeciesQuery,
                              invoke: FetchSpecies.Request -> BridgeOutcome, other: FetchSpecies.Request -> BridgeOutcome)
    ensures q.coordinates.None? ==> ResolvedSpecies(cacheRead, q, invoke) == ResolvedSpecies(cacheRead, q, other)
    ensures q.coordinates.None? || invoke(BridgeRequest(q.coordinates.value, q.maxDistance)).BridgeFailed? ==>
              ResolvedSpecies(cacheRead, q, invoke) ==
              CategoryFilter(SearchFilter(CachedSpecies(cacheRead), q.searchQuery), q.categories)
  {
  }

  /**
   * Live records win in the returned list: after a successful call, a
   * returned record whose name occurs among the live records is the first
   * live record of that name, so no cached record with that name is returned.
   */
  lemma ResolvedLiveRecordsWin(cacheRead: Option<seq<DbRow>>, q: SpeciesQuery, invoke: FetchSpecies.Request -> BridgeOutcome)
    requires q.coordinates.Some? && invoke(BridgeRequest(q.coordinates.value, q.maxDistance)).BridgeReplied?
    ensures var api := invoke(BridgeRequest(q.coordinates.value, q.maxDistance)).species.GetOr([]);
            forall x :: x in ResolvedSpecies(cacheRead, q, invoke) && x.scientificName in Names(api) ==>
              exists i :: FirstFresh({}, api, i) && api[i] == x
  {
    var api := invoke(BridgeRequest(q.coordinates.value, q.maxDistance)).species.GetOr([]);
    MergeApiSide(CachedSpecies(cacheRead), api);
  }

  /** Whenever the live records were merged in, the resolved list has pairwise-distinct scientific names. */
  lemma ResolvedNamesUnique(cacheRead: Option<seq<DbRow>>, q: SpeciesQuery, invoke: FetchSpecies.Request -> BridgeOutcome)
    requires q.coordinates.Some? && invoke(BridgeRequest(q.coordinates.value, q.maxDistance)).BridgeReplied?
    ensures UniqueNames(ResolvedSpecies(cacheRead, q, invoke))
  {
    UniqueSubseq(ResolvedSpecies(cacheRead, q, invoke), CombinedSpecies(CachedSpecies(cacheRead), q, invoke));
  }
}
