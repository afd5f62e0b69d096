/** Concrete instances of the query function over small caches and bridge replies, proved once each. */
module Scenarios {
  import opened Wrappers
  import opened SpeciesData
  import opened UseSpecies
  import FetchSpecies

  function Record(id: string, name: string, scientificName: string, category: Category): Species {
    Species(id, name, scientificName, category, "Unknown", Some(""), Common, None,
            None, None, None, None, None, None)
  }

  function Row(id: string, name: string, scientificName: string, category: Category): DbRow {
    DbRow(id, name, scientificName, category, None, None, None, None, None, None, None)
  }

  const Here := Point(45.0, -122.0)

  /** The cache's red fox is replaced by the live one with the same scientific name; the eagle is added. */
  lemma LiveRecordReplacesCachedDuplicate()
    ensures var foxRow := Row("fox-1", "Red Fox", "Vulpes vulpes", Mammal);
            var liveFox := Record("inaturalist-42069", "Red Fox", "Vulpes vulpes", Mammal);
            var eagle := Record("inaturalist-5305", "Bald Eagle", "Haliaeetus leucocephalus", Bird);
            var invoke := (r: FetchSpecies.Request) => BridgeReplied(Some([liveFox, eagle]));
            ResolvedSpecies(Some([foxRow]), SpeciesQuery(Some(Here), 50.0, "", []), invoke) == [liveFox, eagle]
  {
    var foxRow := Row("fox-1", "Red Fox", "Vulpes vulpes", Mammal);
    var liveFox := Record("inaturalist-42069", "Red Fox", "Vulpes vulpes", Mammal);
    var eagle := Record("inaturalist-5305", "Bald Eagle", "Haliaeetus leucocephalus", Bird);
    var api := [liveFox, eagle];
    assert Names(api) == {"Vulpes vulpes", "Haliaeetus leucocephalus"} by {
      assert liveFox in api && eagle in api;
    }
    var cached := CachedSpecies(Some([foxRow]));
    assert cached == [RowToSpecies(foxRow)];
    assert DedupAfter(Names(api), cached) == [] by {
      assert cached[1..] == [];
    }
    assert DedupAfter({}, api) == api by {
      var seen1: set<string> := {} + {liveFox.scientificName};
      assert api[1..] == [eagle] && [eagle][1..] == [];
      assert eagle.scientificName !in seen1;
      assert DedupAfter(seen1, [eagle]) == [eagle] + DedupAfter(seen1 + {eagle.scientificName}, []);
      assert DedupAfter({}, api) == [liveFox] + DedupAfter(seen1, [eagle]);
      assert [liveFox] + [eagle] == api;
    }
    assert Merge(cached, api) == api;
  }

  /** A failed bridge call leaves exactly the cached records. */
  lemma BridgeFailureFallsBackToCache()
    ensures var rows := [Row("1", "Red Fox", "Vulpes vulpes", Mammal),
                         Row("2", "Gray Wolf", "Canis lupus", Mammal),
                         Row("3", "Barn Owl", "Tyto alba", Bird)];
            var invoke := (r: FetchSpecies.Request) => BridgeFailed;
            ResolvedSpecies(Some(rows), SpeciesQuery(Some(Here), 50.0, "", []), invoke) == TransformDbToSpecies(rows)
  {
  }

  /** Without a position or on a failed call, duplicate cached names are not merged away. */
  lemma CachedDuplicatesSurviveWithoutPosition(invoke: FetchSpecies.Request -> BridgeOutcome)
    ensures var rows := [Row("1", "Red Fox", "Vulpes vulpes", Mammal), Row("2", "Fox", "Vulpes vulpes", Mammal)];
            var out := ResolvedSpecies(Some(rows), SpeciesQuery(None, 50.0, "", []), invoke);
            && out == [RowToSpecies(rows[0]), RowToSpecies(rows[1])]
            && out[0].scientificName == out[1].scientificName
            && !UniqueNames(out)
  {
    var rows := [Row("1", "Red Fox", "Vulpes vulpes", Mammal), Row("2", "Fox", "Vulpes vulpes", Mammal)];
    var cached := TransformDbToSpecies(rows);
    assert cached == [RowToSpecies(rows[0]), RowToSpecies(rows[1])];
  }

  /** One step of the search over a list with a head. */
  lemma SearchCons(x: Species, rest: seq<Species>, query: string)
    requires query != ""
    ensures SearchFilter([x] + rest, query) == (if MatchesQuery(x, query) then [x] else []) + SearchFilter(rest, query)
  {
    assert ([x] + rest)[0] == x && ([x] + rest)[1..] == rest;
  }

  /** One step of the category filter: the head is kept or dropped, then the tail is filtered. */
  lemma CategoryStep(s: seq<Species>, categories: seq<string>)
    requires s != [] && categories != []
    ensures CategoryFilter(s, categories) ==
              (if CategoryName(s[0].category) in categories then [s[0]] else []) + CategoryFilter(s[1..], categories)
  {
  }

  /** "eagle" occurs, case-insensitively, in the common name "Bald Eagle". */
  lemma EagleMatches(s: Species)
    requires s.name == "Bald Eagle"
    ensures MatchesQuery(s, "eagle")
  {
    assert Text.ToLower("eagle") == "eagle";
    assert Text.ToLower("Bald Eagle") == "bald eagle";
    assert Text.OccursAt("bald eagle", "eagle", 5);
  }

  /** A string without the letter 'a' cannot contain "eagle". */
  lemma NoEagleWithoutA(t: string)
    requires forall k :: 0 <= k < |t| ==> t[k] != 'a'
    ensures !Text.Contains(t, "eagle")
  {
    forall i: nat | i <= |t| ensures !Text.OccursAt(t, "eagle", i) {
      if i + 5 <= |t| {
        assert t[i..i + 5][1] == t[i + 1] != 'a';
      }
    }
  }

  /** "eagle" occurs in neither name of the red fox. */
  lemma FoxDoesNotMatch(s: Species)
    requires s.name == "Red Fox" && s.scientificName == "Vulpes vulpes"
    ensures !MatchesQuery(s, "eagle")
  {
    assert Text.ToLower("eagle") == "eagle";
    assert Text.ToLower("Red Fox") == "red fox";
    assert Text.ToLower("Vulpes vulpes") == "vulpes vulpes";
    NoEagleWithoutA("red fox");
    NoEagleWithoutA("vulpes vulpes");
  }

  /** The search step over an eagle and a fox, searching for "eagle", keeps the eagle alone. */
  lemma SearchKeepsEagle(eagle: Species, fox: Species)
    requires eagle.name == "Bald Eagle"
    requires fox.name == "Red Fox" && fox.scientificName == "Vulpes vulpes"
    ensures SearchFilter([eagle, fox], "eagle") == [eagle]
  {
    EagleMatches(eagle);
    FoxDoesNotMatch(fox);
    SearchCons(fox, [], "eagle");
    assert [fox] + [] == [fox];
    SearchCons(eagle, [fox], "eagle");
    assert [eagle] + [fox] == [eagle, fox];
  }

  /** With both records cached and no position, searching "eagle" returns the Bald Eagle alone. */
  lemma SearchKeepsMatchesOnly(invoke: FetchSpecies.Request -> BridgeOutcome)
    ensures var eagleRow := Row("a", "Bald Eagle", "Haliaeetus leucocephalus", Bird);
            var foxRow := Row("b", "Red Fox", "Vulpes vulpes", Mammal);
            ResolvedSpecies(Some([eagleRow, foxRow]), SpeciesQuery(None, 50.0, "eagle", []), invoke) == [RowToSpecies(eagleRow)]
  {
    var eagleRow := Row("a", "Bald Eagle", "Haliaeetus leucocephalus", Bird);
    var foxRow := Row("b", "Red Fox", "Vulpes vulpes", Mammal);
    var eagle, fox := RowToSpecies(eagleRow), RowToSpecies(foxRow);
    var cacheRead, q := Some([eagleRow, foxRow]), SpeciesQuery(None, 50.0, "eagle", []);
    assert CachedSpecies(cacheRead) == [eagle, fox];
    SearchKeepsEagle(eagle, fox);
    ResolvedWithoutBridge(cacheRead, q, invoke, invoke);
  }


  /** Only birds pass the filter for "bird". */
  lemma NotABird(x: Species)
    requires x.category != Bird
    ensures CategoryName(x.category) !in ["bird"]
  {
  }

  lemma Pair(x: Species, y: Species)
    ensures [x] + [y] == [x, y]
  {
  }

  /** The last three of the five records below: one bird, then two others. */
  lemma BirdThenOthers(c: Species, d: Species, e: Species)
    requires c.category == Bird && d.category != Bird && e.category != Bird
    ensures CategoryFilter([c, d, e], ["bird"]) == [c]
  {
    var cats := ["bird"];
    var s := [c, d, e];
    assert CategoryName(c.category) in cats;
    NotABird(d);
    NotABird(e);
    assert CategoryFilter([], cats) == [];
    CategoryStep(s[2..], cats);
    assert s[2..][0] == e && s[2..][1..] == [];
    CategoryStep(s[1..], cats);
    assert s[1..][0] == d && s[1..][1..] == s[2..];
    CategoryStep(s, cats);
    assert s[0] == c && s[0..] == s;
  }

  /** The category step over five merged records, two of them birds, keeps the two birds in order. */
  lemma CategoryKeepsBirdsInOrder(a: Species, b: Species, c: Species, d: Species, e: Species)
    requires a.category == Bird && c.category == Bird
    requires b.category != Bird && d.category != Bird && e.category != Bird
    ensures CategoryFilter([a, b, c, d, e], ["bird"]) == [a, c]
  {
    var cats := ["bird"];
    var s := [a, b, c, d, e];
    assert CategoryName(a.category) in cats;
    NotABird(b);
    BirdThenOthers(c, d, e);
    assert s[2..] == [c, d, e];
    CategoryStep(s[1..], cats);
    assert s[1..][0] == b && s[1..][1..] == s[2..];
    CategoryStep(s, cats);
    Pair(a, c);
  }
}
