# Wildlife explorer: species resolution, modelled in Dafny

This project models how the wildlife-explorer app decides which species to
show for a location, and proves properties of that model. It covers six
parts of the app:

- the range test and the continent classifier (`locationUtils.ts`);
- the mapping of iNaturalist observations to species records in the
  `fetch-species` edge function;
- the `useSpecies` hook: the database-row transform, the merge that
  deduplicates on `scientificName` with live records first, and the search
  and category steps of the query function;
- the Explore page's region detection, region sync and `filteredSpecies`;
- the filter menu's category toggle, reset and active-filter count;
- the place-name ladder of `getCityFromCoordinates`.

Modules, one per source file, plus shared helpers:

| file | module | models |
|---|---|---|
| `wrappers.dfy` | `Wrappers` | `Option`, for `undefined`/`null` fields |
| `seqs.dfy` | `Seqs` | `Array.prototype.filter` as `Filter`; `IsSubseq`, the order-preserving subsequence relation |
| `text.dfy` | `Text` | string truthiness and `||`; ASCII `toLowerCase`/`toUpperCase`; `includes`; `replace` (first occurrence); `${n}` for a natural number |
| `species_data.dfy` | `SpeciesData` | the `Species` record, its `category` and `rarity` enums, the range box, a position |
| `location_utils.dfy` | `LocationUtils` | `isInRange`, `getRegionFromCoordinates`, `filterSpeciesByLocation` |
| `fetch_species.dfy` | `FetchSpecies` | request defaults, `mapIconicTaxon`, `determineRarity`, the per-observation transform |
| `use_species.dfy` | `UseSpecies` | `transformDbToSpecies`, `mergeSpeciesLists` (a method with two loops and a `seen` set), the query function (a method) |
| `explore.dfy` | `Explore` | `detectedRegion`, the region-sync effect, `filteredSpecies` |
| `filter_menu.dfy` | `FilterMenu` | `CATEGORIES`, `REGIONS`, `toggleCategory`, `resetFilters`, `activeFilterCount`, which controls are shown |
| `geocoding.dfy` | `Geocoding` | the address to place-name ladder |
| `scenarios.dfy` | `Scenarios` | concrete instances of the query function over small caches and bridge replies, and of its category step over a five-record list, each a proved lemma |

Modelling choices:

- Coordinates and distances are exact `real`s. Observation counts are `int`s.
- Great-circle distance is a parameter `dist: (Point, Point) -> real`. No
  fact about it is assumed, except where a lemma's `requires` states one.
- JavaScript truthiness is explicit. A string is falsy when it is absent or
  `""`. A number is falsy when it is absent or `0`.
- Case-insensitive matching uses ASCII case maps.
- The database read is an input of type `Option<seq<DbRow>>`. `None` means
  the store reported an error. A reply with `data: null` is the same as an
  empty list.
- The edge-function call is an input `invoke: Request -> BridgeOutcome`.
  `BridgeFailed` covers an error reply, a thrown call and a missing body.
- `Species.imageUrl` is an `Option`, because a database row's
  `primary_image_url` is nullable and is copied through unchanged. The
  bridge always supplies `Some`, never null.
- The Explore page's species list is a parameter. The source imports a
  `speciesData` export that `src/data/species.ts` no longer has.
- A database range box needs all four bounds truthy. A bound of exactly
  `0` (the equator or the prime meridian) therefore drops the whole box, and
  the species is then never in range. This is modelled as the code does it
  (`UseSpecies.ZeroBoundDropsBox`).

## Model

| member | source | states |
|---|---|---|
| `LocationUtils.Nearest` | src/utils/locationUtils.ts:48-50 | the clamped point lies in the box when the box is well formed, and is the point itself when the point is inside |
| `LocationUtils.NearestIsClosestPerAxis` | src/utils/locationUtils.ts:48-50 | no point of a well-formed box is nearer to the user on either axis than the clamped point |
| `LocationUtils.IsInRange` | src/utils/locationUtils.ts:29-46 | a species without coordinates is never in range; a point inside the box (inclusive bounds) is in range for any limit, zero and negative included |
| `LocationUtils.OutsideUsesDistance` | src/utils/locationUtils.ts:48-57 | outside the box the answer is exactly `dist(user, clamped) <= maxDistance` |
| `LocationUtils.InRangeMonotone` | src/utils/locationUtils.ts:29-57 | raising the limit never drops a species |
| `LocationUtils.BoxTestIsShortcut` | src/utils/locationUtils.ts:38-57 | when `dist(p, p) == 0` and the limit is non-negative, the box test agrees with the distance test alone |
| `LocationUtils.GetRegionFromCoordinates` | src/utils/locationUtils.ts:61-89 | the result is one of the six continents or "Unknown" |
| `LocationUtils.GetRegionIsFirstMatch` | src/utils/locationUtils.ts:64-89 | the if-chain equals a first-match scan of the ordered continent table |
| `LocationUtils.FirstMatchIsFirst` | src/utils/locationUtils.ts:64-89 | the scan gives "Unknown" exactly when no entry matches, else the name of the first matching entry |
| `LocationUtils.RegionFirstMatchWins` | src/utils/locationUtils.ts:61-89 | "Unknown" exactly when no box holds the point; otherwise the first listed box holding it names the region |
| `LocationUtils.OverlapExamples` | src/utils/locationUtils.ts:68-86 | (45, 40) is in Asia's box yet gives Europe; (0, 45) is in Africa's yet gives Asia; (-10, 150) is in Australia's yet gives Asia |
| `LocationUtils.FilterSpeciesByLocation` | src/utils/locationUtils.ts:93-101 | no position returns the input unchanged; otherwise an order-preserving subsequence holding exactly the species in range, each as often as in the input |
| `FetchSpecies.ResolveRequest` | supabase/functions/fetch-species/index.ts:14 | a missing radius becomes 50 and a missing page size 30; given values are kept |
| `FetchSpecies.MapIconicTaxon` | supabase/functions/fetch-species/index.ts:87-101 | a listed group gives its table value; any other name, or none, gives `other` |
| `FetchSpecies.MapIconicTaxonInverse` | supabase/functions/fetch-species/index.ts:88-100 | each category other than `other` is reached from exactly one group; `crustacean` only from Crustacea |
| `FetchSpecies.DetermineRarity` | supabase/functions/fetch-species/index.ts:104-108 | common iff more than 100000 observations, uncommon iff more than 10000 and at most 100000, rare otherwise (a missing count included), never endangered |
| `FetchSpecies.RarityMonotone` | supabase/functions/fetch-species/index.ts:104-108 | more observations never give a rarer label, whatever the quality grades |
| `FetchSpecies.RarityBoundaries` | supabase/functions/fetch-species/index.ts:105-107 | 100001 gives common, 100000 uncommon, 10001 uncommon, 10000 rare |
| `FetchSpecies.ImageUrlOf` | supabase/functions/fetch-species/index.ts:45-53 | the first photo's URL with its size token upgraded, or `""` when there is no photo or no URL |
| `FetchSpecies.ImageUrlsOf` | supabase/functions/fetch-species/index.ts:54 | one upgraded URL (or undefined) per photo, and `[]` without photos |
| `FetchSpecies.UpgradeUrl` | supabase/functions/fetch-species/index.ts:53 | a URL without "square" is unchanged; otherwise only its first "square" becomes "medium", the rest of the URL kept |
| `FetchSpecies.ToSpecies` | supabase/functions/fetch-species/index.ts:43-68 | every field of the record: prefixed id, name fallback, region fallback, a string image URL, the ±1° box exactly when a location exists, source "inaturalist" |
| `FetchSpecies.TransformResults` | supabase/functions/fetch-species/index.ts:43 | one record per observation, same count and order |
| `FetchSpecies.IdsDistinguishTaxa` | supabase/functions/fetch-species/index.ts:48 | every id starts with "inaturalist-", and two ids are equal iff the taxon ids are |
| `FetchSpecies.RangeAround` | supabase/functions/fetch-species/index.ts:56-61 | the synthetic box contains the observed point, is 2 degrees wide on each axis and is centred on the point |
| `FetchSpecies.NameFallback` | supabase/functions/fetch-species/index.ts:49 | a non-empty common name is used; the name is empty only if the scientific name is |
| `Text.DecimalRoundTrip` | supabase/functions/fetch-species/index.ts:48 | reading back the decimal rendering of a taxon id gives the id |
| `UseSpecies.RowToSpecies` | src/hooks/useSpecies.tsx:100-114 | fields copied; falsy region becomes "Unknown"; missing status becomes common; a box exactly when all four bounds are truthy |
| `UseSpecies.TransformDbToSpecies` | src/hooks/useSpecies.tsx:99-115 | one record per row, in row order |
| `UseSpecies.ZeroBoundDropsBox` | src/hooks/useSpecies.tsx:108-113 | a bound of exactly 0 leaves the record without coordinates |
| `UseSpecies.Merge` | src/hooks/useSpecies.tsx:117-138 | the merged names are exactly the names of `api` together with those of `cached` |
| `UseSpecies.DedupAfterShape` | src/hooks/useSpecies.tsx:122-135 | one pass with a `seen` set keeps each unseen name once, in input order |
| `UseSpecies.DedupAfterFirstFresh` | src/hooks/useSpecies.tsx:122-135 | the pass keeps a record exactly when it is the first record of a not-yet-seen name |
| `UseSpecies.DedupAfterAppend` | src/hooks/useSpecies.tsx:121-135 | a pass over two lists is the pass over the first, then the second with the first's names seen |
| `UseSpecies.MergeSpeciesLists` | src/hooks/useSpecies.tsx:117-138 | the two loops compute `Merge`: the api pass followed by the cached pass with api's names already seen |
| `UseSpecies.MergeUniqueNames` | src/hooks/useSpecies.tsx:117-138 | merged names are pairwise distinct, and every name of either input appears |
| `UseSpecies.MergeIsSinglePass` | src/hooks/useSpecies.tsx:121-135 | the merge is one pass over `api + cached`: an order-preserving subsequence of it, at most `|api| + |cached|` long |
| `UseSpecies.MergeApiSide` | src/hooks/useSpecies.tsx:121-127 | a merged record whose name occurs in `api` is the first `api` record of that name, and every such first record is kept |
| `UseSpecies.MergeCachedSide` | src/hooks/useSpecies.tsx:129-135 | a merged record whose name is missing from `api` is the first `cached` record of that name, and every such first record is kept |
| `UseSpecies.MergeApiPriority` | src/hooks/useSpecies.tsx:121-135 | a merged record with a name found in `api` is the first `api` record of that name; the others are first `cached` records of names missing from `api`; both kinds are all kept |
| `UseSpecies.PushUnseen` | src/hooks/useSpecies.tsx:121-135 | one loop over a list appends exactly the pass over it to the merged list and adds all its names to `seen` |
| `UseSpecies.MatchesQuery` | src/hooks/useSpecies.tsx:60-64 | the empty query matches every record; a match needs the query to be no longer than the name or the scientific name |
| `UseSpecies.MatchesQueryIgnoresCase` | src/hooks/useSpecies.tsx:60-64 | lower-casing the query, or both names, never changes whether a record matches |
| `UseSpecies.SearchFilter` | src/hooks/useSpecies.tsx:58-65 | an empty query changes nothing; otherwise an order-preserving subsequence holding exactly the records matching the query case-insensitively, each as often as in the input |
| `UseSpecies.CategoryFilter` | src/hooks/useSpecies.tsx:67-70 | an empty list changes nothing; otherwise an order-preserving subsequence holding exactly the records whose category is listed, each as often as in the input |
| `UseSpecies.UniqueSubseq` | src/hooks/useSpecies.tsx:58-70 | narrowing a list with distinct names keeps the names distinct |
| `UseSpecies.QueryWithDefaults` | src/hooks/useSpecies.tsx:13 | missing options become radius 50, an empty query and no categories |
| `UseSpecies.BridgeRequest` | src/hooks/useSpecies.tsx:36-43 | the edge function, after its defaults, searches at the user's position with the hook's radius and a page of 30 |
| `UseSpecies.CachedSpecies` | src/hooks/useSpecies.tsx:17-30 | a store error leaves the cached list empty; otherwise the transformed rows |
| `UseSpecies.CombinedSpecies` | src/hooks/useSpecies.tsx:32-56 | without a position, or when the call fails, the cached list; otherwise exactly `Merge(cached, api)`, so live records win on a shared name (`MergeApiPriority`), with distinct names covering every name of both lists, as an order-preserving subsequence of `api + cached` |
| `UseSpecies.ResolvedSpecies` | src/hooks/useSpecies.tsx:16-70 | exactly the combined records passing the search and category steps, each as often as in the combined list, in combined order; with no search and no categories, the combined list |
| `UseSpecies.QuerySpecies` | src/hooks/useSpecies.tsx:16-73 | the step-by-step query function returns the cache, merged with live records when there is a position and the call succeeded, then searched, then filtered by category |
| `UseSpecies.ResolvedWithoutBridge` | src/hooks/useSpecies.tsx:32-70 | without a position the bridge is not consulted; without a position or on a failed call the result is the two steps applied to the cached records alone |
| `UseSpecies.ResolvedLiveRecordsWin` | src/hooks/useSpecies.tsx:50-70 | after a successful call, every returned record whose name occurs among the live records is the first live record of that name |
| `UseSpecies.ResolvedNamesUnique` | src/hooks/useSpecies.tsx:50-70 | whenever the live records were merged in, the returned names are pairwise distinct |
| `Scenarios.LiveRecordReplacesCachedDuplicate` | src/hooks/useSpecies.tsx:33-56 | a cached and a live red fox with one scientific name plus a live eagle give exactly the live fox and the eagle |
| `Scenarios.BridgeFailureFallsBackToCache` | src/hooks/useSpecies.tsx:53-55 | a failed call with three cached rows returns exactly those three records |
| `Scenarios.CachedDuplicatesSurviveWithoutPosition` | src/hooks/useSpecies.tsx:17-70 | two cached rows sharing a scientific name, with no position, both reach the result, so its names are not distinct |
| `Scenarios.SearchKeepsMatchesOnly` | src/hooks/useSpecies.tsx:16-65 | the query function with Bald Eagle and Red Fox cached, no position and the search "eagle" returns only Bald Eagle |
| `Scenarios.CategoryKeepsBirdsInOrder` | src/hooks/useSpecies.tsx:67-70 | the category step for birds over five records, the first and third of them birds, returns exactly those two in order |
| `Explore.DetectedRegion` | src/pages/Explore.tsx:22-27 | the classifier's continent when there is a position, otherwise nothing |
| `Explore.SyncRegion` | src/pages/Explore.tsx:29-33 | the selection is kept, or replaced by a non-empty detected continent in "near me" mode; outside that mode it is always kept |
| `Explore.SyncRegionFollowsPosition` | src/pages/Explore.tsx:29-33 | in "near me" mode with a position the selection becomes the detected continent; otherwise it stays |
| `Explore.GeoStep` | src/pages/Explore.tsx:38-44 | the geographic step keeps an order-preserving subsequence |
| `Explore.FilteredSpecies` | src/pages/Explore.tsx:35-54 | the shown list is an order-preserving subsequence of the input |
| `Explore.RadiusMode` | src/pages/Explore.tsx:39-51 | with "near me" and a position: exactly the species in range that match the search, each as often as in the input, whatever region is selected |
| `Explore.RegionMode` | src/pages/Explore.tsx:41-51 | otherwise, with a chosen region: exactly the matching species of that region, each as often as in the input, whatever the radius or distance function |
| `Explore.NoGeographicFilter` | src/pages/Explore.tsx:36-51 | with neither mode only the search step applies |
| `Explore.InitialStateShowsAll` | src/pages/Explore.tsx:16-19 | with the page's initial state and no position yet, every species is shown |
| `FilterMenu.Without` | src/components/FilterMenu.tsx:59 | removing an id drops every copy of it and keeps every other id, as often as before and in order |
| `FilterMenu.ToggleCategory` | src/components/FilterMenu.tsx:57-63 | toggling flips membership of the id and no other; an absent id is appended; a present id is removed, the others keeping their order and multiplicity |
| `FilterMenu.FilterGone` | src/components/FilterMenu.tsx:58-59 | removing an id that occurs shortens the list |
| `FilterMenu.WithoutAppended` | src/components/FilterMenu.tsx:58-61 | removing a just-appended absent id restores the list |
| `FilterMenu.ToggleTwiceRestores` | src/components/FilterMenu.tsx:57-63 | toggling an absent id twice gives back exactly the original list |
| `FilterMenu.WithoutNoDup` | src/components/FilterMenu.tsx:58-59 | removing an id keeps a duplicate-free list duplicate-free |
| `FilterMenu.ToggleKeepsNoDup` | src/components/FilterMenu.tsx:57-63 | toggling keeps a duplicate-free selection duplicate-free |
| `FilterMenu.ResetFilters` | src/components/FilterMenu.tsx:65-69 | after a reset no filter counts as active and the distance is 5 |
| `FilterMenu.ActiveFilterCount` | src/components/FilterMenu.tsx:71-73 | the number of categories, plus one exactly when a region is chosen; zero exactly with no categories and all regions |
| `FilterMenu.ActiveFilterCountMeaning` | src/components/FilterMenu.tsx:57-73 | changing the distance never changes the count; toggling an absent category on adds one; toggling a selected one off lowers it |
| `FilterMenu.VisibleControls` | src/components/FilterMenu.tsx:98-116 | exactly one of the region selector and the distance slider is shown, the slider in location mode |
| `FilterMenu.CategoriesAreSpeciesCategories` | src/components/FilterMenu.tsx:12-22 | each offered id names a species category, once; crustacean and other are not offered; every other category is |
| `FilterMenu.RegionsCoverClassifier` | src/components/FilterMenu.tsx:24-33 | every continent the classifier names is selectable; "Unknown" is not; "Antarctica" is selectable but never detected |
| `Geocoding.CityOf` | src/utils/geocoding.ts:16 | the city is the first truthy value among city, town, village and county |
| `Geocoding.StateOf` | src/utils/geocoding.ts:17 | the state when it is truthy, otherwise the region |
| `Geocoding.CountryOf` | src/utils/geocoding.ts:18 | the country is the upper-cased country code, truthy exactly when the code is |
| `Geocoding.Label` | src/utils/geocoding.ts:20-28 | the place name is never empty; with no state, and no city or no country code, it is "your location" |
| `Geocoding.CityFromReply` | src/utils/geocoding.ts:13-32 | the place name is never empty; a failure or a missing address gives "your location" |
| `Geocoding.LabelShapes` | src/utils/geocoding.ts:20-28 | "City, State"; else "City, CC"; else the state alone; else "your location" |
| `Geocoding.StatePreferredOverCountry` | src/utils/geocoding.ts:20-23 | with a city, a state and a country code, the state is used |

## Left out

- Haversine distance (`calculateDistance`, `toRad`): floating-point trigonometry. It is the parameter `dist`.
- The default limit of 1000 km on `isInRange` and `filterSpeciesByLocation`: every caller passes a limit.
- All network and backend I/O: the iNaturalist fetch, building its query URL, CORS headers and `Response` objects in `serve`; the Nominatim fetch; the Supabase `select` and `functions.invoke`. Their results are inputs.
- Logging through `console.log`/`console.error`.
- React and React Query plumbing: query keys, `staleTime`/`gcTime`, `useGeolocation`, `useCityName`, and `useSpeciesById`, which is a database lookup followed by the same row transform.
- Presentation, auth and CRUD pages: species detail and chat, lifelist, cards, navigation, routing.
- FetchSpecies.MapIconicTaxon: a JavaScript object lookup also finds inherited keys such as `"constructor"`. The model treats only the eleven listed names as keys.
- FetchSpecies.ToSpecies: an observation without a `taxon` makes the source throw and the edge function reply with an error. The model requires a taxon. A missing `taxon.name` is not represented either.
- UseSpecies.ResolvedNamesUnique: distinct names are promised only when the live records were merged in. Nothing here constrains the names of cached rows (the database schema is not part of this model), and without a position, or when the call fails, cached duplicates reach the result unchanged (`Scenarios.CachedDuplicatesSurviveWithoutPosition`).
- UseSpecies.RowToSpecies: the `category` and `conservation_status` columns are cast to their enum types without validation. The model assumes they hold valid enum names, or null for the status.
- FetchSpecies.ToSpecies: `obs.location` is taken to be a numeric `[latitude, longitude]` pair. The provider's reply schema is not part of this model; were the field a `"lat,lng"` string, supabase/functions/fetch-species/index.ts:57-60 would index characters and `+ 1` would concatenate strings, which the model does not capture.
- Geocoding.CityFromReply: a `country_code` that is not a string would throw and give the fallback. The model types it as a string.
- Unicode case mapping: `toLowerCase`/`toUpperCase` change ASCII letters only.
- JavaScript number semantics (NaN, infinities, rounding): coordinates are exact reals.
