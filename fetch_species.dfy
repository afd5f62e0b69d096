/**
 * The edge function that asks iNaturalist for research-grade observations
 * near a point and maps each one to a species record. Only the mapping and
 * the request defaults are modelled; the HTTP exchange is not.
 */
module FetchSpecies {
  import opened Wrappers
  import opened Text
  import opened SpeciesData

  /** The parts of an iNaturalist taxon the mapping reads. */
  datatype Taxon = Taxon(
    id: nat,
    name: string,
    preferredCommonName: Option<string>,
    iconicTaxonName: Option<string>,
    wikipediaUrl: Option<string>,
    wikipediaSummary: Option<string>,
    observationsCount: Option<int>)

  datatype Photo = Photo(url: Option<string>)

  /** One observation; `location` is the reported `[lat, lon]` pair. */
  datatype Observation = Observation(
    taxon: Taxon,
    photos: Option<seq<Photo>>,
    placeGuess: Option<string>,
    qualityGrade: string,
    location: Option<Point>)

  /** The request body; absent fields are `None`. */
  datatype Request = Request(latitude: real, longitude: real, radius: Option<real>, perPage: Option<int>)

  /** The parameters of the observation search after defaults are applied. */
  datatype SearchParams = SearchParams(latitude: real, longitude: real, radius: real, perPage: int)

  const DefaultRadius: real := 50.0
  const DefaultPerPage: int := 30
  const IdPrefix := "inaturalist-"
  const Source := "inaturalist"

  /** Destructuring with defaults: only a missing field takes its default. */
  function ResolveRequest(req: Request): (q: SearchParams)
    ensures q.latitude == req.latitude && q.longitude == req.longitude
    ensures q.radius == req.radius.GetOr(DefaultRadius) && q.perPage == req.perPage.GetOr(DefaultPerPage)
  {
    SearchParams(req.latitude, req.longitude, req.radius.GetOr(DefaultRadius), req.perPage.GetOr(DefaultPerPage))
  }

  const IconicTaxa: map<string, Category> := map[
    "Mammalia" := Mammal,
    "Aves" := Bird,
    "Reptilia" := Reptile,
    "Amphibia" := Amphibian,
    "Insecta" := Insect,
    "Actinopterygii" := Fish,
    "Arachnida" := Arachnid,
    "Plantae" := Plant,
    "Fungi" := Fungus,
    "Mollusca" := Other,
    "Crustacea" := Crustacean
  ]

  /** `mapIconicTaxon`: the table entry, and `other` for anything else, a missing name included. */
  function MapIconicTaxon(iconicTaxon: Option<string>): (c: Category)
    ensures iconicTaxon.Some? && iconicTaxon.value in IconicTaxa ==> c == IconicTaxa[iconicTaxon.value]
    ensures iconicTaxon.None? || iconicTaxon.value !in IconicTaxa ==> c == Other
  {
    if iconicTaxon.Some? && iconicTaxon.value in IconicTaxa then IconicTaxa[iconicTaxon.value] else Other
  }

  /** Only one taxon group leads to each category other than `other`, and nothing leads to `crustacean` but Crustacea. */
  lemma MapIconicTaxonInverse(t: Option<string>)
    ensures MapIconicTaxon(t) == Mammal <==> t == Some("Mammalia")
    ensures MapIconicTaxon(t) == Bird <==> t == Some("Aves")
    ensures MapIconicTaxon(t) == Reptile <==> t == Some("Reptilia")
    ensures MapIconicTaxon(t) == Amphibian <==> t == Some("Amphibia")
    ensures MapIconicTaxon(t) == Insect <==> t == Some("Insecta")
    ensures MapIconicTaxon(t) == Fish <==> t == Some("Actinopterygii")
    ensures MapIconicTaxon(t) == Arachnid <==> t == Some("Arachnida")
    ensures MapIconicTaxon(t) == Plant <==> t == Some("Plantae")
    ensures MapIconicTaxon(t) == Fungus <==> t == Some("Fungi")
    ensures MapIconicTaxon(t) == Crustacean <==> t == Some("Crustacea")
  {
  }

  /**
   * `determineRarity`: more than 100000 observations is common, more than
   * 10000 uncommon, anything else (a missing count included) rare. The
   * quality grade is accepted and ignored.
   */
  function DetermineRarity(quality: string, observationCount: Option<int>): (r: Rarity)
    ensures r == Common <==> observationCount.Some? && observationCount.value > 100000
    ensures r == Uncommon <==> observationCount.Some? && 10000 < observationCount.value <= 100000
    ensures r == Rare <==> observationCount.None? || observationCount.value <= 10000
    ensures r != Endangered
  {
    if observationCount.Some? && observationCount.value > 100000 then Common
    else if observationCount.Some? && observationCount.value > 10000 then Uncommon
    else Rare
  }

  function Rank(r: Rarity): nat {
    match r
    case Rare => 0
    case Uncommon => 1
    case Common => 2
    case Endangered => 3
  }

  /** More observations never make a taxon rarer. */
  lemma RarityMonotone(q1: string, q2: string, a: int, b: int)
    requires a <= b
    ensures Rank(DetermineRarity(q1, Some(a))) <= Rank(DetermineRarity(q2, Some(b)))
  {
  }

  lemma RarityBoundaries(q: string)
    ensures DetermineRarity(q, Some(100001)) == Common
    ensures DetermineRarity(q, Some(100000)) == Uncommon
    ensures DetermineRarity(q, Some(10001)) == Uncommon
    ensures DetermineRarity(q, Some(10000)) == Rare
  {
  }

  /**
   * The photo URL with its size token upgraded from thumbnail to medium: a
   * URL without the token is kept as it is; otherwise only its first token
   * becomes "medium".
   */
  function UpgradeUrl(url: string): (r: string)
    ensures !Contains(url, "square") ==> r == url
    ensures forall i: nat :: OccursAt(url, "square", i) && (forall j: nat :: j < i ==> !OccursAt(url, "square", j)) ==>
              r == url[..i] + "medium" + url[i + 6..]
  {
    ReplaceFirst(url, "square", "medium")
  }

  /** `photo?.url?.replace('square', 'medium') || ''` for the first photo. */
  function ImageUrlOf(photos: Option<seq<Photo>>): (r: string)
    ensures photos.None? || photos.value == [] || photos.value[0].url.None? ==> r == ""
    ensures photos.Some? && photos.value != [] && photos.value[0].url.Some? ==> r == UpgradeUrl(photos.value[0].url.value)
  {
    if photos.Some? && photos.value != [] && photos.value[0].url.Some? then UpgradeUrl(photos.value[0].url.value)
    else ""
  }

  /** `obs.photos?.map(p => p.url?.replace('square', 'medium')) || []`. */
  function ImageUrlsOf(photos: Option<seq<Photo>>): (r: seq<Option<string>>)
    ensures photos.None? ==> r == []
    ensures photos.Some? ==> |r| == |photos.value|
    ensures photos.Some? ==> forall i :: 0 <= i < |r| ==>
              r[i] == if photos.value[i].url.Some? then Some(UpgradeUrl(photos.value[i].url.value)) else None
  {
    match photos
    case None => []
    case Some(ps) =>
      seq(|ps|, i requires 0 <= i < |ps| => if ps[i].url.Some? then Some(UpgradeUrl(ps[i].url.value)) else None)
  }

  /** The synthetic range: it holds the reported point and spans two degrees on each axis, centred on it. */
  function RangeAround(loc: Point): (b: Box)
    ensures b.latMin <= loc.latitude <= b.latMax && b.lonMin <= loc.longitude <= b.lonMax
    ensures b.latMax - b.latMin == 2.0 && b.lonMax - b.lonMin == 2.0
    ensures b.latMin + b.latMax == 2.0 * loc.latitude && b.lonMin + b.lonMax == 2.0 * loc.longitude
  {
    Box(loc.latitude - 1.0, loc.latitude + 1.0, loc.longitude - 1.0, loc.longitude + 1.0)
  }

  /** The transform applied to each observation inside `data.results.map`. */
  function ToSpecies(obs: Observation): (s: Species)
    ensures s.id == IdPrefix + NatToString(obs.taxon.id)
    ensures s.scientificName == obs.taxon.name
    ensures s.name == OrElse(obs.taxon.preferredCommonName, obs.taxon.name)
    ensures s.category == MapIconicTaxon(obs.taxon.iconicTaxonName)
    ensures s.region == OrElse(obs.placeGuess, "Unknown")
    ensures s.imageUrl == Some(ImageUrlOf(obs.photos))
    ensures s.imageUrls == Some(ImageUrlsOf(obs.photos))
    ensures s.rarity == DetermineRarity(obs.qualityGrade, obs.taxon.observationsCount)
    ensures s.coordinates.Some? <==> obs.location.Some?
    ensures obs.location.Some? ==> s.coordinates == Some(RangeAround(obs.location.value))
    ensures s.inaturalistId == Some(obs.taxon.id)
    ensures s.wikipediaUrl == obs.taxon.wikipediaUrl && s.description == obs.taxon.wikipediaSummary
    ensures s.observationCount == obs.taxon.observationsCount
    ensures s.source == Some(Source)
  {
    var taxon := obs.taxon;
    Species(
      IdPrefix + NatToString(taxon.id),
      OrElse(taxon.preferredCommonName, taxon.name),
      taxon.name,
      MapIconicTaxon(taxon.iconicTaxonName),
      OrElse(obs.placeGuess, "Unknown"),
      Some(ImageUrlOf(obs.photos)),
      DetermineRarity(obs.qualityGrade, taxon.observationsCount),
      if obs.location.Some? then Some(RangeAround(obs.location.value)) else None,
      Some(taxon.id),
      taxon.wikipediaUrl,
      taxon.wikipediaSummary,
      taxon.observationsCount,
      Some(ImageUrlsOf(obs.photos)),
      Some(Source))
  }

  /** `data.results.map(...)`: one species per observation, in order. */
  function TransformResults(results: seq<Observation>): (r: seq<Species>)
    ensures |r| == |results|
    ensures forall i :: 0 <= i < |r| ==> r[i] == ToSpecies(results[i])
  {
    seq(|results|, i requires 0 <= i < |results| => ToSpecies(results[i]))
  }

  /** Observations of different taxa never share an id, and every id carries the provider prefix. */
  lemma IdsDistinguishTaxa(a: Observation, b: Observation)
    ensures ToSpecies(a).id[..|IdPrefix|] == IdPrefix
    ensures ToSpecies(a).id == ToSpecies(b).id <==> a.taxon.id == b.taxon.id
  {
    if ToSpecies(a).id == ToSpecies(b).id {
      PrefixCancel(IdPrefix, NatToString(a.taxon.id), NatToString(b.taxon.id));
      NatToStringInjective(a.taxon.id, b.taxon.id);
    }
  }

  /** The display name is never empty unless the scientific name is. */
  lemma NameFallback(obs: Observation)
    ensures ToSpecies(obs).name == "" ==> obs.taxon.name == ""
    ensures Truthy(obs.taxon.preferredCommonName) ==> ToSpecies(obs).name == obs.taxon.preferredCommonName.value
  {
  }
}
