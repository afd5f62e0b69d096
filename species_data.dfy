/** The canonical species record that flows through every part of the app. */
module SpeciesData {
  import opened Wrappers

  datatype Category =
    | Mammal | Bird | Reptile | Amphibian | Insect | Fish
    | Arachnid | Crustacean | Plant | Fungus | Other

  datatype Rarity = Common | Uncommon | Rare | Endangered

  /** A species' known range as a latitude/longitude rectangle (degrees). */
  datatype Box = Box(latMin: real, latMax: real, lonMin: real, lonMax: real)

  /** A position in decimal degrees, as the geolocation hook reports it. */
  datatype Point = Point(latitude: real, longitude: real)

  /**
   * One species. `scientificName` is the key on which lists from different
   * sources are merged. `imageUrl` is optional because a database row may
   * carry a null image; the live bridge always supplies a string. The last
   * five fields are the optional enrichment the bridge attaches.
   */
  datatype Species = Species(
    id: string,
    name: string,
    scientificName: string,
    category: Category,
    region: string,
    imageUrl: Option<string>,
    rarity: Rarity,
    coordinates: Option<Box>,
    inaturalistId: Option<nat>,
    wikipediaUrl: Option<string>,
    description: Option<string>,
    observationCount: Option<int>,
    imageUrls: Option<seq<Option<string>>>,
    source: Option<string>)

  /** The string the source stores in the `category` field. */
  function CategoryName(c: Category): string {
    match c
    case Mammal => "mammal"
    case Bird => "bird"
    case Reptile => "reptile"
    case Amphibian => "amphibian"
    case Insect => "insect"
    case Fish => "fish"
    case Arachnid => "arachnid"
    case Crustacean => "crustacean"
    case Plant => "plant"
    case Fungus => "fungus"
    case Other => "other"
  }
}
