/** The two documents of the store: a Place and a User. Identifiers are the string form of the
    database's object ids (the controllers compare them with `toString()`). */
module Models {

  type PlaceId = string
  type UserId = string
  /** Path of an uploaded file in the asset store. */
  type Path = string
  /** Output of the one-way password hash. */
  type Hash = string
  /** A signed bearer token. */
  type Token = string

  /** A geographic coordinate pair, each component in degrees scaled by 10^7, which represents
      the seven-decimal constants of the source exactly. */
  datatype Location = Location(latE7: int, lngE7: int)

  /** The fixed location every created place receives (geocoding is switched off):
      latitude 40.7484474, longitude -73.9871516. */
  const DefaultLocation: Location := Location(407484474, -739871516)

  datatype Place = Place(
    title: string,
    description: string,
    address: string,
    location: Location,
    image: Path,
    creator: UserId)

  datatype User = User(
    name: string,
    email: string,
    password: Hash,
    image: Path,
    places: seq<PlaceId>)
}
