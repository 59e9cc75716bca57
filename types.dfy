/** The records the tour application stores for each listing (types.ts).
    Numbers are exact reals; a JavaScript optional field is an `Option`. */
module Types {

  datatype Option<+T> = None | Some(value: T)

  /** A canvas-space point of the floor plan. */
  datatype Point = Point(x: real, y: real)

  /** A floor-plan marker that links a position to one panorama. */
  datatype Hotspot = Hotspot(id: string, photoId: string, position: Point, labelText: string)

  /** One panorama with its four image variants; only the day-furnished `url` is required. */
  datatype Photo = Photo(
    id: string,
    url: string,                    // day, furnished
    emptyUrl: Option<string>,       // day, empty
    nightUrl: Option<string>,       // night, furnished
    emptyNightUrl: Option<string>,  // night, empty
    name: string,
    description: string)

  /** One listing. */
  datatype Apartment = Apartment(
    id: string,
    title: string,
    price: string,
    location: string,
    description: string,
    area: string,
    rooms: real,
    mainImage: string,
    photos: seq<Photo>,
    floorPlanPoints: seq<Point>,
    hotspots: seq<Hotspot>)

  /** JavaScript truthiness of an optional string: present and non-empty. */
  predicate Truthy(s: Option<string>) {
    s.Some? && s.value != ""
  }

  /** JavaScript `a || b` where `a` is an optional string. */
  function OrElse(a: Option<string>, b: string): (r: string)
    ensures Truthy(a) ==> r == a.value
    ensures !Truthy(a) ==> r == b
  {
    if Truthy(a) then a.value else b
  }
}
