/** The already-parsed GeoJSON feature collection that the map builder receives.

    app.py works on the dictionaries `json.load` produces; this module gives
    them the shape the rest of the model reads: a feature has an optional
    geometry member and an optional properties dictionary of scalar values.
    Positions follow the GeoJSON order (longitude, latitude) of section 3.1.1
    of RFC 7946. */
module GeoJson {

  datatype Option<T> = None | Some(value: T)

  /** A scalar JSON property value as Python holds it after `json.load`.
      `Num` carries the text Python's `str()` prints for the number; float
      formatting itself is not part of this model. */
  datatype Value = Str(s: string) | Num(text: string) | Bool(b: bool) | Null

  /** A properties dictionary: attribute name to value. */
  type Props = map<string, Value>

  /** Python's `str(v)`, which is what an f-string inserts. */
  function Render(v: Value): (r: string)
    ensures v.Str? ==> r == v.s
    ensures v.Null? ==> r == "None"
    ensures v.Bool? ==> r == (if v.b then "True" else "False")
  {
    match v
    case Str(s) => s
    case Num(t) => t
    case Bool(b) => if b then "True" else "False"
    case Null => "None"
  }

  /** A position: longitude first, then latitude. */
  datatype Position = Position(lon: real, lat: real)

  /** A geometry "type" tag other than the two line types; the empty string
      stands for a missing tag. */
  type OtherKind = k: string | k != "LineString" && k != "MultiLineString" witness "Point"

  /** The geometry object of a feature, by its "type" tag. `Other` stands for
      every tag other than the two line types, and for a missing tag. A line
      geometry whose "coordinates" member is missing has an empty sequence
      here, as `geom.get("coordinates", [])` gives. */
  datatype Geometry =
    | LineString(coords: seq<Position>)
    | MultiLineString(lines: seq<seq<Position>>)
    | Other(kind: OtherKind)

  /** The "geometry" member of a feature: missing, present with the JSON value
      null (an unlocated feature, section 3.2 of RFC 7946), or a geometry. */
  datatype GeometryMember = Missing | JsonNull | Given(geometry: Geometry)

  /** One pipe segment. The geometry is never changed; the properties
      dictionary is created on demand and updated in place by the tooltip
      injection loop. */
  class Feature {
    const geometry: GeometryMember
    var properties: Option<Props>

    constructor (geometry: GeometryMember, properties: Option<Props>)
      ensures this.geometry == geometry && this.properties == properties
    {
      this.geometry := geometry;
      this.properties := properties;
    }
  }

  /** The geometry members of a feature list, in order. */
  function Geometries(features: seq<Feature>): (gs: seq<GeometryMember>)
    ensures |gs| == |features|
    ensures forall i :: 0 <= i < |features| ==> gs[i] == features[i].geometry
  {
    seq(|features|, i requires 0 <= i < |features| => features[i].geometry)
  }
}
