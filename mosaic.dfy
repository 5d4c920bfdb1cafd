/**
  The MosaicJSON document shared by the scripts: a map from quadkey (a
  base-4 tile address such as "0231") to the list of asset URLs covering that
  tile, plus the document's other top-level fields.
 */
module MosaicJson {

  type Quadkey = string

  /** The asset URLs stored for one quadkey. */
  type Assets = seq<string>

  /** The `tiles` object of a MosaicJSON document. */
  type Tiles = map<Quadkey, Assets>

  /** The `bounds` field: west, south, east, north, in degrees. */
  datatype Bounds = Bounds(west: real, south: real, east: real, north: real)

  /**
    A MosaicJSON document. `fields` holds every other top-level field
    (mosaicjson version, minzoom, maxzoom, quadkey_zoom, center, ...) as
    serialized text; no script here interprets them.
   */
  datatype Mosaic = Mosaic(tiles: Tiles, bounds: Bounds, fields: map<string, string>)
}
