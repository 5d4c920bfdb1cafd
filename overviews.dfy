/**
  overviews.py, split_mosaic / subset_mosaic: cut a mosaic into one mosaic
  per "overview quadkey", the prefix of length overview_zoom of its tile
  quadkeys. Writing the files is left out; SplitMosaic gives, for each output
  file name, the mosaic written to it.
 */
module Overviews {
  import opened Strings
  import opened MosaicJson

  /**
    Python's slice `s[:n]` for any integer n: the first n characters, the
    whole string when n >= |s|, and all but the last -n characters when n < 0.
   */
  function PyPrefix(s: string, n: int): (r: string)
    ensures StartsWith(s, r)
    ensures n >= |s| ==> r == s
    ensures 0 <= n <= |s| ==> |r| == n
    ensures n < 0 ==> |r| == if |s| + n < 0 then 0 else |s| + n
  {
    if n >= |s| then s
    else if n >= 0 then s[..n]
    else if |s| + n < 0 then []
    else s[..|s| + n]
  }

  /** `{qk[:overview_zoom] for qk in quadkeys}` */
  function OverviewQuadkeys(tiles: Tiles, zoom: int): (r: set<Quadkey>)
    ensures forall k :: k in tiles ==> PyPrefix(k, zoom) in r
    ensures forall o :: o in r ==> exists k :: k in tiles && PyPrefix(k, zoom) == o
  {
    set k | k in tiles :: PyPrefix(k, zoom)
  }

  /** The tiles whose quadkey starts with the overview quadkey (lines 65-68). */
  function SubsetTiles(tiles: Tiles, overviewQk: Quadkey, zoom: int): (r: Tiles)
    ensures forall k :: k in r <==> k in tiles && PyPrefix(k, zoom) == overviewQk
    ensures forall k :: k in r ==> r[k] == tiles[k]
  {
    map k | k in tiles && PyPrefix(k, zoom) == overviewQk :: tiles[k]
  }

  /**
    subset_mosaic: a copy of the mosaic in which only `tiles` and `bounds` are
    replaced. `tileBounds` stands for mercantile.bounds of the overview tile.
   */
  function SubsetMosaic(mosaic: Mosaic, overviewQk: Quadkey, zoom: int, tileBounds: Quadkey -> Bounds): (r: Mosaic)
    ensures r.fields == mosaic.fields
    ensures r.bounds == tileBounds(overviewQk)
    ensures forall k :: k in r.tiles <==> k in mosaic.tiles && PyPrefix(k, zoom) == overviewQk
    ensures forall k :: k in r.tiles ==> r.tiles[k] == mosaic.tiles[k]
  {
    mosaic.(tiles := SubsetTiles(mosaic.tiles, overviewQk, zoom), bounds := tileBounds(overviewQk))
  }

  /** The output file name of line 53, `f'{prefix}{overview_qk}.json'`. */
  function OutName(prefix: string, overviewQk: Quadkey): (name: string)
    ensures |name| == |prefix| + |overviewQk| + 5
    ensures StartsWith(name, prefix) && EndsWith(name, ".json")
    ensures name[|prefix|..|name| - 5] == overviewQk
  {
    prefix + overviewQk + ".json"
  }

  /** Different overview quadkeys are written to different files. */
  lemma OutNameInjective(prefix: string)
    ensures forall a, b :: OutName(prefix, a) == OutName(prefix, b) ==> a == b
  {
    forall a, b | OutName(prefix, a) == OutName(prefix, b)
      ensures a == b
    {
      var na, nb := OutName(prefix, a), OutName(prefix, b);
      assert a == na[|prefix|..|na| - 5];
    }
  }

  /**
    split_mosaic without the file writing: for each overview quadkey, the
    mosaic written to the file OutName(prefix, overview quadkey). Every one of
    them holds at least one tile.
   */
  function SplitMosaic(mosaic: Mosaic, zoom: int, tileBounds: Quadkey -> Bounds): (overviews: map<Quadkey, Mosaic>)
    ensures overviews.Keys == OverviewQuadkeys(mosaic.tiles, zoom)
    ensures forall o :: o in overviews ==> overviews[o] == SubsetMosaic(mosaic, o, zoom, tileBounds)
    ensures forall o :: o in overviews ==> |overviews[o].tiles| > 0
  {
    SubsetsNonEmpty(mosaic.tiles, zoom);
    map o | o in OverviewQuadkeys(mosaic.tiles, zoom) :: SubsetMosaic(mosaic, o, zoom, tileBounds)
  }

  // ---------------------------------------------------------------------------
  // the subsets partition the tiles

  /** No tile belongs to two subsets. */
  lemma SubsetsDisjoint(tiles: Tiles, zoom: int, a: Quadkey, b: Quadkey)
    requires a != b
    ensures SubsetTiles(tiles, a, zoom).Keys !! SubsetTiles(tiles, b, zoom).Keys
  {
  }

  /**
    Every tile belongs to exactly one subset, the one of its own prefix, with
    its value unchanged: together the subsets give back the whole tiles map.
   */
  lemma SubsetsCover(tiles: Tiles, zoom: int, k: Quadkey)
    requires k in tiles
    ensures PyPrefix(k, zoom) in OverviewQuadkeys(tiles, zoom)
    ensures k in SubsetTiles(tiles, PyPrefix(k, zoom), zoom)
    ensures SubsetTiles(tiles, PyPrefix(k, zoom), zoom)[k] == tiles[k]
    ensures forall o :: o in OverviewQuadkeys(tiles, zoom) && k in SubsetTiles(tiles, o, zoom) ==>
      o == PyPrefix(k, zoom)
  {
  }

  /** Every subset split_mosaic produces holds at least one tile. */
  lemma SubsetsNonEmpty(tiles: Tiles, zoom: int)
    ensures forall o :: o in OverviewQuadkeys(tiles, zoom) ==> |SubsetTiles(tiles, o, zoom)| > 0
  {
    forall o | o in OverviewQuadkeys(tiles, zoom)
      ensures |SubsetTiles(tiles, o, zoom)| > 0
    {
      var k :| k in tiles && PyPrefix(k, zoom) == o;
      assert k in SubsetTiles(tiles, o, zoom);
    }
  }
}
