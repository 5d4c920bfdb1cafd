/**
  dynamodb_upload.py, create_items: one key-value-store record per entry of
  a mosaic's `tiles` object, with the quadkey as the partition key.
 */
module DynamodbUpload {
  import opened MosaicJson

  /** One member of the `tiles` object: quadkey and asset list. */
  type Entry = (Quadkey, Assets)

  /** The record `{'quadkey': quadkey, 'assets': assets}`. */
  datatype Item = Item(quadkey: Quadkey, assets: Assets)

  /** A JSON object never repeats a key, so neither does `tiles.items()`. */
  predicate DistinctKeys(entries: seq<Entry>)
  {
    forall i, j :: 0 <= i < j < |entries| ==> entries[i].0 != entries[j].0
  }

  /** The tiles map whose items, in iteration order, are `entries`. */
  function TilesOf(entries: seq<Entry>): Tiles
  {
    if entries == [] then map[]
    else TilesOf(entries[..|entries| - 1])[entries[|entries| - 1].0 := entries[|entries| - 1].1]
  }

  /** The table the items describe: partition key to assets. */
  function Table(items: seq<Item>): map<Quadkey, Assets>
  {
    if items == [] then map[]
    else Table(items[..|items| - 1])[items[|items| - 1].quadkey := items[|items| - 1].assets]
  }

  /** `items` holds one record per entry, same key and value, same order. */
  predicate ItemsFor(entries: seq<Entry>, items: seq<Item>)
  {
    |items| == |entries| &&
    forall i :: 0 <= i < |items| ==> items[i].quadkey == entries[i].0 && items[i].assets == entries[i].1
  }

  /** create_items */
  method CreateItems(tiles: seq<Entry>) returns (items: seq<Item>)
    ensures ItemsFor(tiles, items)
  {
    items := [];
    var i := 0;
    while i < |tiles|
      invariant 0 <= i <= |tiles|
      invariant ItemsFor(tiles[..i], items)
    {
      var (quadkey, assets) := tiles[i];
      var item := Item(quadkey, assets);
      items := items + [item];
      i := i + 1;
    }
    assert tiles[..i] == tiles;
  }

  /** The item quadkeys are pairwise distinct, so no upload overwrites another. */
  lemma ItemKeysDistinct(entries: seq<Entry>, items: seq<Item>)
    requires DistinctKeys(entries) && ItemsFor(entries, items)
    ensures forall i, j :: 0 <= i < j < |items| ==> items[i].quadkey != items[j].quadkey
  {
  }

  /** The uploaded table is exactly the mosaic's tiles map. */
  lemma {:induction false} TableIsTiles(entries: seq<Entry>, items: seq<Item>)
    requires ItemsFor(entries, items)
    ensures Table(items) == TilesOf(entries)
  {
    if items != [] {
      var n := |items|;
      assert ItemsFor(entries[..n - 1], items[..n - 1]);
      TableIsTiles(entries[..n - 1], items[..n - 1]);
    }
  }

  /** With distinct keys, the tiles map has exactly one entry per item. */
  lemma {:induction false} OneItemPerTile(entries: seq<Entry>)
    requires DistinctKeys(entries)
    ensures |TilesOf(entries)| == |entries|
    ensures forall i :: 0 <= i < |entries| ==>
      entries[i].0 in TilesOf(entries) && TilesOf(entries)[entries[i].0] == entries[i].1
  {
    if entries != [] {
      var n := |entries|;
      var init := entries[..n - 1];
      OneItemPerTile(init);
      assert entries[n - 1].0 !in TilesOf(init) by {
        forall i | 0 <= i < n - 1
          ensures init[i].0 != entries[n - 1].0
        {
        }
        KeysOfTiles(init);
      }
    }
  }

  /** Every key of TilesOf comes from some entry. */
  lemma {:induction false} KeysOfTiles(entries: seq<Entry>)
    ensures forall k :: k in TilesOf(entries) ==> exists i :: 0 <= i < |entries| && entries[i].0 == k
  {
    if entries != [] {
      var n := |entries|;
      var init := entries[..n - 1];
      KeysOfTiles(init);
      forall k | k in TilesOf(entries)
        ensures exists i :: 0 <= i < n && entries[i].0 == k
      {
        if k != entries[n - 1].0 {
          assert k in TilesOf(init);
          var i :| 0 <= i < |init| && init[i].0 == k;
          assert entries[i].0 == k;
        }
      }
    }
  }
}
