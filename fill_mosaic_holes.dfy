/**
  fill_mosaic_holes.py: give every mosaic of a list the same quadkeys by
  copying, into each mosaic, the entries it lacks from the other mosaics.

  The list is updated in place. The copying loop has no `break` and writes
  into the mosaics while it scans them, so the value a missing quadkey
  receives is the one held by the LAST mosaic of the list that holds it at
  that moment; FillTakesLastHolder shows that this is always the last mosaic
  of the list that held the quadkey originally.
 */
module FillMosaicHoles {
  import opened Wrappers
  import opened MosaicJson

  // ---------------------------------------------------------------------------
  // specification

  /** The last index j in [lo, hi) whose mosaic holds quadkey k, if any. */
  function LastHolder(ms: seq<Mosaic>, k: Quadkey, lo: nat, hi: nat): (r: Option<nat>)
    requires hi <= |ms|
    ensures r.Some? ==> lo <= r.value < hi && k in ms[r.value].tiles
    ensures r.Some? ==> forall j :: r.value < j < hi ==> k !in ms[j].tiles
    ensures r.None? ==> forall j :: lo <= j < hi ==> k !in ms[j].tiles
    decreases hi
  {
    if hi <= lo then None
    else if k in ms[hi - 1].tiles then Some(hi - 1)
    else LastHolder(ms, k, lo, hi - 1)
  }

  /** The quadkeys of the first n mosaics: `quadkeys` after n rounds of lines 53-54. */
  function QuadkeysUpTo(ms: seq<Mosaic>, n: nat): (keys: set<Quadkey>)
    requires n <= |ms|
    ensures forall k :: k in keys <==> LastHolder(ms, k, 0, n).Some?
  {
    if n == 0 then {} else QuadkeysUpTo(ms, n - 1) + ms[n - 1].tiles.Keys
  }

  /** The set of all quadkeys of all mosaics (the `quadkeys` set of line 52). */
  function AllQuadkeys(ms: seq<Mosaic>): (keys: set<Quadkey>)
    ensures forall k :: k in keys <==> LastHolder(ms, k, 0, |ms|).Some?
  {
    QuadkeysUpTo(ms, |ms|)
  }

  /** Every quadkey of every mosaic is in AllQuadkeys. */
  lemma InAllQuadkeys(ms: seq<Mosaic>, p: nat, k: Quadkey)
    requires p < |ms| && k in ms[p].tiles
    ensures k in AllQuadkeys(ms)
  {
  }

  /**
    The value mosaic i holds for quadkey k once it has been filled, as the
    loop computes it: its own value if it has one; otherwise the value of the
    last later mosaic holding k; otherwise (no later mosaic holds k) the value
    mosaic i - 1 was filled with, which reaches mosaic i through the scan of
    mosaic i - 1 followed by the self-assignment when the scan meets mosaic i.
   */
  function FilledValue(ms: seq<Mosaic>, i: nat, k: Quadkey): (v: Assets)
    requires i < |ms| && k in AllQuadkeys(ms)
    ensures k in ms[i].tiles ==> v == ms[i].tiles[k]
    decreases i
  {
    if k in ms[i].tiles then ms[i].tiles[k]
    else match LastHolder(ms, k, i + 1, |ms|)
      case Some(j) => ms[j].tiles[k]
      case None =>
        if i == 0 then LastHolderSplit(ms, k, 0, 1, |ms|); assert false; []
        else FilledValue(ms, i - 1, k)
  }

  /** The tiles of mosaic i after filling. */
  function FilledTiles(ms: seq<Mosaic>, i: nat): (t: Tiles)
    requires i < |ms|
    ensures t.Keys == AllQuadkeys(ms)
    ensures forall k :: k in ms[i].tiles ==> k in t && t[k] == ms[i].tiles[k]
  {
    map k | k in AllQuadkeys(ms) :: FilledValue(ms, i, k)
  }

  /** The list handle_mosaics returns. */
  function Filled(ms: seq<Mosaic>): (r: seq<Mosaic>)
    ensures |r| == |ms|
    ensures forall p :: 0 <= p < |ms| ==>
      r[p].bounds == ms[p].bounds && r[p].fields == ms[p].fields && r[p].tiles == FilledTiles(ms, p)
  {
    seq(|ms|, p requires 0 <= p < |ms| => ms[p].(tiles := FilledTiles(ms, p)))
  }

  // ---------------------------------------------------------------------------
  // properties

  /**
    The shape of the result: same length and order, only the tiles written,
    every mosaic holding every quadkey (hence the same number of quadkeys, so
    the assertion of lines 71-72 holds), and no entry overwritten.
   */
  lemma FilledShape(ms: seq<Mosaic>)
    ensures |Filled(ms)| == |ms|
    ensures forall p :: 0 <= p < |ms| ==>
      Filled(ms)[p].bounds == ms[p].bounds && Filled(ms)[p].fields == ms[p].fields
    ensures forall p :: 0 <= p < |ms| ==> Filled(ms)[p].tiles.Keys == AllQuadkeys(ms)
    ensures forall p :: 0 <= p < |ms| ==> |Filled(ms)[p].tiles| == |AllQuadkeys(ms)|
    ensures forall p, k :: 0 <= p < |ms| && k in ms[p].tiles ==>
      k in Filled(ms)[p].tiles && Filled(ms)[p].tiles[k] == ms[p].tiles[k]
  {
    var r := Filled(ms);
    forall p | 0 <= p < |ms|
      ensures r[p].bounds == ms[p].bounds && r[p].fields == ms[p].fields
      ensures r[p].tiles.Keys == AllQuadkeys(ms) && |r[p].tiles| == |AllQuadkeys(ms)|
    {
      assert r[p] == ms[p].(tiles := FilledTiles(ms, p));
      assert |r[p].tiles| == |r[p].tiles.Keys|;
    }
    forall p, k | 0 <= p < |ms| && k in ms[p].tiles
      ensures k in r[p].tiles && r[p].tiles[k] == ms[p].tiles[k]
    {
      InAllQuadkeys(ms, p, k);
      assert r[p].tiles == FilledTiles(ms, p);
    }
  }

  /** LastHolder over [lo, hi) is the one over [mid, hi) if there is one, else the one over [lo, mid). */
  lemma {:induction false} LastHolderSplit(ms: seq<Mosaic>, k: Quadkey, lo: nat, mid: nat, hi: nat)
    requires lo <= mid <= hi <= |ms|
    ensures LastHolder(ms, k, lo, hi) ==
      if LastHolder(ms, k, mid, hi).Some? then LastHolder(ms, k, mid, hi) else LastHolder(ms, k, lo, mid)
    decreases hi
  {
    if hi > mid && k !in ms[hi - 1].tiles {
      LastHolderSplit(ms, k, lo, mid, hi - 1);
    }
  }

  /**
    The fill rule as written: a quadkey missing from a mosaic receives the
    value of the last mosaic of the list that originally holds it, wherever
    that mosaic stands relative to the one being filled.
   */
  lemma {:induction false} FillTakesLastHolder(ms: seq<Mosaic>, i: nat, k: Quadkey)
    requires i < |ms| && k in AllQuadkeys(ms) && k !in ms[i].tiles
    ensures LastHolder(ms, k, 0, |ms|).Some?
    ensures FilledValue(ms, i, k) == ms[LastHolder(ms, k, 0, |ms|).value].tiles[k]
    decreases i
  {
    LastHolderSplit(ms, k, 0, i + 1, |ms|);
    if LastHolder(ms, k, i + 1, |ms|).None? && i > 0 {
      LastHolderSplit(ms, k, 0, i, i + 1);
      if k !in ms[i - 1].tiles {
        LastHolderSplit(ms, k, 0, i, |ms|);
        FillTakesLastHolder(ms, i - 1, k);
      }
    }
  }

  /** Every value in a filled mosaic is the value some input mosaic held for that quadkey. */
  lemma FilledFromInput(ms: seq<Mosaic>, p: nat, k: Quadkey)
    requires p < |ms| && k in Filled(ms)[p].tiles
    ensures exists j :: 0 <= j < |ms| && k in ms[j].tiles && Filled(ms)[p].tiles[k] == ms[j].tiles[k]
  {
    if k !in ms[p].tiles {
      FillTakesLastHolder(ms, p, k);
    }
  }

  /** Filling a filled list changes nothing: every quadkey now hits the `continue`. */
  lemma FillIdempotent(ms: seq<Mosaic>)
    ensures Filled(Filled(ms)) == Filled(ms)
  {
    var f := Filled(ms);
    if |ms| > 0 {
      assert AllQuadkeys(f) == AllQuadkeys(ms) by {
        assert f[0].tiles.Keys == AllQuadkeys(ms);
      }
      forall p | 0 <= p < |f|
        ensures Filled(f)[p] == f[p]
      {
        FilledTilesFixed(f, p);
      }
    }
  }

  /** A mosaic that already holds every quadkey keeps its tiles. */
  lemma FilledTilesFixed(ms: seq<Mosaic>, p: nat)
    requires p < |ms| && ms[p].tiles.Keys == AllQuadkeys(ms)
    ensures FilledTiles(ms, p) == ms[p].tiles
  {
    forall k | k in ms[p].tiles
      ensures FilledTiles(ms, p)[k] == ms[p].tiles[k]
    {
    }
  }

  /** With a single mosaic there is nothing to fill from: it is returned unchanged. */
  lemma FillSingle(m: Mosaic)
    ensures Filled([m]) == [m]
  {
    assert AllQuadkeys([m]) == m.tiles.Keys by {
      assert [m][..0] == [];
    }
    assert Filled([m])[0].tiles == m.tiles;
  }

  // ---------------------------------------------------------------------------
  // handle_mosaics

  /** What tiles holds for k, if anything. */
  function Lookup(tiles: Tiles, k: Quadkey): Option<Assets>
  {
    if k in tiles then Some(tiles[k]) else None
  }

  /**
    What mosaic j holds for quadkey k while mosaic i is being filled (j != i):
    mosaics before i are filled already, mosaics after i are as input.
   */
  function HeldAt(orig: seq<Mosaic>, i: nat, k: Quadkey, j: nat): Option<Assets>
    requires i < |orig| && j < |orig| && k in AllQuadkeys(orig)
  {
    if j < i then Some(FilledValue(orig, j, k))
    else if k in orig[j].tiles then Some(orig[j].tiles[k])
    else None
  }

  /**
    What mosaic i holds for a quadkey k it lacked, once the scan of lines
    62-64 has visited mosaics 0 .. j - 1.
   */
  function ScanValue(orig: seq<Mosaic>, i: nat, k: Quadkey, j: nat): Option<Assets>
    requires i < |orig| && j <= |orig| && k in AllQuadkeys(orig)
  {
    match LastHolder(orig, k, i + 1, j)
    case Some(h) => Some(orig[h].tiles[k])
    case None =>
      if i > 0 && j > 0 then Some(FilledValue(orig, (if j < i then j else i) - 1, k)) else None
  }

  /** One step of the scan: visiting mosaic j copies what it holds, if anything. */
  lemma ScanStep(orig: seq<Mosaic>, i: nat, k: Quadkey, j: nat)
    requires i < |orig| && j < |orig| && k in AllQuadkeys(orig)
    ensures ScanValue(orig, i, k, j + 1) ==
      if j == i then ScanValue(orig, i, k, j)
      else if HeldAt(orig, i, k, j).Some? then HeldAt(orig, i, k, j)
      else ScanValue(orig, i, k, j)
  {
  }

  /** After the whole list has been scanned, mosaic i holds its filled value. */
  lemma ScanEnd(orig: seq<Mosaic>, i: nat, k: Quadkey)
    requires i < |orig| && k in AllQuadkeys(orig) && k !in orig[i].tiles
    ensures ScanValue(orig, i, k, |orig|) == Some(FilledValue(orig, i, k))
  {
  }

  /**
    The scan of lines 62-64 for one quadkey k missing from mosaics[i]: every
    mosaic holding k at that moment is copied into mosaics[i], the last one
    winning.
   */
  method FillQuadkey(mosaics: array<Mosaic>, i: nat, k: Quadkey, ghost orig: seq<Mosaic>)
    requires i < mosaics.Length == |orig| && k in AllQuadkeys(orig)
    requires forall p :: 0 <= p < |orig| && p != i ==> Lookup(mosaics[p].tiles, k) == HeldAt(orig, i, k, p)
    requires k !in orig[i].tiles && k !in mosaics[i].tiles
    modifies mosaics
    ensures mosaics[i] == old(mosaics[i]).(tiles := old(mosaics[i].tiles)[k := FilledValue(orig, i, k)])
    ensures forall p :: 0 <= p < mosaics.Length && p != i ==> mosaics[p] == old(mosaics[p])
  {
    var j := 0;
    while j < mosaics.Length
      invariant 0 <= j <= mosaics.Length
      invariant forall p :: 0 <= p < mosaics.Length && p != i ==> mosaics[p] == old(mosaics[p])
      invariant mosaics[i] == old(mosaics[i]).(tiles := mosaics[i].tiles)
      invariant mosaics[i].tiles - {k} == old(mosaics[i].tiles)
      invariant Lookup(mosaics[i].tiles, k) == ScanValue(orig, i, k, j)
    {
      ScanStep(orig, i, k, j);
      if k in mosaics[j].tiles {
        mosaics[i] := mosaics[i].(tiles := mosaics[i].tiles[k := mosaics[j].tiles[k]]);
      }
      j := j + 1;
    }
    ScanEnd(orig, i, k);
  }

  /** The quadkeys of every mosaic are among all quadkeys. */
  lemma OwnKeysInAll(orig: seq<Mosaic>, i: nat)
    requires i < |orig|
    ensures orig[i].tiles.Keys <= AllQuadkeys(orig)
  {
    forall q | q in orig[i].tiles
      ensures q in AllQuadkeys(orig)
    {
      InAllQuadkeys(orig, i, q);
    }
  }

  /** Tiles that agree with the filled tiles key by key are the filled tiles. */
  lemma FilledTilesEqual(orig: seq<Mosaic>, i: nat, t: Tiles)
    requires i < |orig|
    requires forall q :: q in t <==> q in AllQuadkeys(orig)
    requires forall q :: q in t ==> t[q] == FilledValue(orig, i, q)
    ensures t == FilledTiles(orig, i)
  {
  }

  /** Visiting quadkey k keeps mosaic i agreeing with its filled tiles on the visited quadkeys. */
  lemma VisitStep(orig: seq<Mosaic>, i: nat, done: set<Quadkey>, k: Quadkey, before: Tiles, after: Tiles)
    requires i < |orig| && done <= AllQuadkeys(orig) && k in AllQuadkeys(orig)
    requires orig[i].tiles.Keys <= AllQuadkeys(orig)
    requires forall q :: q in before <==> q in orig[i].tiles || q in done
    requires forall q :: q in before ==> before[q] == FilledValue(orig, i, q)
    requires after == if k in before then before else before[k := FilledValue(orig, i, k)]
    ensures forall q :: q in after <==> q in orig[i].tiles || q in done + {k}
    ensures forall q :: q in after ==> after[q] == FilledValue(orig, i, q)
  {
  }

  /** Lines 57-64 for one mosaic: every quadkey it lacks is filled. */
  method FillMosaic(mosaics: array<Mosaic>, i: nat, quadkeys: set<Quadkey>, ghost orig: seq<Mosaic>)
    requires i < mosaics.Length == |orig| && quadkeys == AllQuadkeys(orig)
    requires forall p :: 0 <= p < i ==> mosaics[p] == orig[p].(tiles := FilledTiles(orig, p))
    requires forall p :: i <= p < |orig| ==> mosaics[p] == orig[p]
    modifies mosaics
    ensures mosaics[i] == orig[i].(tiles := FilledTiles(orig, i))
    ensures forall p :: 0 <= p < mosaics.Length && p != i ==> mosaics[p] == old(mosaics[p])
  {
    var todo := quadkeys;
    ghost var done: set<Quadkey> := {};
    OwnKeysInAll(orig, i);
    while todo != {}
      invariant done + todo == quadkeys && done <= quadkeys
      invariant forall p :: 0 <= p < mosaics.Length && p != i ==> mosaics[p] == old(mosaics[p])
      invariant mosaics[i] == orig[i].(tiles := mosaics[i].tiles)
      invariant forall q :: q in mosaics[i].tiles <==> q in orig[i].tiles || q in done
      invariant forall q :: q in mosaics[i].tiles ==> mosaics[i].tiles[q] == FilledValue(orig, i, q)
      decreases todo
    {
      var quadkey :| quadkey in todo;
      ghost var before := mosaics[i].tiles;
      if quadkey !in mosaics[i].tiles {
        FillQuadkey(mosaics, i, quadkey, orig);
      }
      VisitStep(orig, i, done, quadkey, before, mosaics[i].tiles);
      todo := todo - {quadkey};
      done := done + {quadkey};
    }
    FilledTilesEqual(orig, i, mosaics[i].tiles);
  }

  /** Lines 67-69: the number of quadkeys of each mosaic, in list order. */
  method CountQuadkeys(mosaics: array<Mosaic>) returns (nKeys: seq<int>)
    ensures |nKeys| == mosaics.Length
    ensures forall p :: 0 <= p < |nKeys| ==> nKeys[p] == |mosaics[p].tiles.Keys|
  {
    nKeys := [];
    var i := 0;
    while i < mosaics.Length
      invariant 0 <= i <= mosaics.Length && |nKeys| == i
      invariant forall p :: 0 <= p < i ==> nKeys[p] == |mosaics[p].tiles.Keys|
    {
      nKeys := nKeys + [|mosaics[i].tiles.Keys|];
      i := i + 1;
    }
  }

  /**
    handle_mosaics: fills every mosaic in place and then checks that all of
    them hold the same number of quadkeys; the check is proved never to fail.
   */
  method HandleMosaics(mosaics: array<Mosaic>)
    modifies mosaics
    ensures mosaics[..] == Filled(old(mosaics[..]))
  {
    ghost var orig := mosaics[..];
    var n := mosaics.Length;

    // the union of the quadkeys of every mosaic
    var quadkeys: set<Quadkey> := {};
    var i := 0;
    while i < n
      invariant 0 <= i <= n
      invariant mosaics[..] == orig
      invariant quadkeys == QuadkeysUpTo(orig, i)
    {
      quadkeys := quadkeys + mosaics[i].tiles.Keys;
      i := i + 1;
    }

    i := 0;
    while i < n
      invariant 0 <= i <= n
      invariant forall p :: 0 <= p < i ==> mosaics[p] == orig[p].(tiles := FilledTiles(orig, p))
      invariant forall p :: i <= p < n ==> mosaics[p] == orig[p]
    {
      FillMosaic(mosaics, i, quadkeys, orig);
      i := i + 1;
    }
    assert mosaics[..] == Filled(orig);

    // every mosaic now has as many quadkeys as the first
    var nKeys := CountQuadkeys(mosaics);
    assert forall p :: 0 <= p < |nKeys| ==> nKeys[p] == nKeys[0];
  }
}
