/**
  site/src/util.js, getViewStateFromHash: read a map view state from a page
  URL hash of the form "#zoom/latitude/longitude/bearing/pitch".

  JavaScript's Number() (float parsing) is a parameter of the model: it maps
  each hash segment to a finite number or to a non-finite one (NaN, ±Infinity).
  A JavaScript object whose values are numbers or null is a map from key to
  Option<real>; `undefined` is None too, since `== null` does not tell them apart.
 */
module ViewStateHash {
  import opened Wrappers
  import opened Strings

  /** The result of JavaScript's Number() on a string. */
  datatype JsNumber = Finite(value: real) | NonFinite

  /** `(Number.isFinite(val) && val) || null`: zero and non-finite values become null. */
  function Present(n: JsNumber): (r: Option<real>)
    ensures r.Some? <==> n.Finite? && n.value != 0.0
    ensures r.Some? ==> r.value == n.value
  {
    if n.Finite? && n.value != 0.0 then Some(n.value) else None
  }

  /** The five keys a view state can hold. */
  datatype Key = Bearing | Latitude | Longitude | Pitch | Zoom

  /** The keys of `viewState`, in the order of its object literal (= Object.keys order). */
  const Keys: seq<Key> := [Bearing, Latitude, Longitude, Pitch, Zoom]

  /** Where each key stands in Keys. */
  function Index(key: Key): (i: nat)
    ensures i < |Keys| && Keys[i] == key
  {
    match key
    case Bearing => 0
    case Latitude => 1
    case Longitude => 2
    case Pitch => 3
    case Zoom => 4
  }

  /** Where each key stands in `[zoom, latitude, longitude, bearing, pitch] = hashArray`. */
  function Position(key: Key): nat
  {
    match key
    case Zoom => 0
    case Latitude => 1
    case Longitude => 2
    case Bearing => 3
    case Pitch => 4
  }

  /** Each key reads its own slot of `hashArray`. */
  lemma PositionsDistinct(a: Key, b: Key)
    requires Position(a) == Position(b)
    ensures a == b
  {
  }

  /** `hashArray[i]`, undefined past the end of the array. */
  function Element(values: seq<Option<real>>, i: nat): Option<real>
  {
    if i < |values| then values[i] else None
  }

  /** `hash.substring(1).split("/").map(Number).map(val => ...)` */
  function HashValues(hash: string, number: string -> JsNumber): (values: seq<Option<real>>)
    requires hash != []
    ensures |values| == |Split(hash[1..], '/')|
    ensures forall i :: 0 <= i < |values| ==> values[i] == Present(number(Split(hash[1..], '/')[i]))
  {
    var segments := Split(hash[1..], '/');
    seq(|segments|, i requires 0 <= i < |segments| => Present(number(segments[i])))
  }

  /** The object literal after its null keys are deleted: a key for each non-null element. */
  function NonNull(values: seq<Option<real>>): (r: map<Key, Option<real>>)
    ensures forall key :: key in r <==> Position(key) < |values| && values[Position(key)].Some?
    ensures forall key :: key in r ==> r[key] == values[Position(key)]
  {
    map key: Key | Element(values, Position(key)).Some? :: Element(values, Position(key))
  }

  /** Only the first five elements decide the view state. */
  lemma NonNullPrefix(a: seq<Option<real>>, b: seq<Option<real>>)
    requires |a| >= 5 && |b| >= 5
    requires forall i :: 0 <= i < 5 ==> a[i] == b[i]
    ensures NonNull(a) == NonNull(b)
  {
    forall key: Key
      ensures Element(a, Position(key)) == Element(b, Position(key))
    {
    }
  }

  /**
    The view state a hash describes: undefined unless the hash starts with
    '#'; otherwise the keys whose segment holds a finite non-zero number.
   */
  function ViewStateOf(hash: string, number: string -> JsNumber): (r: Option<map<Key, Option<real>>>)
    ensures r.None? <==> hash == [] || hash[0] != '#'
    ensures r.Some? ==> forall key :: key in r.value ==> r.value[key].Some? && r.value[key].value != 0.0
  {
    if hash == [] || hash[0] != '#' then None
    else
      Some(NonNull(HashValues(hash, number)))
  }

  /** getViewStateFromHash */
  method GetViewStateFromHash(hash: string, number: string -> JsNumber) returns (viewState: Option<map<Key, Option<real>>>)
    ensures viewState == ViewStateOf(hash, number)
  {
    if hash == [] || hash[0] != '#' {
      return None;
    }

    // one value per segment after the #: null unless a finite non-zero number
    var hashArray := HashValues(hash, number);

    var state := DeleteNulls(hashArray);
    return Some(state);
  }

  /**
    The object literal built from `[zoom, latitude, longitude, bearing, pitch]
    = hashArray`, then the loop over its keys that deletes each null one.
   */
  method DeleteNulls(hashArray: seq<Option<real>>) returns (state: map<Key, Option<real>>)
    ensures state == NonNull(hashArray)
  {
    var zoom, latitude, longitude, bearing, pitch :=
      Element(hashArray, 0), Element(hashArray, 1), Element(hashArray, 2),
      Element(hashArray, 3), Element(hashArray, 4);
    state := map[Bearing := bearing, Latitude := latitude, Longitude := longitude,
                 Pitch := pitch, Zoom := zoom];

    // remove every key whose value is null
    var k := 0;
    while k < |Keys|
      invariant 0 <= k <= |Keys|
      invariant forall key :: key in state <==>
        Element(hashArray, Position(key)).Some? || Index(key) >= k
      invariant forall key :: key in state ==> state[key] == Element(hashArray, Position(key))
    {
      var key := Keys[k];
      if state[key] == None {
        state := state - {key};
      }
      k := k + 1;
    }
    assert state == NonNull(hashArray);
  }

  // ---------------------------------------------------------------------------
  // properties

  /** Segment i of "#s0/s1/..." goes to the key at position i, when it holds a finite non-zero number. */
  lemma HashFields(segments: seq<string>, number: string -> JsNumber, key: Key)
    requires |segments| >= 1 && forall i :: 0 <= i < |segments| ==> '/' !in segments[i]
    ensures var r := ViewStateOf("#" + Join(segments, '/'), number);
      r.Some? &&
      (key in r.value <==> Position(key) < |segments| && Present(number(segments[Position(key)])).Some?) &&
      (key in r.value ==> r.value[key] == Present(number(segments[Position(key)])))
  {
    var hash := "#" + Join(segments, '/');
    assert hash[1..] == Join(segments, '/');
    SplitJoin(segments, '/');
    var values := HashValues(hash, number);
    assert |values| == |segments|;
    assert Element(values, Position(key)) ==
      if Position(key) < |segments| then Present(number(segments[Position(key)])) else None;
  }

  /** Segments after the fifth are ignored: cutting them off changes nothing. */
  lemma ExtraSegmentsIgnored(head: string, tail: string, number: string -> JsNumber)
    requires |Split(head, '/')| >= 5
    ensures ViewStateOf("#" + head + "/" + tail, number) == ViewStateOf("#" + head, number)
  {
    var long, short := "#" + head + "/" + tail, "#" + head;
    assert long[1..] == head + ['/'] + tail;
    assert short[1..] == head;
    SplitAppend(head, tail, '/');
    var a, b := HashValues(long, number), HashValues(short, number);
    var sl, sh := Split(long[1..], '/'), Split(short[1..], '/');
    assert sl == sh + Split(tail, '/');
    forall i | 0 <= i < |sh|
      ensures a[i] == b[i]
    {
      assert sl[i] == sh[i];
    }
    NonNullPrefix(a, b);
  }
}
