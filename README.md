# naip-cogeo-mosaic in Dafny

A model of the data-handling core of naip-cogeo-mosaic. These scripts build
MosaicJSON documents for NAIP aerial imagery. A MosaicJSON document maps each
quadkey (a base-4 address of a web-mercator tile) to the list of
Cloud-Optimized GeoTIFF URLs that cover that tile. The model covers:

- **fill_mosaic_holes.py, `handle_mosaics`** (`fill_mosaic_holes.dfy`):
  - It gives every mosaic of a list the union of all quadkeys, copying the
    missing entries from the other mosaics.
  - The list of dicts updated in place is an `array<Mosaic>`.
  - `HandleMosaics` is proved equal to the specification function `Filled`.
- **naip.py, `manifest`** (`naip.dfy`):
  - It selects the `.tif` paths of the NAIP manifest. For each state it takes
    the first or the last photographed year inside a year range.
  - The three loops are methods proved against specification functions.
  - The exceptions the command raises are `Err` values.
- **overviews.py, `split_mosaic` / `subset_mosaic`** (`overviews.dfy`): cut a
  mosaic into one mosaic per overview quadkey, the prefix of its tiles'
  quadkeys.
- **dynamodb_upload.py, `create_items`** (`dynamodb_upload.dfy`): one
  key-value record per tile, keyed by quadkey.
- **site/src/util.js, `getViewStateFromHash`** (`view_state.dfy`): read
  `#zoom/latitude/longitude/bearing/pitch` from a page URL hash.

Shared pieces:

- `mosaic.dfy` holds the MosaicJSON document.
- `wrappers.dfy` holds `Option` and `Result`.
- `strings.dfy` holds the string built-ins the scripts rely on:
  - `split` on one character, with its inverse `Join`;
  - `strip`, `startswith` and `endswith`;
  - `str` of an integer.

**The fill rule as written.** The docstring of `handle_mosaics`
(fill_mosaic_holes.py:46-48) says that the list is ordered newest to oldest
"so that the newest imagery is filled in". The code differs:

- The scan of lines 62-64 has no `break`.
- It writes into the mosaics while it reads them.

So a missing quadkey ends up with the value of the **last** mosaic in the list
that holds it at that moment. `FillTakesLastHolder` proves that this is always
the last mosaic that held the quadkey originally, which is the oldest one. The
model follows the code.

## Model

| member | source | states |
|---|---|---|
| FillMosaicHoles.AllQuadkeys | code/fill_mosaic_holes.py:51-54 | a quadkey is in the collected set exactly when some mosaic of the list holds it |
| FillMosaicHoles.FilledValue | code/fill_mosaic_holes.py:56-64 | the value mosaic i ends with for quadkey k: a quadkey it already holds keeps its own value (the `continue` of lines 58-59) |
| FillMosaicHoles.FilledTiles | code/fill_mosaic_holes.py:56-64 | the tiles of one mosaic after the loop: keyed by exactly all quadkeys, every entry it held before kept with its value |
| FillMosaicHoles.Filled | code/fill_mosaic_holes.py:41-74 | the list `handle_mosaics` returns: same length, each mosaic keeps its bounds and other fields, and its tiles are its filled tiles, whose keys are all quadkeys |
| FillMosaicHoles.FilledShape | code/fill_mosaic_holes.py:41-74 | the result keeps the length, order, bounds and other fields; every mosaic holds exactly all quadkeys, so all have the same count (the assertion of lines 71-72 holds); no existing entry is overwritten |
| FillMosaicHoles.FillTakesLastHolder | code/fill_mosaic_holes.py:56-64 | a quadkey missing from a mosaic receives the value of the last mosaic of the input list holding it, whatever its position relative to the mosaic being filled |
| FillMosaicHoles.FilledFromInput | code/fill_mosaic_holes.py:61-64 | every value in a filled mosaic is one that some input mosaic held for that quadkey |
| FillMosaicHoles.FillIdempotent | code/fill_mosaic_holes.py:56-59 | filling an already filled list changes nothing |
| FillMosaicHoles.FillSingle | code/fill_mosaic_holes.py:19-24 | a single mosaic is returned unchanged |
| FillMosaicHoles.FillQuadkey | code/fill_mosaic_holes.py:62-64 | the scan over all mosaics for one missing quadkey adds it to mosaic i with its filled value and changes nothing else |
| FillMosaicHoles.FillMosaic | code/fill_mosaic_holes.py:56-64 | after the loop over all quadkeys, mosaic i holds its filled tiles; the other mosaics are unchanged |
| FillMosaicHoles.CountQuadkeys | code/fill_mosaic_holes.py:66-69 | `n_keys[p]` is the number of quadkeys of mosaic p |
| FillMosaicHoles.HandleMosaics | code/fill_mosaic_holes.py:41-74 | the array after the call is `Filled` of the array before it; the equal-count assertion never fails |
| Overviews.PyPrefix | code/overviews.py:49 | Python's `qk[:z]` for any integer z, negative included: a prefix, of length z when 0 <= z <= len, the whole key when z >= len |
| Overviews.OverviewQuadkeys | code/overviews.py:47-49 | the overview quadkeys are exactly the prefixes of the tile quadkeys |
| Overviews.SubsetTiles | code/overviews.py:65-68 | the subset holds exactly the tiles whose prefix is the overview quadkey, with their values |
| Overviews.SubsetMosaic | code/overviews.py:59-75 | the subset mosaic keeps every other field, takes the overview tile's bounds, and holds exactly the matching tiles |
| Overviews.OutName | code/overviews.py:53 | the output name starts with the prefix, ends with `.json`, and holds the overview quadkey between them |
| Overviews.OutNameInjective | code/overviews.py:51-56 | different overview quadkeys are written to different files |
| Overviews.SplitMosaic | code/overviews.py:38-56 | one mosaic per overview quadkey, each being `subset_mosaic` of it and none empty |
| Overviews.SubsetsDisjoint | code/overviews.py:65-68 | no tile belongs to two subsets |
| Overviews.SubsetsCover | code/overviews.py:47-68 | every tile lands, unchanged, in the subset of its own prefix and in no other |
| Overviews.SubsetsNonEmpty | code/overviews.py:49-52 | every subset written holds at least one tile |
| DynamodbUpload.CreateItems | code/dynamodb_upload.py:70-76 | one item per tiles entry, in order, with the same quadkey and assets |
| DynamodbUpload.ItemKeysDistinct | code/dynamodb_upload.py:43-44 | the items' partition keys are pairwise distinct, so no upload overwrites another |
| DynamodbUpload.TableIsTiles | code/dynamodb_upload.py:62-76 | the table the items describe is exactly the mosaic's tiles map |
| DynamodbUpload.OneItemPerTile | code/dynamodb_upload.py:70-76 | the tiles map has one entry per item, each with that item's assets |
| Naip.ManifestOf | code/naip.py:39-42 | a start year outside 2011-2017 raises first, then an end year outside it |
| Naip.YearInRange | code/naip.py:39-42 | a year passes the range test exactly when it is one of 2011 to 2017, and each such year prints as four characters |
| Naip.KeptLines | code/naip.py:44-47 | `lines`: never longer than the manifest; without the test entry, exactly the manifest lines stripped, one for one and in order |
| Naip.KeptLinesAppend | code/naip.py:44-47 | the loop works line by line: the kept lines of a concatenation are those of its first part followed by those of its second, so order and repetitions are kept |
| Naip.KeptLinesOne | code/naip.py:45-47 | a single line yields nothing if it is `manifest.test`, and its stripped form otherwise |
| Naip.StateYearsOf | code/naip.py:49-53 | the loop can only raise for a line of the input without `/` (which it names) or for a year segment on which `int()` fails, and that segment is the second `/` segment of one of the input lines |
| Naip.MatchYears | code/naip.py:58 | `match_years` holds exactly the years of the state that lie between the start and end year |
| Naip.MatchStrs | code/naip.py:66 | `match_strs` holds the string `state/year` of every combo, and nothing else |
| Naip.WantedMeans | code/naip.py:69 | the test of the comprehension: a wanted line ends with `.tif`; with no match strings nothing is wanted; the empty match string admits every `.tif` line |
| Naip.Manifest | code/naip.py:33-72 | the printed lines, or the exception raised, are those of the specification `ManifestOf` |
| Naip.KeepLines | code/naip.py:44-47 | the loop yields the kept lines of the manifest |
| Naip.KeptLinesExact | code/naip.py:44-47 | a line is kept exactly when it is the stripped form of a manifest line other than `manifest.test` |
| Naip.KeptLineKept | code/naip.py:44-47 | every non-test manifest line is kept, stripped |
| Naip.KeptLineSource | code/naip.py:44-47 | every kept line comes from a non-test manifest line |
| Naip.CollectStateYears | code/naip.py:49-53 | the loop yields `state_years`, or the exception of the first bad line |
| Naip.StateYearsErrorStays | code/naip.py:50-53 | once a line raises, the loop ends with that exception |
| Naip.StateYearsOkIff | code/naip.py:50-53 | the loop raises exactly when some line has no `/` or a year segment `int()` rejects |
| Naip.StateYearsExact | code/naip.py:49-53 | `state_years` holds exactly the (state, year) pairs the lines denote |
| Naip.StateYearsNonEmpty | code/naip.py:52-53 | every state of `state_years` has at least one year |
| Naip.Earliest | code/naip.py:61 | `min` of the years in range: one of them, and no larger than any; none exactly when there is none |
| Naip.Latest | code/naip.py:63 | `max` of the years in range: one of them, and no smaller than any; none exactly when there is none |
| Naip.Select | code/naip.py:58-63 | the chosen year exists exactly when the state has a year in range; it is such a year, the least for `first` and the greatest for `last` |
| Naip.Combos | code/naip.py:56-63 | a state has a combo exactly when it has a year in range, and the combo's year is the selected one |
| Naip.ChooseCombos | code/naip.py:56-63 | the loop over `state_years` yields exactly `Combos` |
| Naip.MatchedLines | code/naip.py:67-69 | a line is output exactly when it is one of the lines and ends with `.tif` and starts with some `state/year`; when every line passes the output is the lines themselves, when none does it is empty |
| Naip.MatchedLinesAppend | code/naip.py:67-69 | the filter works line by line: the output for a concatenation is that of its first part followed by that of its second, so manifest order and repetitions are kept |
| Naip.MatchedLinesOne | code/naip.py:67-69 | a single line is output exactly when it ends with `.tif` and starts with some `state/year` |
| Naip.PrintedLine | code/naip.py:66-69 | every printed line is a kept `.tif` line starting with the `state/year` of some combo |
| Naip.MatchedLineHasCombo | code/naip.py:66-69 | a matched line ends with `.tif` and starts with the `state/year` of some combo |
| Naip.LinePrinted | code/naip.py:66-69 | every kept `.tif` line starting with the `state/year` of some combo is printed |
| Naip.EmptyRange | code/naip.py:56-69 | a start year after the end year prints nothing |
| Naip.NothingMatched | code/naip.py:67-69 | with no `state/year` prefix nothing is output |
| ViewStateHash.Present | site/src/util.js:39 | a value is kept exactly when it is finite and non-zero, and then unchanged |
| ViewStateHash.HashValues | site/src/util.js:32-39 | `hashArray` has one element per `/`-separated segment after the `#`, each being the segment's `Number()` kept only when finite and non-zero |
| ViewStateHash.PositionsDistinct | site/src/util.js:43 | the destructuring gives each key its own slot of `hashArray` |
| ViewStateHash.DeleteNulls | site/src/util.js:43-56 | the object literal built from `hashArray`, after the loop that deletes its null keys, is `NonNull` of `hashArray` |
| ViewStateHash.NonNull | site/src/util.js:44-56 | after the null keys are deleted, a key is present exactly when its position in `[zoom, latitude, longitude, bearing, pitch]` lies inside `hashArray` and holds a non-null value, which it keeps |
| ViewStateHash.ViewStateOf | site/src/util.js:26-59 | undefined exactly when the hash is empty or does not start with `#`; otherwise every key left holds a finite non-zero number |
| ViewStateHash.GetViewStateFromHash | site/src/util.js:26-59 | the method returns the specification `ViewStateOf` |
| ViewStateHash.HashFields | site/src/util.js:43-56 | for `#s0/s1/...`, a key is present exactly when its segment (zoom 0, latitude 1, longitude 2, bearing 3, pitch 4) exists and is a finite non-zero number, and then it holds that number |
| ViewStateHash.NonNullPrefix | site/src/util.js:43-56 | only the first five values decide the view state |
| ViewStateHash.ExtraSegmentsIgnored | site/src/util.js:43 | segments after the fifth are ignored |
| Strings.Split | code/naip.py:51 | `split('/')` gives one more piece than there are separators, and no piece contains the separator |
| Strings.StartsWithAt | code/naip.py:69 | `startswith`: the string's first characters are exactly those of the prefix |
| Strings.EndsWithAt | code/naip.py:69 | `endswith`: the string's last characters are exactly those of the suffix |
| Strings.JoinSplit | code/naip.py:51 | joining the pieces with the separator gives back the string |
| Strings.SplitJoin | site/src/util.js:35 | splitting a join of separator-free pieces gives back the pieces |
| Strings.SplitAppend | site/src/util.js:35 | splitting `a/b` gives the pieces of a followed by those of b |
| Strings.SplitNoSep | site/src/util.js:35 | a string without the separator is a single piece |
| Strings.TrimStart | code/naip.py:47 | `lstrip` drops exactly the leading whitespace |
| Strings.TrimEnd | code/naip.py:47 | `rstrip` drops exactly the trailing whitespace |
| Strings.Strip | code/naip.py:47 | `strip` gives a string no longer than its input that neither starts nor ends with whitespace |
| Strings.SpaceChars | code/naip.py:47 | `str.isspace`, which `strip` uses: the ASCII blanks are whitespace, and no digit, letter, `/`, `.`, `_` or `-` is |
| Strings.StripIsSlice | code/naip.py:47 | `strip` returns the slice of its input between the leading and the trailing whitespace, both of which it drops entirely |
| Strings.IntToString | code/naip.py:61-63 | `str(n)`: a minus sign exactly when n is negative, then decimal digits without a leading zero whose value is the magnitude of n |
| Strings.IntToStringInjective | code/naip.py:61-66 | different years print as different strings |
| Strings.NatToString | code/naip.py:61 | `str(n)` for n >= 0 is a non-empty string of decimal digits without a leading zero |
| Strings.NatToStringValue | code/naip.py:61 | the digits of `str(n)` read back give n |

## Left out

- Reading and writing files, JSON parsing and serialization, `print`, and the
  command-line parsing are left out. Inputs are values and results are
  returned. Every `main` and every click decorator is left out.
- mercantile's `bounds(quadkey_to_tile(qk))` is a function parameter of
  `SplitMosaic`, because the tile geometry is not part of this model.
  `MosaicJSON(**new_mosaic)` validation, `deepcopy` and
  `dict(exclude_none=True)` are left out: the subset mosaic is a new value.
- `create_low_level_cogs` and the rest of overviews.py are left out: they are
  GDAL/rasterio I/O run through a process pool. landsat_overview.py is not
  part of this model.
- `create_table`, `upload_items`, `get_hash` and the boto3 client are left
  out (network I/O and SHA-224). The upload is modelled by the table
  (`Table`) the items describe. The call `upload_items(items)` at
  dynamodb_upload.py:39 passes fewer arguments than the function takes; that
  is in `main`, which is not modelled.
- `getMosaicFromQueryParams` and `setQueryParams` in util.js are left out:
  they read and write browser state.
- JavaScript's `Number()` and Python's `int()` on a string are function
  parameters. Their parsing rules are not modelled.
- Dict and set iteration order is left out. `tiles.items()` is given as an
  ordered sequence of entries. The states of `state_years` are visited in an
  arbitrary order (`:|`), which does not affect the printed lines.
- Naip.ChooseCombos: `combos` is a map from state to year instead of a list
  of pairs; the list never holds two pairs for one state.
- Naip.Manifest: the manifest file is given as its sequence of lines, each
  with its newline, as Python's file iteration yields them.
- FillMosaicHoles.HandleMosaics: mosaics are values in the array, so two list
  entries that are the same dict object (aliasing) are not modelled.
- Strings.IsSpace: Python's `str.isspace` is given by its list of whitespace
  characters; there is no Unicode database here.
- ViewStateHash.GetViewStateFromHash: the argument is a string. An
  `undefined` or `null` hash, which `!hash` also rejects, is not modelled.
  The view state's keys are the `Key` datatype, not property-name strings.
