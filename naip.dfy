/**
  naip.py, manifest: select the GeoTIFF paths of the NAIP imagery manifest
  that belong, for each state, to the first or last photographed year inside
  a year range.

  The manifest file is given as its sequence of lines (each with its newline,
  as Python's file iteration yields them); the printed lines are the result.
  Python's int() on a path segment is a parameter: it gives the integer a
  string denotes, or None where int() raises ValueError.
 */
module Naip {
  import opened Wrappers
  import opened Strings

  /** `--select-method`, which click normalises to 'first' or 'last'. */
  datatype SelectMethod = First | Last

  /** The exceptions the command can end with. */
  datatype Error =
    | StartYearOutOfRange            // ValueError of line 40
    | EndYearOutOfRange              // ValueError of line 42
    | TooFewSegments(line: string)   // unpacking a path without '/' (line 51)
    | NotAnInteger(segment: string)  // int() of a year segment (line 53)

  /** The manifest's own entry, which is not an image path. */
  const TestEntry: string := "manifest.test\n"

  /** The years the imagery exists for. */
  predicate YearInRange(year: int): (b: bool)
    ensures b <==> year in {2011, 2012, 2013, 2014, 2015, 2016, 2017}
    ensures b ==> |IntToString(year)| == 4
  {
    2011 <= year <= 2017
  }

  // ---------------------------------------------------------------------------
  // specification functions

  /** `lines`: every manifest line except the test entry, stripped, in order. */
  function KeptLines(manifest: seq<string>): (lines: seq<string>)
    ensures |lines| <= |manifest|
    ensures TestEntry !in manifest ==>
      |lines| == |manifest| && forall i :: 0 <= i < |lines| ==> lines[i] == Strip(manifest[i])
  {
    if manifest == [] then []
    else
      var init := KeptLines(manifest[..|manifest| - 1]);
      var last := manifest[|manifest| - 1];
      if last != TestEntry then init + [Strip(last)] else init
  }

  /** The (state, year) pair a path line contributes, None when line 51 or 53 raises. */
  function LineEntry(line: string, parseInt: string -> Option<int>): Option<(string, int)>
  {
    var parts := Split(line, '/');
    if |parts| < 2 || parseInt(parts[1]).None? then None
    else Some((parts[0], parseInt(parts[1]).value))
  }

  /** `state_years` after the loop of lines 50-53 over `lines`, or the exception it raises. */
  function StateYearsOf(lines: seq<string>, parseInt: string -> Option<int>): (r: Result<map<string, set<int>>, Error>)
    ensures r.Err? ==> r.error.TooFewSegments? || r.error.NotAnInteger?
    ensures r.Err? && r.error.TooFewSegments? ==> r.error.line in lines && '/' !in r.error.line
    ensures r.Err? && r.error.NotAnInteger? ==> parseInt(r.error.segment).None?
    ensures r.Err? && r.error.NotAnInteger? ==>
      exists l :: l in lines && |Split(l, '/')| >= 2 && Split(l, '/')[1] == r.error.segment
  {
    if lines == [] then Ok(map[])
    else
      match StateYearsOf(lines[..|lines| - 1], parseInt)
      case Err(e) => Err(e)
      case Ok(stateYears) =>
        var line := lines[|lines| - 1];
        var parts := Split(line, '/');
        if |parts| < 2 then JoinSplit(line, '/'); Err(TooFewSegments(line))
        else if parseInt(parts[1]).None? then Err(NotAnInteger(parts[1]))
        else
          var state := parts[0];
          var years := if state in stateYears then stateYears[state] else {};
          Ok(stateYears[state := years + {parseInt(parts[1]).value}])
  }

  /** `match_years` of line 58, as a set: the order of the list plays no part. */
  function MatchYears(years: set<int>, startYear: int, endYear: int): (r: set<int>)
    ensures forall y :: y in r <==> y in years && startYear <= y <= endYear
  {
    set y | y in years && startYear <= y <= endYear
  }

  /** `min` of the years of `years` in [lo, hi]: the first one met scanning upward. */
  function Earliest(years: set<int>, lo: int, hi: int): (r: Option<int>)
    ensures r.None? <==> forall y :: y in years ==> !(lo <= y <= hi)
    ensures r.Some? ==> r.value in years && lo <= r.value <= hi
    ensures r.Some? ==> forall y :: y in years && lo <= y <= hi ==> r.value <= y
    decreases hi - lo
  {
    if lo > hi then None
    else if lo in years then Some(lo)
    else Earliest(years, lo + 1, hi)
  }

  /** `max` of the years of `years` in [lo, hi]: the first one met scanning downward. */
  function Latest(years: set<int>, lo: int, hi: int): (r: Option<int>)
    ensures r.None? <==> forall y :: y in years ==> !(lo <= y <= hi)
    ensures r.Some? ==> r.value in years && lo <= r.value <= hi
    ensures r.Some? ==> forall y :: y in years && lo <= y <= hi ==> r.value >= y
    decreases hi - lo
  {
    if lo > hi then None
    else if hi in years then Some(hi)
    else Latest(years, lo, hi - 1)
  }

  /** The year lines 58-63 choose for a state with the given years, if any. */
  function Select(years: set<int>, startYear: int, endYear: int, select: SelectMethod): (r: Option<int>)
    ensures r.None? <==> forall y :: y in years ==> !(startYear <= y <= endYear)
    ensures r.Some? ==> r.value in years && startYear <= r.value <= endYear
    ensures r.Some? && select == First ==> forall y :: y in years && startYear <= y <= endYear ==> r.value <= y
    ensures r.Some? && select == Last ==> forall y :: y in years && startYear <= y <= endYear ==> r.value >= y
  {
    if select == First then Earliest(years, startYear, endYear) else Latest(years, startYear, endYear)
  }

  /** The combos chosen for the given states: state to its selected year. */
  function CombosOver(stateYears: map<string, set<int>>, states: set<string>,
                      startYear: int, endYear: int, select: SelectMethod): map<string, int>
  {
    map s | s in states && s in stateYears && Select(stateYears[s], startYear, endYear, select).Some? ::
      Select(stateYears[s], startYear, endYear, select).value
  }

  /** `combos` (lines 56-63): one (state, year) pair per state with a year in range. */
  function Combos(stateYears: map<string, set<int>>, startYear: int, endYear: int, select: SelectMethod): (combos: map<string, int>)
    ensures forall s :: s in combos <==> s in stateYears && Select(stateYears[s], startYear, endYear, select).Some?
    ensures forall s :: s in combos ==> combos[s] == Select(stateYears[s], startYear, endYear, select).value
  {
    CombosOver(stateYears, stateYears.Keys, startYear, endYear, select)
  }

  /** `match_strs` (line 66): "state/year" for each combo. */
  function MatchStrs(combos: map<string, int>): (r: set<string>)
    ensures forall s :: s in combos ==> s + "/" + IntToString(combos[s]) in r
    ensures forall m :: m in r ==> exists s :: s in combos && m == s + "/" + IntToString(combos[s])
  {
    set s | s in combos :: s + "/" + IntToString(combos[s])
  }

  /** The test of line 69. */
  predicate Wanted(line: string, matchStrs: set<string>)
  {
    EndsWith(line, ".tif") && exists s :: s in matchStrs && StartsWith(line, s)
  }

  /** A wanted line is a .tif path; no line is wanted without match strings; the empty one admits every .tif line. */
  lemma WantedMeans(line: string, matchStrs: set<string>)
    ensures Wanted(line, matchStrs) ==> |line| >= 4 && line[|line| - 4..] == ".tif"
    ensures matchStrs == {} ==> !Wanted(line, matchStrs)
    ensures "" in matchStrs ==> (Wanted(line, matchStrs) <==> EndsWith(line, ".tif"))
  {
    if "" in matchStrs && EndsWith(line, ".tif") {
      assert StartsWith(line, "");
    }
  }

  /** `matched_lines` (lines 67-69): the wanted lines, in manifest order. */
  function MatchedLines(lines: seq<string>, matchStrs: set<string>): (r: seq<string>)
    ensures |r| <= |lines|
    ensures forall l :: l in r <==> l in lines && Wanted(l, matchStrs)
    ensures (forall i :: 0 <= i < |lines| ==> Wanted(lines[i], matchStrs)) ==> r == lines
    ensures (forall i :: 0 <= i < |lines| ==> !Wanted(lines[i], matchStrs)) ==> r == []
  {
    if lines == [] then []
    else
      var rest := MatchedLines(lines[1..], matchStrs);
      assert lines == [lines[0]] + lines[1..];
      if Wanted(lines[0], matchStrs) then [lines[0]] + rest else rest
  }

  /** What the command prints, or the exception it raises. */
  function ManifestOf(startYear: int, endYear: int, select: SelectMethod, manifest: seq<string>,
                      parseInt: string -> Option<int>): (r: Result<seq<string>, Error>)
    ensures !YearInRange(startYear) ==> r == Err(StartYearOutOfRange)
    ensures YearInRange(startYear) && !YearInRange(endYear) ==> r == Err(EndYearOutOfRange)
  {
    if !YearInRange(startYear) then Err(StartYearOutOfRange)
    else if !YearInRange(endYear) then Err(EndYearOutOfRange)
    else
      var lines := KeptLines(manifest);
      match StateYearsOf(lines, parseInt)
      case Err(e) => Err(e)
      case Ok(stateYears) =>
        Ok(MatchedLines(lines, MatchStrs(Combos(stateYears, startYear, endYear, select))))
  }

  // ---------------------------------------------------------------------------
  // the command

  /** manifest: returns the printed lines in order. */
  method Manifest(startYear: int, endYear: int, select: SelectMethod, manifest: seq<string>,
                  parseInt: string -> Option<int>) returns (r: Result<seq<string>, Error>)
    ensures r == ManifestOf(startYear, endYear, select, manifest, parseInt)
  {
    if !YearInRange(startYear) {
      return Err(StartYearOutOfRange);
    }
    if !YearInRange(endYear) {
      return Err(EndYearOutOfRange);
    }
    var lines := KeepLines(manifest);
    var stateYears := CollectStateYears(lines, parseInt);
    if stateYears.Err? {
      return Err(stateYears.error);
    }
    var combos := ChooseCombos(stateYears.value, startYear, endYear, select);
    var matchStrs := MatchStrs(combos);
    return Ok(MatchedLines(lines, matchStrs));
  }

  /** The loop of lines 44-47: drop the test entry, strip the other lines. */
  method KeepLines(manifest: seq<string>) returns (lines: seq<string>)
    ensures lines == KeptLines(manifest)
  {
    lines := [];
    for i := 0 to |manifest|
      invariant lines == KeptLines(manifest[..i])
    {
      assert manifest[..i + 1][..i] == manifest[..i];
      assert manifest[..i + 1][i] == manifest[i];
      if manifest[i] != TestEntry {
        lines := lines + [Strip(manifest[i])];
      }
      assert lines == KeptLines(manifest[..i + 1]);
    }
    assert manifest[..|manifest|] == manifest;
  }

  /** The loop of lines 49-53: the years of each state, or the exception of the first bad line. */
  method CollectStateYears(lines: seq<string>, parseInt: string -> Option<int>)
    returns (r: Result<map<string, set<int>>, Error>)
    ensures r == StateYearsOf(lines, parseInt)
  {
    var stateYears: map<string, set<int>> := map[];
    for i := 0 to |lines|
      invariant StateYearsOf(lines[..i], parseInt) == Ok(stateYears)
    {
      assert lines[..i + 1][..i] == lines[..i];
      assert lines[..i + 1][i] == lines[i];
      ghost var before := stateYears;
      var parts := Split(lines[i], '/');
      if |parts| < 2 {
        StateYearsErrorStays(lines, i + 1, parseInt);
        return Err(TooFewSegments(lines[i]));
      }
      var state, year := parts[0], parts[1];
      stateYears := stateYears[state := if state in stateYears then stateYears[state] else {}];
      var y := parseInt(year);
      if y.None? {
        StateYearsErrorStays(lines, i + 1, parseInt);
        return Err(NotAnInteger(year));
      }
      stateYears := stateYears[state := stateYears[state] + {y.value}];
      assert stateYears == before[state := (if state in before then before[state] else {}) + {y.value}];
    }
    assert lines[..|lines|] == lines;
    return Ok(stateYears);
  }

  /** The loop of lines 57-63: for each state, its first or last year in range, if any. */
  method ChooseCombos(stateYears: map<string, set<int>>, startYear: int, endYear: int, select: SelectMethod)
    returns (combos: map<string, int>)
    ensures combos == Combos(stateYears, startYear, endYear, select)
  {
    combos := map[];
    var todo := stateYears.Keys;
    ghost var done: set<string> := {};
    while todo != {}
      invariant done + todo == stateYears.Keys && done !! todo
      invariant forall s :: s in combos <==>
        s in done && Select(stateYears[s], startYear, endYear, select).Some?
      invariant forall s :: s in combos ==> combos[s] == Select(stateYears[s], startYear, endYear, select).value
      decreases todo
    {
      var state :| state in todo;
      var matchYears := MatchYears(stateYears[state], startYear, endYear);
      if matchYears != {} {
        var year;
        if select == First {
          year := Earliest(matchYears, startYear, endYear).value;
        } else {
          year := Latest(matchYears, startYear, endYear).value;
        }
        assert Select(stateYears[state], startYear, endYear, select) == Some(year);
        combos := combos[state := year];
      }
      todo := todo - {state};
      done := done + {state};
    }
    CombosEqual(combos, stateYears, startYear, endYear, select);

  }

  /** A map that agrees with Combos key by key is Combos. */
  lemma CombosEqual(combos: map<string, int>, stateYears: map<string, set<int>>,
                    startYear: int, endYear: int, select: SelectMethod)
    requires forall s :: s in combos <==> s in stateYears && Select(stateYears[s], startYear, endYear, select).Some?
    requires forall s :: s in combos ==> combos[s] == Select(stateYears[s], startYear, endYear, select).value
    ensures combos == Combos(stateYears, startYear, endYear, select)
  {
  }

  // ---------------------------------------------------------------------------
  // properties

  /** Once a prefix of the lines raises, the whole loop raises the same exception. */
  lemma {:induction false} StateYearsErrorStays(lines: seq<string>, n: nat, parseInt: string -> Option<int>)
    requires n <= |lines| && StateYearsOf(lines[..n], parseInt).Err?
    ensures StateYearsOf(lines, parseInt) == StateYearsOf(lines[..n], parseInt)
  {
    if n == |lines| {
      assert lines[..n] == lines;
    } else {
      var init := lines[..|lines| - 1];
      assert init[..n] == lines[..n];
      StateYearsErrorStays(init, n, parseInt);
    }
  }

  /** The loop of lines 50-53 raises exactly when some line lacks a '/' or an integer year. */
  lemma {:induction false} StateYearsOkIff(lines: seq<string>, parseInt: string -> Option<int>)
    ensures StateYearsOf(lines, parseInt).Ok? <==>
      forall i :: 0 <= i < |lines| ==> LineEntry(lines[i], parseInt).Some?
  {
    if lines != [] {
      var init := lines[..|lines| - 1];
      StateYearsOkIff(init, parseInt);
      assert forall i :: 0 <= i < |init| ==> init[i] == lines[i];
    }
  }

  /** `state_years` holds exactly the (state, year) pairs the lines denote. */
  lemma {:induction false} StateYearsExact(lines: seq<string>, parseInt: string -> Option<int>, state: string, year: int)
    requires StateYearsOf(lines, parseInt).Ok?
    ensures var stateYears := StateYearsOf(lines, parseInt).value;
      (state in stateYears && year in stateYears[state]) <==>
      exists i :: 0 <= i < |lines| && LineEntry(lines[i], parseInt) == Some((state, year))
  {
    if lines != [] {
      var n := |lines|;
      var init := lines[..n - 1];
      StateYearsExact(init, parseInt, state, year);
      var stateYears := StateYearsOf(lines, parseInt).value;
      var initYears := StateYearsOf(init, parseInt).value;
      assert LineEntry(lines[n - 1], parseInt).Some?;
      if state in stateYears && year in stateYears[state] {
        if !(state in initYears && year in initYears[state]) {
          assert LineEntry(lines[n - 1], parseInt) == Some((state, year));
        } else {
          var i :| 0 <= i < |init| && LineEntry(init[i], parseInt) == Some((state, year));
          assert lines[i] == init[i];
        }
      }
      if exists i :: 0 <= i < n && LineEntry(lines[i], parseInt) == Some((state, year)) {
        var i :| 0 <= i < n && LineEntry(lines[i], parseInt) == Some((state, year));
        if i < n - 1 {
          assert init[i] == lines[i];
        }
      }
    }
  }

  /** Every state of `state_years` holds at least one year. */
  lemma {:induction false} StateYearsNonEmpty(lines: seq<string>, parseInt: string -> Option<int>)
    requires StateYearsOf(lines, parseInt).Ok?
    ensures forall s :: s in StateYearsOf(lines, parseInt).value ==> StateYearsOf(lines, parseInt).value[s] != {}
  {
    if lines != [] {
      StateYearsNonEmpty(lines[..|lines| - 1], parseInt);
    }
  }

  /** A kept line is a stripped manifest line other than the test entry, and each of those is kept. */
  lemma KeptLinesExact(manifest: seq<string>, l: string)
    ensures l in KeptLines(manifest) <==>
      exists i :: 0 <= i < |manifest| && manifest[i] != TestEntry && Strip(manifest[i]) == l
  {
    if exists i :: 0 <= i < |manifest| && manifest[i] != TestEntry && Strip(manifest[i]) == l {
      var i :| 0 <= i < |manifest| && manifest[i] != TestEntry && Strip(manifest[i]) == l;
      KeptLineKept(manifest, i);
    }
    if l in KeptLines(manifest) {
      KeptLineSource(manifest, l);
    }
  }

  lemma {:induction false} KeptLineKept(manifest: seq<string>, i: nat)
    requires i < |manifest| && manifest[i] != TestEntry
    ensures Strip(manifest[i]) in KeptLines(manifest)
  {
    var init := manifest[..|manifest| - 1];
    if i < |manifest| - 1 {
      assert init[i] == manifest[i];
      KeptLineKept(init, i);
    }
  }

  lemma {:induction false} KeptLineSource(manifest: seq<string>, l: string)
    requires l in KeptLines(manifest)
    ensures exists i :: 0 <= i < |manifest| && manifest[i] != TestEntry && Strip(manifest[i]) == l
  {
    var n := |manifest|;
    var init := manifest[..n - 1];
    if l in KeptLines(init) {
      KeptLineSource(init, l);
      var i :| 0 <= i < |init| && init[i] != TestEntry && Strip(init[i]) == l;
      assert manifest[i] == init[i];
    } else {
      assert manifest[n - 1] != TestEntry && Strip(manifest[n - 1]) == l;
    }
  }

  /**
    Every printed line is a kept .tif line that starts with "state/year" for
    one of the combos: by Combos, the year is the one chosen for that state,
    in range, one of the state's years, and the earliest (first) or latest
    (last) of those.
   */
  lemma PrintedLine(startYear: int, endYear: int, select: SelectMethod, manifest: seq<string>,
                    parseInt: string -> Option<int>, l: string)
    requires ManifestOf(startYear, endYear, select, manifest, parseInt).Ok?
    requires l in ManifestOf(startYear, endYear, select, manifest, parseInt).value
    ensures l in KeptLines(manifest) && EndsWith(l, ".tif")
    ensures var combos := Combos(StateYearsOf(KeptLines(manifest), parseInt).value, startYear, endYear, select);
      exists s :: s in combos && StartsWith(l, s + "/" + IntToString(combos[s]))
  {
    var lines := KeptLines(manifest);
    var combos := Combos(StateYearsOf(lines, parseInt).value, startYear, endYear, select);
    assert ManifestOf(startYear, endYear, select, manifest, parseInt).value == MatchedLines(lines, MatchStrs(combos));
    MatchedLineHasCombo(lines, combos, l);
  }

  /** A line lines 67-69 keep ends in .tif and starts with the "state/year" of some combo. */
  lemma MatchedLineHasCombo(lines: seq<string>, combos: map<string, int>, l: string)
    requires l in MatchedLines(lines, MatchStrs(combos))
    ensures l in lines && EndsWith(l, ".tif")
    ensures exists s :: s in combos && StartsWith(l, s + "/" + IntToString(combos[s]))
  {
    var p :| p in MatchStrs(combos) && StartsWith(l, p);
    var s :| s in combos && p == s + "/" + IntToString(combos[s]);
  }

  /** A kept .tif line starting with the "state/year" of some combo is printed. */
  lemma LinePrinted(startYear: int, endYear: int, select: SelectMethod, manifest: seq<string>,
                    parseInt: string -> Option<int>, l: string, s: string)
    requires ManifestOf(startYear, endYear, select, manifest, parseInt).Ok?
    requires l in KeptLines(manifest) && EndsWith(l, ".tif")
    requires var combos := Combos(StateYearsOf(KeptLines(manifest), parseInt).value, startYear, endYear, select);
      s in combos && StartsWith(l, s + "/" + IntToString(combos[s]))
    ensures l in ManifestOf(startYear, endYear, select, manifest, parseInt).value
  {
    var combos := Combos(StateYearsOf(KeptLines(manifest), parseInt).value, startYear, endYear, select);
    assert s + "/" + IntToString(combos[s]) in MatchStrs(combos);
  }

  /** A start year after the end year selects nothing. */
  lemma EmptyRange(startYear: int, endYear: int, select: SelectMethod, manifest: seq<string>,
                   parseInt: string -> Option<int>)
    requires startYear > endYear
    requires ManifestOf(startYear, endYear, select, manifest, parseInt).Ok?
    ensures ManifestOf(startYear, endYear, select, manifest, parseInt).value == []
  {
    var stateYears := StateYearsOf(KeptLines(manifest), parseInt).value;
    var combos := Combos(stateYears, startYear, endYear, select);
    assert combos == map[];
    assert MatchStrs(combos) == {};
    NothingMatched(KeptLines(manifest));
  }

  /** With no "state/year" prefix to match, no line is printed. */
  lemma {:induction false} NothingMatched(lines: seq<string>)
    ensures MatchedLines(lines, {}) == []
  {
    if lines != [] {
      NothingMatched(lines[1..]);
      assert !Wanted(lines[0], {});
    }
  }
  /** KeptLines works line by line: the kept lines of a concatenation are those of each part, in order. */
  lemma {:induction false} KeptLinesAppend(a: seq<string>, b: seq<string>)
    ensures KeptLines(a + b) == KeptLines(a) + KeptLines(b)
    decreases |b|
  {
    if b != [] {
      var init := b[..|b| - 1];
      assert (a + b)[..|a + b| - 1] == a + init;
      assert (a + b)[|a + b| - 1] == b[|b| - 1];
      KeptLinesAppend(a, init);
    } else {
      assert a + b == a;
    }
  }

  /** A single line is kept, stripped, unless it is the test entry. */
  lemma KeptLinesOne(line: string)
    ensures KeptLines([line]) == if line == TestEntry then [] else [Strip(line)]
  {
  }

  /** The filter works line by line: the output for a concatenation is that of each part, in order. */
  lemma {:induction false} MatchedLinesAppend(a: seq<string>, b: seq<string>, matchStrs: set<string>)
    ensures MatchedLines(a + b, matchStrs) == MatchedLines(a, matchStrs) + MatchedLines(b, matchStrs)
  {
    if a == [] {
      assert a + b == b;
    } else {
      assert (a + b)[0] == a[0];
      assert (a + b)[1..] == a[1..] + b;
      MatchedLinesAppend(a[1..], b, matchStrs);
    }
  }

  /** A single line is output exactly when it is wanted. */
  lemma MatchedLinesOne(line: string, matchStrs: set<string>)
    ensures MatchedLines([line], matchStrs) == if Wanted(line, matchStrs) then [line] else []
  {
  }
}
