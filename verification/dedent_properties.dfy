/**
 What `dedent` promises, stated about its specification `DedentOf`: when it falls back
 to plain interpolation, how the strip width relates to the indentation of the lines,
 and what the strip does to each line of each fragment.
 */
module DedentProperties {
  import opened JsString
  import opened IndentPatterns
  import opened Dedent

  /** Line `j` (not the first) of fragment `i` starts with at least one indentation unit. */
  ghost predicate CountedLine(strings: seq<string>, i: int, j: int) {
    0 <= i < |strings| && 1 <= j < |Lines(strings[i])| && UnitRun(Lines(strings[i])[j]) > 0
  }

  /** The match a counted line contributes: its line break and its run of units. */
  function RunMatch(l: string): string {
    "\n" + l[..UnitRun(l)]
  }

  /** The collected matches are the matches of the single fragments. */
  lemma AllMatchesMembers(strings: seq<string>, m: string)
    ensures m in AllMatches(strings) <==> exists i :: 0 <= i < |strings| && m in IndentMatches(strings[i])
  {
    if m in AllMatches(strings) {
      var i := MatchSource(strings, m);
    }
    if exists i :: 0 <= i < |strings| && m in IndentMatches(strings[i]) {
      var i :| 0 <= i < |strings| && m in IndentMatches(strings[i]);
      MatchCollected(strings, i, m);
    }
  }

  /** A collected match comes from some fragment `i`. */
  lemma {:induction false} MatchSource(strings: seq<string>, m: string) returns (i: int)
    requires m in AllMatches(strings)
    ensures 0 <= i < |strings| && m in IndentMatches(strings[i])
    decreases |strings|
  {
    var init, last := strings[..|strings| - 1], strings[|strings| - 1];
    assert AllMatches(strings) == AllMatches(init) + IndentMatches(last);
    if m in AllMatches(init) {
      i := MatchSource(init, m);
      assert init[i] == strings[i];
    } else {
      i := |strings| - 1;
    }
  }

  /** Every match of fragment `i` is collected. */
  lemma {:induction false} MatchCollected(strings: seq<string>, i: int, m: string)
    requires 0 <= i < |strings| && m in IndentMatches(strings[i])
    ensures m in AllMatches(strings)
    decreases |strings|
  {
    var init, last := strings[..|strings| - 1], strings[|strings| - 1];
    assert AllMatches(strings) == AllMatches(init) + IndentMatches(last);
    if i < |init| {
      assert init[i] == strings[i];
      MatchCollected(init, i, m);
    }
  }

  /** The collected matches are exactly the runs of the counted lines, each after its line break. */
  lemma MatchesAreCountedRuns(strings: seq<string>, m: string)
    ensures m in AllMatches(strings) <==>
      exists i, j :: CountedLine(strings, i, j) && m == RunMatch(Lines(strings[i])[j])
  {
    if m in AllMatches(strings) {
      var i := MatchSource(strings, m);
      var j := RunMatchSource(strings[i], m);
      assert CountedLine(strings, i, j);
    }
    if exists i, j :: CountedLine(strings, i, j) && m == RunMatch(Lines(strings[i])[j]) {
      var i, j :| CountedLine(strings, i, j) && m == RunMatch(Lines(strings[i])[j]);
      RunMatchFound(strings[i], j);
      MatchCollected(strings, i, m);
    }
  }

  /** A match of one fragment is the run of one of its lines after the first. */
  lemma RunMatchSource(s: string, m: string) returns (j: int)
    requires m in IndentMatches(s)
    ensures 1 <= j < |Lines(s)| && UnitRun(Lines(s)[j]) > 0 && m == RunMatch(Lines(s)[j])
  {
    var ls := Lines(s);
    IndentMatchesByLines(s);
    LineMatchesMembers(ls[1..], m);
    var p :| 0 <= p < |ls[1..]| && UnitRun(ls[1..][p]) > 0 && m == "\n" + ls[1..][p][..UnitRun(ls[1..][p])];
    j := p + 1;
    assert ls[1..][p] == ls[j];
  }

  /** The run of a line after the first, when it has one, is a match of the fragment. */
  lemma RunMatchFound(s: string, j: int)
    requires 1 <= j < |Lines(s)| && UnitRun(Lines(s)[j]) > 0
    ensures RunMatch(Lines(s)[j]) in IndentMatches(s)
  {
    var ls := Lines(s);
    IndentMatchesByLines(s);
    assert ls[1..][j - 1] == ls[j];
    LineMatchesMembers(ls[1..], RunMatch(ls[j]));
  }

  /** `matches.length` is non-zero exactly when some line after a line break starts with a unit. */
  lemma HasMatchesIff(strings: seq<string>)
    ensures AllMatches(strings) != [] <==> exists i, j :: CountedLine(strings, i, j)
  {
    var ms := AllMatches(strings);
    if ms != [] {
      MatchesAreCountedRuns(strings, ms[0]);
    }
    if exists i, j :: CountedLine(strings, i, j) {
      var i, j :| CountedLine(strings, i, j);
      MatchesAreCountedRuns(strings, RunMatch(Lines(strings[i])[j]));
    }
  }

  /**
   The strip width is the shortest counted run, in characters: no counted line has a
   shorter run, and some counted line has exactly that run.
   */
  lemma StripWidthIsShortestRun(strings: seq<string>)
    requires AllMatches(strings) != []
    ensures forall i, j :: CountedLine(strings, i, j) ==> StripWidth(strings) <= UnitRun(Lines(strings[i])[j])
    ensures exists i, j :: CountedLine(strings, i, j) && StripWidth(strings) == UnitRun(Lines(strings[i])[j])
  {
    var ms := AllMatches(strings);
    forall i, j | CountedLine(strings, i, j)
      ensures StripWidth(strings) <= UnitRun(Lines(strings[i])[j])
    {
      MatchesAreCountedRuns(strings, RunMatch(Lines(strings[i])[j]));
    }
    var w := MinWidth(ms);
    assert exists m :: m in ms && w == |m| - 1;
    var m :| m in ms && w == |m| - 1;
    MatchesAreCountedRuns(strings, m);
  }

  /** Fallback: one line break followed by a character outside `[\f\r\n\t ]` leaves every fragment as it is. */
  lemma FallbackKeepsFragments(strings: seq<string>, values: seq<string>, i: int, p: int)
    requires 0 <= i < |strings| && 0 <= p < |strings[i]| - 1
    requires strings[i][p] == '\n' && !IsBlankLead(strings[i][p + 1])
    ensures DedentOf(strings, values) == Interpolation(strings, values)
  {
    assert HasUnindentedLine(strings[i]);
    assert ScanUnindented(strings[i]);
  }

  /** Without a counted line there is nothing to strip: every fragment is left as it is. */
  lemma NoRunKeepsFragments(strings: seq<string>, values: seq<string>)
    requires forall i, j :: 0 <= i < |strings| && 1 <= j < |Lines(strings[i])| ==> UnitRun(Lines(strings[i])[j]) == 0
    ensures DedentOf(strings, values) == Interpolation(strings, values)
  {
    HasMatchesIff(strings);
  }

  /**
   A plain string is one fragment with no values: the result is the string, stripped when
   it is dedentable and has indented lines, then trimmed; no line break is inserted.
   */
  lemma PlainText(s: string)
    ensures ScanUnindented(s) || IndentMatches(s) == [] ==> DedentOf([s], []) == Trim(s)
    ensures !ScanUnindented(s) && IndentMatches(s) != [] ==>
      DedentOf([s], []) == Trim(Strip(s, MinWidth(IndentMatches(s))))
  {
    assert [s][..0] == [];
    assert AllMatches([s]) == IndentMatches(s);
    JoinedOne(s);
    if !ScanUnindented(s) && IndentMatches(s) != [] {
      var k := MinWidth(IndentMatches(s));
      assert StripAll([s], k) == [Strip(s, k)];
      JoinedOne(Strip(s, k));
    }
  }

  /**
   The strip, line by line, in a dedentable input with counted lines: the number of line
   breaks and the text before the first one stay the same; a counted line loses exactly
   `size` leading tabs or spaces, so its indentation drops by `size` and relative indentation
   among counted lines is kept; a line with fewer than `size` leading tabs or spaces is kept.
   */
  lemma DedentedLines(strings: seq<string>, i: int)
    requires !AnyUnindented(strings) && AllMatches(strings) != []
    requires 0 <= i < |strings|
    ensures var size := StripWidth(strings);
            var before := Lines(strings[i]);
            var after := Lines(StripAll(strings, size)[i]);
            && multiset(StripAll(strings, size)[i])['\n'] == multiset(strings[i])['\n']
            && |after| == |before| && after[0] == before[0]
            && (forall j :: CountedLine(strings, i, j) ==>
                  IndentedBy(before[j], size) && before[j] == before[j][..size] + after[j]
                  && IndentWidth(after[j]) == IndentWidth(before[j]) - size)
            && (forall j :: 1 <= j < |before| && !IndentedBy(before[j], size) ==> after[j] == before[j])
  {
    var size := StripWidth(strings);
    var s := strings[i];
    var out := StripAll(strings, size)[i];
    assert out == Strip(s, size);
    StripRemovesOnlyIndent(s, size, '\n');
    StripByLines(s, size);
    StripWidthIsShortestRun(strings);
    var before := Lines(s);
    forall j | CountedLine(strings, i, j)
      ensures IndentedBy(before[j], size)
      ensures before[j] == before[j][..size] + StripLine(before[j], size)
      ensures IndentWidth(StripLine(before[j], size)) == IndentWidth(before[j]) - size
    {
      StripIndentedLine(before[j], size);
    }
  }

  /** A line with `k` leading tabs or spaces is those `k` characters followed by its strip. */
  lemma StripIndentedLine(l: string, k: nat)
    requires IndentedBy(l, k)
    ensures l == l[..k] + StripLine(l, k)
    ensures IndentWidth(StripLine(l, k)) == IndentWidth(l) - k
  {
    assert l == l[..k] + l[k..];
    IndentWidthAfterDrop(l, k);
  }
}
