/**
 The three regular expressions of `dedent` (editor.js), each written as a
 character-level scanner and tied to a line-by-line description of what it does:

   - `/\n[^\f\r\n\t ]/`      a line that starts without indentation;
   - `/\n(\t| {2})+/g`        every line break followed by indentation units;
   - `/\n(\t| ){size}/g`      the fixed-width strip pattern, used with `replaceAll`.
 */
module IndentPatterns {
  import opened JsString

  /** TAB_LENGTH: the number of spaces that make one indentation unit. */
  const TabLength: nat := 2

  /** The class `(\t| )` of the strip pattern. */
  predicate IsIndentChar(c: char) {
    c == '\t' || c == ' '
  }

  /** The class `[\f\r\n\t ]`: what may follow a line break without making the line unindented. */
  predicate IsBlankLead(c: char) {
    c == '\U{0C}' || c == '\r' || c == '\n' || c == '\t' || c == ' '
  }

  // ---------------------------------------------------------------------------
  // `/\n[^\f\r\n\t ]/`: a line that starts without indentation

  /** Some line break of `s` is followed by a character outside `[\f\r\n\t ]`. */
  ghost predicate HasUnindentedLine(s: string) {
    exists p :: 0 <= p < |s| - 1 && s[p] == '\n' && !IsBlankLead(s[p + 1])
  }

  /** Scanner for `/\n[^\f\r\n\t ]/`: true exactly when the pattern matches somewhere in `s`. */
  function ScanUnindented(s: string): (found: bool)
    ensures found <==> HasUnindentedLine(s)
  {
    if |s| < 2 then false
    else if s[0] == '\n' && !IsBlankLead(s[1]) then true
    else
      var rest := ScanUnindented(s[1..]);
      assert rest ==> exists p :: 0 <= p < |s| - 1 && s[p] == '\n' && !IsBlankLead(s[p + 1]) by {
        if rest {
          var q :| 0 <= q < |s[1..]| - 1 && s[1..][q] == '\n' && !IsBlankLead(s[1..][q + 1]);
          assert s[q + 1] == '\n' && !IsBlankLead(s[q + 2]);
        }
      }
      rest
  }

  // ---------------------------------------------------------------------------
  // `(\t| {2})+`: runs of indentation units

  /** `t` starts with TabLength spaces. */
  predicate StartsWithSpaces(t: string) {
    TabLength <= |t| && forall k :: 0 <= k < TabLength ==> t[k] == ' '
  }

  /** Length of the unit `(\t| {2})` at the start of `t`, or 0 when there is none. */
  function UnitAt(t: string): nat {
    if 0 < |t| && t[0] == '\t' then 1
    else if StartsWithSpaces(t) then TabLength
    else 0
  }

  /** `t` is a concatenation of indentation units: a word of `(\t| {2})*`. */
  ghost predicate IsUnits(t: string)
    decreases |t|
  {
    t == []
    || (t[0] == '\t' && IsUnits(t[1..]))
    || (StartsWithSpaces(t) && IsUnits(t[TabLength..]))
  }

  /** Length in characters of the greedy match of `(\t| {2})*` at the start of `t`. */
  function UnitRun(t: string): (n: nat)
    ensures n <= |t|
    ensures IsUnits(t[..n])
    ensures UnitAt(t[n..]) == 0
    ensures forall k :: 0 <= k < n ==> IsIndentChar(t[k])
    decreases |t|
  {
    var u := UnitAt(t);
    if u == 0 then
      assert t[..0] == [];
      0
    else
      var m := UnitRun(t[u..]);
      UnitsAfterUnit(t, u, m);
      u + m
  }

  /** One unit followed by a run of `m` units is a run of `u + m` units. */
  lemma UnitsAfterUnit(t: string, u: nat, m: nat)
    requires u == UnitAt(t) && u > 0 && m <= |t| - u
    requires IsUnits(t[u..][..m]) && UnitAt(t[u..][m..]) == 0
    requires forall k :: 0 <= k < m ==> IsIndentChar(t[u..][k])
    ensures IsUnits(t[..u + m]) && UnitAt(t[u + m..]) == 0
    ensures forall k :: 0 <= k < u + m ==> IsIndentChar(t[k])
  {
    var w := t[..u + m];
    var v := t[u..][..m];
    assert |w[u..]| == |v|;
    forall i | 0 <= i < m ensures w[u..][i] == v[i] { assert w[u..][i] == t[u + i]; }
    assert w[u..] == v;
    if u == 1 {
      assert w[0] == '\t';
    } else {
      assert StartsWithSpaces(w) by {
        forall i | 0 <= i < TabLength ensures w[i] == ' ' { assert w[i] == t[i]; }
      }
    }
    assert t[u + m..] == t[u..][m..];
    forall k | u <= k < u + m ensures IsIndentChar(t[k]) {
      assert t[k] == t[u..][k - u];
    }
  }

  /** The greedy run is the longest: no longer prefix of `t` is made of units. */
  lemma {:induction false} UnitRunIsLongest(t: string, k: nat)
    requires k <= |t| && IsUnits(t[..k])
    ensures k <= UnitRun(t)
    decreases k
  {
    if k > 0 {
      var w := t[..k];
      var u := if w[0] == '\t' then 1 else TabLength;
      assert UnitAt(t) == u;
      assert w[u..] == t[u..][..k - u];
      UnitRunIsLongest(t[u..], k - u);
    }
  }

  /** The run only looks at the indentation characters it starts with. */
  lemma {:induction false} UnitRunOfPrefix(l: string, t: string)
    requires l <= t
    requires |l| == |t| || !IsIndentChar(t[|l|])
    ensures UnitRun(l) == UnitRun(t)
    decreases |t|
  {
    var u := UnitAt(t);
    if u > 0 {
      assert |l| >= u;
      assert UnitAt(l) == u;
      assert l[u..] <= t[u..];
      UnitRunOfPrefix(l[u..], t[u..]);
    } else {
      assert UnitAt(l) == 0;
    }
  }

  // ---------------------------------------------------------------------------
  // `/\n(\t| {2})+/g`: every line break followed by units

  /** Scanner for `s.match(/\n(\t| {2})+/g)`: the matched strings, left to right (none: empty). */
  function IndentMatches(s: string): (ms: seq<string>)
    ensures forall m :: m in ms ==> |m| >= 2 && m[0] == '\n'
    decreases |s|
  {
    if s == [] then []
    else if s[0] == '\n' && UnitRun(s[1..]) > 0 then
      [s[..1 + UnitRun(s[1..])]] + IndentMatches(s[1 + UnitRun(s[1..])..])
    else IndentMatches(s[1..])
  }

  /** The match a line contributes when a line break precedes it: the break and its leading units. */
  function LineMatch(l: string): seq<string> {
    if UnitRun(l) > 0 then ["\n" + l[..UnitRun(l)]] else []
  }

  function LineMatches(ls: seq<string>): seq<string> {
    if ls == [] then [] else LineMatch(ls[0]) + LineMatches(ls[1..])
  }

  /** A leading run of indentation is glued onto the first line of what follows it. */
  lemma IndentPrefixLines(t: string, k: nat)
    requires IndentedBy(t, k)
    ensures Lines(t) == [t[..k] + Lines(t[k..])[0]] + Lines(t[k..])[1..]
    ensures Lines(t)[0][..k] == t[..k]
  {
    var u := t[..k];
    assert t == u + t[k..];
    assert '\n' !in u by {
      forall i | 0 <= i < k ensures u[i] != '\n' { assert IsIndentChar(t[i]); }
    }
    LinesAppend(u, t[k..]);
  }

  lemma HeadAndPrefix(s: string, n: nat)
    requires s != [] && s[0] == '\n' && 1 + n <= |s|
    ensures s[..1 + n] == "\n" + s[1..][..n]
  {
  }

  /** The global match yields, for every line but the first, its run of units (when it has one). */
  lemma {:induction false} IndentMatchesByLines(s: string)
    ensures IndentMatches(s) == LineMatches(Lines(s)[1..])
    decreases |s|, 1
  {
    if s == [] {
      assert Lines(s)[1..] == [];
    } else if s[0] != '\n' {
      var t := s[1..];
      assert Lines(s)[1..] == Lines(t)[1..] by {
        assert s == [s[0]] + t;
        LinesCons(s[0], t);
      }
      IndentMatchesByLines(t);
    } else if UnitRun(s[1..]) > 0 {
      IndentMatchesRun(s);
    } else {
      IndentMatchesNoRun(s);
    }
  }

  /** The case of IndentMatchesByLines where a line break is followed by no unit. */
  lemma {:induction false} IndentMatchesNoRun(s: string)
    requires s != [] && s[0] == '\n' && UnitRun(s[1..]) == 0
    ensures IndentMatches(s) == LineMatches(Lines(s)[1..])
    decreases |s|, 0
  {
    var t := s[1..];
    var lt := Lines(t);
    BreakThenLines(s);
    assert LineMatch(lt[0]) == [] by {
      UnitRunOfPrefix(lt[0], t);
    }
    IndentMatchesByLines(t);
    assert LineMatches(lt) == LineMatch(lt[0]) + LineMatches(lt[1..]);
  }

  /** The case of IndentMatchesByLines where a line break is followed by units. */
  lemma {:induction false} IndentMatchesRun(s: string)
    requires s != [] && s[0] == '\n' && UnitRun(s[1..]) > 0
    ensures IndentMatches(s) == LineMatches(Lines(s)[1..])
    decreases |s|, 0
  {
    var n := UnitRun(s[1..]);
    var rest := s[1 + n..];
    var lt := Lines(s[1..]);
    BreakThenLines(s);
    RunLine(s);
    RunLineRest(s);
    IndentMatchesByLines(rest);
    assert IndentMatches(s) == [s[..1 + n]] + IndentMatches(rest);
    assert LineMatches(lt) == LineMatch(lt[0]) + LineMatches(lt[1..]);
  }

  /** After a leading line break, the lines are those of the text that follows it. */
  lemma BreakThenLines(s: string)
    requires s != [] && s[0] == '\n'
    ensures Lines(s)[1..] == Lines(s[1..])
  {
    assert s == [s[0]] + s[1..];
    LinesCons(s[0], s[1..]);
  }

  /** A line break followed by a run of `n` units: the line after it contributes the match `s[..1 + n]`. */
  lemma RunLine(s: string)
    requires s != [] && s[0] == '\n' && UnitRun(s[1..]) > 0
    ensures LineMatch(Lines(s[1..])[0]) == [s[..1 + UnitRun(s[1..])]]
  {
    var t := s[1..];
    var n := UnitRun(t);
    var l := Lines(t)[0];
    assert l[..n] == t[..n] && UnitRun(l) == n by {
      IndentPrefixLines(t, n);
      UnitRunOfPrefix(l, t);
    }
    assert "\n" + t[..n] == s[..1 + n] by {
      HeadAndPrefix(s, n);
    }
  }

  /** ... and the lines after that one are those of the text after the run. */
  lemma RunLineRest(s: string)
    requires s != [] && s[0] == '\n' && UnitRun(s[1..]) > 0
    ensures Lines(s[1..])[1..] == Lines(s[1 + UnitRun(s[1..])..])[1..]
  {
    var t := s[1..];
    var n := UnitRun(t);
    assert s[1 + n..] == t[n..];
    IndentPrefixLines(t, n);
  }

  /** Membership in LineMatches: exactly the lines that start with at least one unit. */
  lemma {:induction false} LineMatchesMembers(ls: seq<string>, m: string)
    ensures m in LineMatches(ls) <==>
      exists j :: 0 <= j < |ls| && UnitRun(ls[j]) > 0 && m == "\n" + ls[j][..UnitRun(ls[j])]
    decreases |ls|
  {
    if ls != [] {
      LineMatchesMembers(ls[1..], m);
      forall j | 1 <= j < |ls| ensures ls[j] == ls[1..][j - 1] { }
      if m in LineMatches(ls[1..]) {
        var j :| 0 <= j < |ls[1..]| && UnitRun(ls[1..][j]) > 0 && m == "\n" + ls[1..][j][..UnitRun(ls[1..][j])];
        assert ls[j + 1] == ls[1..][j];
      }
    }
  }

  // ---------------------------------------------------------------------------
  // `/\n(\t| ){k}/g` with `replaceAll(pattern, "\n")`: the strip

  /** `t` starts with at least `k` characters, each a tab or a space. */
  predicate IndentedBy(t: string, k: nat) {
    k <= |t| && forall i :: 0 <= i < k ==> IsIndentChar(t[i])
  }

  /** The number of tab and space characters `l` starts with: its indentation, in characters. */
  function IndentWidth(l: string): (n: nat)
    ensures IndentedBy(l, n)
    ensures n < |l| ==> !IsIndentChar(l[n])
    decreases |l|
  {
    if l != [] && IsIndentChar(l[0]) then
      var m := IndentWidth(l[1..]);
      assert forall i :: 1 <= i < 1 + m ==> l[i] == l[1..][i - 1];
      1 + m
    else 0
  }

  /** Dropping `k` leading tabs or spaces lowers the indentation by exactly `k`. */
  lemma {:induction false} IndentWidthAfterDrop(l: string, k: nat)
    requires IndentedBy(l, k)
    ensures IndentWidth(l) >= k
    ensures IndentWidth(l[k..]) == IndentWidth(l) - k
    decreases k
  {
    if k > 0 {
      assert IsIndentChar(l[0]);
      assert IndentedBy(l[1..], k - 1) by {
        forall i | 0 <= i < k - 1 ensures IsIndentChar(l[1..][i]) { assert l[1..][i] == l[i + 1]; }
      }
      IndentWidthAfterDrop(l[1..], k - 1);
      assert l[1..][k - 1..] == l[k..];
    }
  }

  /** Scanner for `s.replaceAll(/\n(\t| ){k}/g, "\n")`. */
  function Strip(s: string, k: nat): string
    decreases |s|
  {
    if s == [] then []
    else if s[0] == '\n' && IndentedBy(s[1..], k) then "\n" + Strip(s[1 + k..], k)
    else [s[0]] + Strip(s[1..], k)
  }

  /** What the strip does to one line that follows a line break. */
  function StripLine(l: string, k: nat): string {
    if IndentedBy(l, k) then l[k..] else l
  }

  /**
   Line by line: the first line is untouched, every other line loses its first `k`
   characters when they are all tabs or spaces, and is kept as it is otherwise.
   */
  lemma {:induction false} StripByLines(s: string, k: nat)
    ensures |Lines(Strip(s, k))| == |Lines(s)|
    ensures Lines(Strip(s, k))[0] == Lines(s)[0]
    ensures forall j :: 1 <= j < |Lines(s)| ==> Lines(Strip(s, k))[j] == StripLine(Lines(s)[j], k)
    decreases |s|, 1
  {
    if s == [] {
    } else if s[0] == '\n' && IndentedBy(s[1..], k) {
      StripBreakIndented(s, k);
    } else if s[0] == '\n' {
      StripBreakShort(s, k);
    } else {
      StripOther(s, k);
    }
  }

  /** StripByLines, for a first character that is not a line break: it is kept. */
  lemma {:induction false} StripOther(s: string, k: nat)
    requires s != [] && s[0] != '\n'
    ensures |Lines(Strip(s, k))| == |Lines(s)|
    ensures Lines(Strip(s, k))[0] == Lines(s)[0]
    ensures forall j :: 1 <= j < |Lines(s)| ==> Lines(Strip(s, k))[j] == StripLine(Lines(s)[j], k)
    decreases |s|, 0
  {
    var t := s[1..];
    var st := Strip(t, k);
    assert Lines(s) == [[s[0]] + Lines(t)[0]] + Lines(t)[1..] by {
      assert s == [s[0]] + t;
      LinesCons(s[0], t);
    }
    assert Lines(Strip(s, k)) == [[s[0]] + Lines(st)[0]] + Lines(st)[1..] by {
      assert Strip(s, k) == [s[0]] + st;
      LinesCons(s[0], st);
    }
    StripByLines(t, k);
  }

  /** StripByLines, for a line break followed by `k` tabs or spaces: they are dropped. */
  lemma {:induction false} StripBreakIndented(s: string, k: nat)
    requires s != [] && s[0] == '\n' && IndentedBy(s[1..], k)
    ensures |Lines(Strip(s, k))| == |Lines(s)|
    ensures Lines(Strip(s, k))[0] == Lines(s)[0]
    ensures forall j :: 1 <= j < |Lines(s)| ==> Lines(Strip(s, k))[j] == StripLine(Lines(s)[j], k)
    decreases |s|, 0
  {
    var t := s[1..];
    var rest := t[k..];
    var sr := Strip(rest, k);
    var lt, lr, lsr := Lines(t), Lines(rest), Lines(sr);
    assert Lines(s) == [""] + lt by {
      assert s == [s[0]] + t;
      LinesCons(s[0], t);
    }
    assert Lines(Strip(s, k)) == [""] + lsr by {
      assert s[1 + k..] == rest;
      assert Strip(s, k) == ['\n'] + sr;
      LinesCons('\n', sr);
    }
    assert |lsr| == |lt| && forall j :: 0 <= j < |lt| ==> lsr[j] == StripLine(lt[j], k) by {
      IndentPrefixLines(t, k);
      StripByLines(rest, k);
      assert StripLine(lt[0], k) == lsr[0] by {
        assert IndentedBy(lt[0], k);
        assert lt[0][k..] == lr[0];
      }
      SameTail(lt, lr, t[..k] + lr[0]);
    }
    AfterBreak(Lines(s), Lines(Strip(s, k)), lt, lsr, k);
  }

  /** StripByLines, for a line break followed by fewer than `k` tabs or spaces: nothing is dropped. */
  lemma {:induction false} StripBreakShort(s: string, k: nat)
    requires s != [] && s[0] == '\n' && !IndentedBy(s[1..], k)
    ensures |Lines(Strip(s, k))| == |Lines(s)|
    ensures Lines(Strip(s, k))[0] == Lines(s)[0]
    ensures forall j :: 1 <= j < |Lines(s)| ==> Lines(Strip(s, k))[j] == StripLine(Lines(s)[j], k)
    decreases |s|, 0
  {
    var t := s[1..];
    var st := Strip(t, k);
    var lt, lst := Lines(t), Lines(st);
    assert Lines(s) == [""] + lt by {
      assert s == [s[0]] + t;
      LinesCons(s[0], t);
    }
    assert Lines(Strip(s, k)) == [""] + lst by {
      assert Strip(s, k) == ['\n'] + st;
      LinesCons('\n', st);
    }
    assert |lst| == |lt| && forall j :: 0 <= j < |lt| ==> lst[j] == StripLine(lt[j], k) by {
      StripByLines(t, k);
      assert !IndentedBy(lt[0], k);
    }
    AfterBreak(Lines(s), Lines(Strip(s, k)), lt, lst, k);
  }

  /** Two sequences that differ at most in their first element. */
  lemma SameTail(a: seq<string>, b: seq<string>, x: string)
    requires |b| >= 1 && a == [x] + b[1..]
    ensures |a| == |b| && forall j :: 1 <= j < |a| ==> a[j] == b[j]
  {
    forall j | 1 <= j < |a| ensures a[j] == b[j] {
      assert a[j] == b[1..][j - 1];
    }
  }

  /**
   The line-by-line shape after a leading line break: an empty first line on both sides,
   then lines that correspond one to one through StripLine.
   */
  lemma AfterBreak(ls: seq<string>, lss: seq<string>, lt: seq<string>, lst: seq<string>, k: nat)
    requires ls == [""] + lt && lss == [""] + lst
    requires |lst| == |lt| && forall j :: 0 <= j < |lt| ==> lst[j] == StripLine(lt[j], k)
    ensures |lss| == |ls| && lss[0] == ls[0]
    ensures forall j :: 1 <= j < |ls| ==> lss[j] == StripLine(ls[j], k)
  {
    forall j | 1 <= j < |ls| ensures lss[j] == StripLine(ls[j], k) {
      assert ls[j] == lt[j - 1] && lss[j] == lst[j - 1];
    }
  }

  /** The strip removes nothing but tabs and spaces: every other character keeps its count. */
  lemma {:induction false} StripRemovesOnlyIndent(s: string, k: nat, c: char)
    requires !IsIndentChar(c)
    ensures multiset(Strip(s, k))[c] == multiset(s)[c]
    decreases |s|, 1
  {
    if s == [] {
    } else if s[0] == '\n' && IndentedBy(s[1..], k) {
      StripKeepsCountIndented(s, k, c);
    } else {
      var head, tail := [s[0]], s[1..];
      StripRemovesOnlyIndent(tail, k, c);
      assert s == head + tail;
      CountConcat(head, tail, c);
      assert Strip(s, k) == head + Strip(tail, k);
      CountConcat(head, Strip(tail, k), c);
    }
  }

  /** StripRemovesOnlyIndent, for a line break followed by `k` tabs or spaces. */
  lemma {:induction false} StripKeepsCountIndented(s: string, k: nat, c: char)
    requires !IsIndentChar(c)
    requires s != [] && s[0] == '\n' && IndentedBy(s[1..], k)
    ensures multiset(Strip(s, k))[c] == multiset(s)[c]
    decreases |s|, 0
  {
    var head, gap, rest := [s[0]], s[1..1 + k], s[1 + k..];
    StripRemovesOnlyIndent(rest, k, c);
    assert s == head + (gap + rest);
    CountConcat(head, gap + rest, c);
    CountConcat(gap, rest, c);
    assert c !in gap by {
      forall i | 0 <= i < k ensures gap[i] != c { assert IsIndentChar(s[1 + i]); }
    }
    assert Strip(s, k) == head + Strip(rest, k);
    CountConcat(head, Strip(rest, k), c);
  }

  lemma CountConcat(a: string, b: string, c: char)
    ensures multiset(a + b)[c] == multiset(a)[c] + multiset(b)[c]
  {
    assert multiset(a + b) == multiset(a) + multiset(b);
  }
}
