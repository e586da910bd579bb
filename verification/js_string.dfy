/**
 The JavaScript string built-ins that `dedent` relies on: `String.prototype.trim`,
 `Array.prototype.join`, and splitting a text into its lines (the view used to
 state what the indentation patterns do).
 */
module JsString {

  /** ECMAScript WhiteSpace and LineTerminator code points: what `trim` removes. */
  predicate IsWhitespace(c: char) {
    c == '\t' || c == '\n' || c == '\U{0B}' || c == '\U{0C}' || c == '\r' || c == ' '
    || c == '\U{A0}' || c == '\U{1680}' || ('\U{2000}' <= c <= '\U{200A}')
    || c == '\U{2028}' || c == '\U{2029}' || c == '\U{202F}' || c == '\U{205F}'
    || c == '\U{3000}' || c == '\U{FEFF}'
  }

  predicate AllWhitespace(s: string) {
    forall k :: 0 <= k < |s| ==> IsWhitespace(s[k])
  }

  /** Neither the first nor the last character is whitespace. */
  predicate NoOuterWhitespace(s: string) {
    s == [] || (!IsWhitespace(s[0]) && !IsWhitespace(s[|s| - 1]))
  }

  /** The number of whitespace characters `s` starts with. */
  function LeadingWhitespace(s: string): (n: nat)
    ensures n <= |s| && AllWhitespace(s[..n])
    ensures n < |s| ==> !IsWhitespace(s[n])
  {
    if s == [] || !IsWhitespace(s[0]) then 0
    else
      var m := LeadingWhitespace(s[1..]);
      assert s[..1 + m] == [s[0]] + s[1..][..m];
      1 + m
  }

  /** The number of whitespace characters `s` ends with. */
  function TrailingWhitespace(s: string): (n: nat)
    ensures n <= |s| && AllWhitespace(s[|s| - n..])
    ensures n < |s| ==> !IsWhitespace(s[|s| - n - 1])
  {
    if s == [] || !IsWhitespace(s[|s| - 1]) then 0
    else
      var init := s[..|s| - 1];
      var m := TrailingWhitespace(init);
      assert s[|s| - (1 + m)..] == init[|init| - m..] + [s[|s| - 1]];
      1 + m
  }

  /** `String.prototype.trim`: drop leading, then trailing whitespace. */
  function Trim(s: string): (r: string)
    ensures NoOuterWhitespace(r)
    ensures |r| <= |s|
  {
    var t := s[LeadingWhitespace(s)..];
    t[..|t| - TrailingWhitespace(t)]
  }

  /** Trimming keeps a contiguous middle part and only drops whitespace around it. */
  lemma TrimKeepsMiddle(s: string)
    ensures exists i :: (0 <= i && i + |Trim(s)| <= |s| && s[i..i + |Trim(s)|] == Trim(s)
                         && AllWhitespace(s[..i]) && AllWhitespace(s[i + |Trim(s)|..]))
  {
    var r := Trim(s);
    var i := LeadingWhitespace(s);
    var t := s[i..];
    var n := TrailingWhitespace(t);
    assert r == t[..|t| - n];
    assert s[i..i + |r|] == r;
    assert s[i + |r|..] == t[|t| - n..];
    assert 0 <= i && i + |r| <= |s| && s[i..i + |r|] == r && AllWhitespace(s[..i]) && AllWhitespace(s[i + |r|..]);
  }

  /** Trim is determined by that shape: whitespace, a middle with no outer whitespace, whitespace. */
  lemma TrimOfPadded(a: string, m: string, b: string)
    requires AllWhitespace(a) && AllWhitespace(b) && NoOuterWhitespace(m)
    ensures Trim(a + m + b) == m
  {
    var s := a + m + b;
    if m == [] {
      assert s == (a + b) + [];
      LeadingOfPadded(a + b, []);
    } else {
      LeadingOfPadded(a, m + b);
      assert s == a + (m + b);
      var t := s[|a|..];
      assert t == m + b;
      TrailingOfPadded(m, b);
    }
  }

  lemma {:induction false} LeadingOfPadded(a: string, u: string)
    requires AllWhitespace(a)
    requires u == [] || !IsWhitespace(u[0])
    ensures LeadingWhitespace(a + u) == |a|
    decreases |a|
  {
    if a != [] {
      assert (a + u)[1..] == a[1..] + u;
      LeadingOfPadded(a[1..], u);
    }
  }

  lemma {:induction false} TrailingOfPadded(u: string, b: string)
    requires AllWhitespace(b)
    requires u == [] || !IsWhitespace(u[|u| - 1])
    ensures TrailingWhitespace(u + b) == |b|
    decreases |b|
  {
    if b != [] {
      assert (u + b)[..|u + b| - 1] == u + b[..|b| - 1];
      TrailingOfPadded(u, b[..|b| - 1]);
    }
  }

  /** `Array.prototype.join` on strings. */
  function Join(parts: seq<string>, sep: string): string {
    if |parts| == 0 then ""
    else if |parts| == 1 then parts[0]
    else parts[0] + sep + Join(parts[1..], sep)
  }

  /** Joining one more part appends the separator and that part. */
  lemma {:induction false} JoinSnoc(parts: seq<string>, x: string, sep: string)
    requires parts != []
    ensures Join(parts + [x], sep) == Join(parts, sep) + sep + x
    decreases |parts|
  {
    if |parts| > 1 {
      assert (parts + [x])[1..] == parts[1..] + [x];
      JoinSnoc(parts[1..], x, sep);
    } else {
      assert (parts + [x])[1..] == [x];
    }
  }

  /** The lines of `s`: `s.split("\n")`. There is always at least one. */
  function Lines(s: string): (ls: seq<string>)
    ensures |ls| >= 1
    ensures ls[0] <= s
    ensures |ls[0]| < |s| ==> s[|ls[0]|] == '\n'
    ensures forall j :: 0 <= j < |ls| ==> '\n' !in ls[j]
  {
    if s == [] then [""]
    else
      var rest := Lines(s[1..]);
      if s[0] == '\n' then [""] + rest
      else [[s[0]] + rest[0]] + rest[1..]
  }

  lemma LinesCons(c: char, t: string)
    ensures Lines([c] + t) == if c == '\n' then [""] + Lines(t)
                              else [[c] + Lines(t)[0]] + Lines(t)[1..]
  {
    assert ([c] + t)[1..] == t;
  }

  /** Text without a line break is glued onto the first line of what follows it. */
  lemma {:induction false} LinesAppend(u: string, v: string)
    requires '\n' !in u
    ensures Lines(u + v) == [u + Lines(v)[0]] + Lines(v)[1..]
    decreases |u|
  {
    var lv := Lines(v);
    if u == [] {
      assert u + v == v;
      assert u + lv[0] == lv[0];
      assert lv == [lv[0]] + lv[1..];
    } else {
      assert u + v == [u[0]] + (u[1..] + v);
      LinesCons(u[0], u[1..] + v);
      LinesAppend(u[1..], v);
      assert [u[0]] + (u[1..] + lv[0]) == u + lv[0];
    }
  }

  /** Round trip: joining the lines with "\n" gives back the text. */
  lemma {:induction false} JoinLines(s: string)
    ensures Join(Lines(s), "\n") == s
    decreases |s|
  {
    if s != [] {
      var rest := Lines(s[1..]);
      JoinLines(s[1..]);
      if s[0] == '\n' {
        assert ([""] + rest)[1..] == rest;
      } else {
        var ls := Lines(s);
        if |rest| > 1 {
          assert ls[1..] == rest[1..];
          assert rest == [rest[0]] + rest[1..];
        }
      }
    }
  }

  /** Round trip: the lines of a "\n"-join of break-free parts are those parts. */
  lemma {:induction false} LinesJoin(parts: seq<string>)
    requires |parts| >= 1
    requires forall j :: 0 <= j < |parts| ==> '\n' !in parts[j]
    ensures Lines(Join(parts, "\n")) == parts
    decreases |parts|
  {
    if |parts| == 1 {
      LinesAppend(parts[0], "");
      assert parts[0] + "" == parts[0];
    } else {
      var tail := Join(parts[1..], "\n");
      LinesJoin(parts[1..]);
      assert parts[0] + "\n" + tail == parts[0] + ("\n" + tail);
      LinesAppend(parts[0], "\n" + tail);
      LinesCons('\n', tail);
      assert "\n" + tail == ['\n'] + tail;
      assert Lines("\n" + tail) == [""] + parts[1..];
      assert parts[0] + "" == parts[0];
      assert parts == [parts[0]] + parts[1..];
    }
  }
}
