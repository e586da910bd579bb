/**
 `dedent` (editor.js): given a plain string, or the string fragments of a template
 literal and the values interpolated between them, remove the shortest indentation
 that follows a line break from every line break of every fragment, join the
 fragments and values back together with "\n", and trim the result.
 */
module Dedent {
  import opened JsString
  import opened IndentPatterns

  /** The first argument of `dedent`: a plain string, or a template's array of fragments. */
  datatype TemplateArg = Text(text: string) | Fragments(strings: array<string>)

  // ---------------------------------------------------------------------------
  // interpolate

  /** `strings[i]` where a value is glued to it: past the end, `undefined` reads "undefined". */
  function FragmentOrUndefined(strings: seq<string>, i: nat): string {
    if i < |strings| then strings[i] else "undefined"
  }

  /** The parts `interpolate` pushes: `strings[0]`, then `values[i] + strings[i + 1]` per value. */
  function Pieces(strings: seq<string>, values: seq<string>): (ps: seq<string>)
    ensures |ps| == |values| + 1
  {
    // `join` writes a missing `strings[0]` (an empty array) as the empty string
    [if |strings| > 0 then strings[0] else ""]
    + seq(|values|, i requires 0 <= i < |values| => values[i] + FragmentOrUndefined(strings, i + 1))
  }

  /** The parts joined with "\n", before trimming. */
  function Joined(strings: seq<string>, values: seq<string>): string {
    Join(Pieces(strings, values), "\n")
  }

  /** What `interpolate(strings, values)` returns. */
  function Interpolation(strings: seq<string>, values: seq<string>): string {
    Trim(Joined(strings, values))
  }

  /** A single fragment with no values is joined as it is: no line break is inserted. */
  lemma JoinedOne(s: string)
    ensures Joined([s], []) == s
  {
    assert Pieces([s], []) == [s];
  }

  /**
   Each further value and fragment is appended after an inserted "\n", so the joined text is
   `strings[0] + "\n" + values[0] + strings[1] + ... + "\n" + values[n-1] + strings[n]`.
   */
  lemma JoinedSnoc(strings: seq<string>, values: seq<string>, v: string, s: string)
    requires |strings| == |values| + 1
    ensures Joined(strings + [s], values + [v]) == Joined(strings, values) + "\n" + v + s
  {
    var ps := Pieces(strings, values);
    assert Pieces(strings + [s], values + [v]) == ps + [v + s];
    JoinSnoc(ps, v + s, "\n");
    assert Join(ps, "\n") + "\n" + (v + s) == Join(ps, "\n") + "\n" + v + s;
  }

  /** `interpolate`: push the parts in a counted loop, join them with "\n" and trim. */
  method Interpolate(strings: array<string>, values: seq<string>) returns (r: string)
    ensures r == Interpolation(strings[..], values)
    ensures NoOuterWhitespace(r)
  {
    var finalString := [if strings.Length > 0 then strings[0] else ""];
    for i := 0 to |values|
      invariant finalString == Pieces(strings[..], values[..i])
    {
      var next := if i + 1 < strings.Length then strings[i + 1] else "undefined";
      assert Pieces(strings[..], values[..i + 1]) == Pieces(strings[..], values[..i]) + [values[i] + next];
      finalString := finalString + [values[i] + next];
    }
    assert values[..|values|] == values;
    r := Trim(Join(finalString, "\n"));
  }

  // ---------------------------------------------------------------------------
  // dedent

  /** The `matches` array after the scan of `strings`: their matches, fragment after fragment. */
  function AllMatches(strings: seq<string>): (ms: seq<string>)
    ensures forall m :: m in ms ==> |m| >= 2
  {
    if strings == [] then []
    else AllMatches(strings[..|strings| - 1]) + IndentMatches(strings[|strings| - 1])
  }

  /** `Math.min(...matches.map((value) => value.length - 1))`. */
  function MinWidth(ms: seq<string>): (size: int)
    requires ms != []
    ensures exists m :: m in ms && size == |m| - 1
    ensures forall m :: m in ms ==> size <= |m| - 1
  {
    if |ms| == 1 then |ms[0]| - 1
    else
      var w := MinWidth(ms[1..]);
      assert forall m :: m in ms[1..] ==> m in ms;
      if |ms[0]| - 1 <= w then |ms[0]| - 1 else w
  }

  /** The strip width `size` of a dedentable input that has matches; always at least 1. */
  function StripWidth(strings: seq<string>): (size: nat)
    requires AllMatches(strings) != []
    ensures size >= 1
  {
    MinWidth(AllMatches(strings))
  }

  /** Every fragment after `strings[i] = strings[i].replaceAll(pattern, "\n")`. */
  function StripAll(strings: seq<string>, size: nat): seq<string> {
    seq(|strings|, i requires 0 <= i < |strings| => Strip(strings[i], size))
  }

  /** Some fragment has a line that starts without indentation. */
  predicate AnyUnindented(strings: seq<string>) {
    exists i :: 0 <= i < |strings| && ScanUnindented(strings[i])
  }

  /** What `dedent` returns for the fragments `strings` and the interpolated `values`. */
  function DedentOf(strings: seq<string>, values: seq<string>): string {
    if AnyUnindented(strings) || AllMatches(strings) == [] then Interpolation(strings, values)
    else Interpolation(StripAll(strings, StripWidth(strings)), values)
  }

  /**
   Steps 1 and 2 of `dedent`: scan the fragments in order; stop at the first one with an
   unindented line, and otherwise collect every fragment's runs of indentation units.
   */
  method ScanFragments(strings: array<string>) returns (isDedentable: bool, matches: seq<string>)
    ensures isDedentable <==> !AnyUnindented(strings[..])
    ensures isDedentable ==> matches == AllMatches(strings[..])
  {
    matches := [];
    isDedentable := true;
    var i := 0;
    while i < strings.Length
      invariant 0 <= i <= strings.Length
      invariant isDedentable
      invariant forall j :: 0 <= j < i ==> !ScanUnindented(strings[j])
      invariant matches == AllMatches(strings[..i])
    {
      if ScanUnindented(strings[i]) {
        isDedentable := false;
        break;
      }
      assert strings[..i + 1][..i] == strings[..i];
      matches := matches + IndentMatches(strings[i]);
      i := i + 1;
    }
    assert isDedentable ==> strings[..i] == strings[..];
  }

  /** Step 3 of `dedent`: `strings[i] = strings[i].replaceAll(pattern, "\n")` for every fragment. */
  method StripFragments(strings: array<string>, size: nat)
    modifies strings
    ensures strings[..] == StripAll(old(strings[..]), size)
  {
    var k := 0;
    while k < strings.Length
      invariant 0 <= k <= strings.Length
      invariant forall j :: 0 <= j < k ==> strings[j] == Strip(old(strings[j]), size)
      invariant forall j :: k <= j < strings.Length ==> strings[j] == old(strings[j])
    {
      strings[k] := Strip(strings[k], size);
      k := k + 1;
    }
  }

  /**
   `dedent(templateStrings, ...values)`. The fragments are copied into a fresh array before
   the in-place rewrite; the method may modify nothing else, so a caller's array is left as it was.
   */
  method Dedent(arg: TemplateArg, values: seq<string>) returns (r: string)
    ensures r == DedentOf(if arg.Text? then [arg.text] else arg.strings[..], values)
  {
    var source := if arg.Text? then [arg.text] else arg.strings[..];
    var strings := new string[|source|](i requires 0 <= i < |source| => source[i]);
    assert strings[..] == source;

    var isDedentable, matches := ScanFragments(strings);
    if !isDedentable {
      r := Interpolate(strings, values);
      return;
    }

    if |matches| > 0 {
      var size := MinWidth(matches);
      StripFragments(strings, size);
    }

    r := Interpolate(strings, values);
  }
}
