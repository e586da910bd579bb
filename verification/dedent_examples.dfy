/**
 A worked example on a plain string of three lines, built from general lemmas about
 three-line fragments: a second `dedent` strips a line that the first one left indented.
 */
module DedentExamples {
  import opened JsString
  import opened IndentPatterns
  import opened Dedent
  import opened DedentProperties

  /** The lines of `a + "\n" + b + "\n" + c` when none of the three holds a line break. */
  lemma ThreeLines(a: string, b: string, c: string)
    requires '\n' !in a && '\n' !in b && '\n' !in c
    ensures Lines(a + "\n" + b + "\n" + c) == [a, b, c]
  {
    var ls := [a, b, c];
    assert ls[1..] == [b, c];
    assert [b, c][1..] == [c];
    assert Join([b, c], "\n") == b + "\n" + c;
    assert a + "\n" + (b + "\n" + c) == a + "\n" + b + "\n" + c;
    LinesJoin(ls);
  }

  /** The strip of a three-line fragment works on its second and third lines only. */
  lemma StripThreeLines(a: string, b: string, c: string, k: nat)
    requires '\n' !in a && '\n' !in b && '\n' !in c
    ensures Strip(a + "\n" + b + "\n" + c, k) == a + "\n" + StripLine(b, k) + "\n" + StripLine(c, k)
  {
    var s := a + "\n" + b + "\n" + c;
    ThreeLines(a, b, c);
    StripByLines(s, k);
    var b', c' := StripLine(b, k), StripLine(c, k);
    assert '\n' !in b' && '\n' !in c';
    ThreeLines(a, b', c');
    var out := Strip(s, k);
    assert Lines(out) == Lines(a + "\n" + b' + "\n" + c');
    JoinLines(out);
    JoinLines(a + "\n" + b' + "\n" + c');
  }

  /** The line breaks of a three-line fragment sit right after its first and second lines. */
  lemma ThreeLinesUnindented(a: string, b: string, c: string)
    requires '\n' !in a && '\n' !in b && '\n' !in c
    requires b != [] && IsBlankLead(b[0]) && c != [] && IsBlankLead(c[0])
    ensures !ScanUnindented(a + "\n" + b + "\n" + c)
  {
    var s := a + "\n" + b + "\n" + c;
    forall p | 0 <= p < |s| - 1 ensures s[p] == '\n' ==> IsBlankLead(s[p + 1]) {
      if p < |a| {
        assert s[p] == a[p];
      } else if p == |a| {
        assert s[p + 1] == b[0];
      } else if p < |a| + 1 + |b| {
        assert s[p] == b[p - |a| - 1];
      } else if p == |a| + 1 + |b| {
        assert s[p + 1] == c[0];
      } else {
        assert s[p] == c[p - |a| - |b| - 2];
      }
    }
  }

  /** In a dedentable three-line fragment, the counted lines are the indented ones among the last two. */
  lemma ThreeLinesCounted(a: string, b: string, c: string)
    requires '\n' !in a && '\n' !in b && '\n' !in c
    ensures forall i, j :: CountedLine([a + "\n" + b + "\n" + c], i, j) <==>
      i == 0 && ((j == 1 && UnitRun(b) > 0) || (j == 2 && UnitRun(c) > 0))
  {
    ThreeLines(a, b, c);
  }

  /** A three-line fragment whose last two lines start blank, one of them with a unit, is dedentable and has matches. */
  lemma ThreeLinesDedentable(a: string, b: string, c: string)
    requires '\n' !in a && '\n' !in b && '\n' !in c
    requires b != [] && IsBlankLead(b[0]) && c != [] && IsBlankLead(c[0])
    requires UnitRun(b) > 0 || UnitRun(c) > 0
    ensures !AnyUnindented([a + "\n" + b + "\n" + c])
    ensures AllMatches([a + "\n" + b + "\n" + c]) != []
  {
    var s := a + "\n" + b + "\n" + c;
    ThreeLinesUnindented(a, b, c);
    ThreeLinesCounted(a, b, c);
    assert CountedLine([s], 0, 1) || CountedLine([s], 0, 2);
    HasMatchesIff([s]);
  }

  /** The strip width of a three-line fragment is the shorter of the runs its last two lines have. */
  lemma ThreeLinesWidth(a: string, b: string, c: string)
    requires '\n' !in a && '\n' !in b && '\n' !in c
    requires AllMatches([a + "\n" + b + "\n" + c]) != []
    ensures UnitRun(b) > 0 ==> StripWidth([a + "\n" + b + "\n" + c]) <= UnitRun(b)
    ensures UnitRun(c) > 0 ==> StripWidth([a + "\n" + b + "\n" + c]) <= UnitRun(c)
    ensures StripWidth([a + "\n" + b + "\n" + c]) == UnitRun(b) || StripWidth([a + "\n" + b + "\n" + c]) == UnitRun(c)
  {
    var s := a + "\n" + b + "\n" + c;
    ThreeLines(a, b, c);
    ThreeLinesCounted(a, b, c);
    StripWidthIsShortestRun([s]);
    var size := StripWidth([s]);
    var i, j :| CountedLine([s], i, j) && size == UnitRun(Lines([s][i])[j]);
    assert i == 0 && (j == 1 || j == 2);
    assert [s][i] == s;
    if j == 1 {
      assert Lines(s)[j] == b;
    } else {
      assert Lines(s)[j] == c;
    }
    if UnitRun(b) > 0 {
      assert CountedLine([s], 0, 1);
      assert Lines([s][0])[1] == b;
    }
    if UnitRun(c) > 0 {
      assert CountedLine([s], 0, 2);
      assert Lines([s][0])[2] == c;
    }
  }

  /** A dedentable plain string of three lines: the last two are stripped, then the whole is trimmed. */
  lemma ThreeLinesDedent(a: string, b: string, c: string)
    requires '\n' !in a && '\n' !in b && '\n' !in c
    requires !AnyUnindented([a + "\n" + b + "\n" + c]) && AllMatches([a + "\n" + b + "\n" + c]) != []
    ensures var w := StripWidth([a + "\n" + b + "\n" + c]);
      DedentOf([a + "\n" + b + "\n" + c], []) == Trim(a + "\n" + StripLine(b, w) + "\n" + StripLine(c, w))
  {
    var s := a + "\n" + b + "\n" + c;
    var w := StripWidth([s]);
    StripThreeLines(a, b, c, w);
    assert StripAll([s], w) == [Strip(s, w)];
    JoinedOne(Strip(s, w));
  }

  /** Two spaces make one unit. */
  lemma TwoSpaces(t: string)
    requires |t| >= 2 && t[0] == ' ' && t[1] == ' '
    ensures StartsWithSpaces(t) && UnitAt(t) == 2
  {
  }

  /** Neither a tab nor two spaces: no unit. */
  lemma NoUnit(t: string)
    requires t != [] && t[0] != '\t' && (|t| < 2 || t[0] != ' ' || t[1] != ' ')
    ensures UnitAt(t) == 0
  {
    if |t| >= 2 && t[0] == ' ' {
      assert t[1] != ' ';
    }
  }

  /** Runs of 3 and 4 spaces: the width is 2, so one space and two spaces remain. */
  lemma FirstPass()
    ensures DedentOf(["a\n   x\n    y"], []) == "a\n x\n  y"
  {
    var a, b, c := "a", "   x", "    y";
    FirstPassLines();
    ThreeLinesDedentable(a, b, c);
    ThreeLinesWidth(a, b, c);
    ThreeLinesDedent(a, b, c);
    FirstPassText();
  }

  /** The first input, line by line. */
  lemma FirstPassLines()
    ensures "a\n   x\n    y" == "a" + "\n" + "   x" + "\n" + "    y"
    ensures UnitRun("   x") == 2 && UnitRun("    y") == 4
    ensures StripLine("   x", 2) == " x" && StripLine("    y", 2) == "  y"
  {
    FirstPassSplit();
    ThreeSpaceRun();
    FourSpaceRun();
    assert StripLine("   x", 2) == " x";
  }

  lemma FirstPassSplit()
    ensures "a\n   x\n    y" == "a" + "\n" + "   x" + "\n" + "    y"
  {
    assert "a" + "\n" == "a\n";
    assert "a\n" + "   x" == "a\n   x";
    assert "a\n   x" + "\n" == "a\n   x\n";
  }

  lemma ThreeSpaceRun()
    ensures UnitRun("   x") == 2
  {
    TwoSpaces("   x");
    assert "   x"[2..] == " x";
    NoUnit(" x");
    assert UnitRun(" x") == 0;
  }

  lemma FourSpaceRun()
    ensures UnitRun("    y") == 4
  {
    TwoSpaces("    y");
    TwoSpaces("  y");
    assert "    y"[2..] == "  y";
    assert "  y"[2..] == "y";
    NoUnit("y");
    assert UnitRun("y") == 0;
  }

  /** Trim leaves a text without outer whitespace as it is. */
  lemma TrimUnpadded(m: string)
    requires NoOuterWhitespace(m)
    ensures Trim(m) == m
  {
    TrimOfPadded("", m, "");
    assert "" + m + "" == m;
  }

  lemma FirstPassText()
    ensures Trim("a" + "\n" + " x" + "\n" + "  y") == "a\n x\n  y"
  {
    var out := "a\n x\n  y";
    assert "a" + "\n" + " x" + "\n" + "  y" == out;
    TrimUnpadded(out);
  }

  /** The one-space line is neither counted nor stripped; the two-space line loses both spaces. */
  lemma SecondPass()
    ensures DedentOf(["a\n x\n  y"], []) == "a\n x\ny"
  {
    var a, b, c := "a", " x", "  y";
    SecondPassLines();
    ThreeLinesDedentable(a, b, c);
    ThreeLinesWidth(a, b, c);
    ThreeLinesDedent(a, b, c);
    SecondPassText();
  }

  /** The second input, line by line. */
  lemma SecondPassLines()
    ensures "a\n x\n  y" == "a" + "\n" + " x" + "\n" + "  y"
    ensures UnitRun(" x") == 0 && UnitRun("  y") == 2
    ensures StripLine(" x", 2) == " x" && StripLine("  y", 2) == "y"
  {
    assert "a\n x\n  y" == "a" + "\n" + " x" + "\n" + "  y" by {
      assert "a" + "\n" == "a\n";
      assert "a\n" + " x" == "a\n x";
      assert "a\n x" + "\n" == "a\n x\n";
      assert "a\n x\n" + "  y" == "a\n x\n  y";
    }
    assert UnitRun(" x") == 0 by {
      NoUnit(" x");
    }
    assert UnitRun("  y") == 2 by {
      TwoSpaces("  y");
      assert "  y"[2..] == "y";
      NoUnit("y");
      assert UnitRun("y") == 0;
    }
    assert !IndentedBy(" x", 2) by {
      assert !IsIndentChar(" x"[1]);
    }
    assert StripLine("  y", 2) == "y";
  }

  lemma SecondPassText()
    ensures Trim("a" + "\n" + " x" + "\n" + "y") == "a\n x\ny"
  {
    var out := "a\n x\ny";
    assert "a" + "\n" + " x" + "\n" + "y" == out;
    TrimUnpadded(out);
  }

  /** Dedenting twice can strip more than dedenting once: `dedent` is not idempotent. */
  lemma DedentIsNotIdempotent()
    ensures DedentOf([DedentOf(["a\n   x\n    y"], [])], []) != DedentOf(["a\n   x\n    y"], [])
  {
    FirstPass();
    SecondPass();
    assert "a\n x\ny" != "a\n x\n  y" by {
      assert |"a\n x\ny"| == 6;
    }
  }
}
