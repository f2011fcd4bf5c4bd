/**
 * The two textual clean-ups `process` applies to the formatter's output
 * (main.go:117-119): first `(?m)[\t ]+$` is replaced by the empty string,
 * then `(?m)\n{3,}` is replaced by "\n\n".
 *
 * Both replacements are written as right folds over the text: the decision
 * for the first character is taken once the rest of the text has been
 * rewritten. The lemmas below tie each fold to the regular expression it
 * stands for (per-line trimming, per-run collapsing) and prove the
 * promised shape of the output.
 */
module PostProcess {

  predicate IsBlank(c: char) { c == ' ' || c == '\t' }

  /** `(?m)[\t ]+$` replaced by "": a space or tab goes when its run of blanks reaches a newline or the end. */
  function StripTrailingBlanks(s: string): (r: string)
    ensures |r| <= |s|
  {
    if s == [] then []
    else
      var rest := StripTrailingBlanks(s[1..]);
      if IsBlank(s[0]) && (rest == [] || rest[0] == '\n') then rest else [s[0]] + rest
  }

  /** `(?m)\n{3,}` replaced by "\n\n": a newline goes when two newlines already follow it. */
  function CollapseNewlines(s: string): (r: string)
    ensures |r| <= |s|
  {
    if s == [] then [] else CollapseStep(s[0], CollapseNewlines(s[1..]))
  }

  /** The decision for one character `c` in front of the already collapsed `rest`. */
  function CollapseStep(c: char, rest: string): string
  {
    if c == '\n' && |rest| >= 2 && rest[0] == '\n' && rest[1] == '\n' then rest else [c] + rest
  }

  /** Both replacements, in the order main.go:118-119 applies them. */
  function Clean(s: string): string
  {
    CollapseNewlines(StripTrailingBlanks(s))
  }

  // ---------------------------------------------------------------------
  // Shapes of text

  /** No space or tab directly before a newline or at the end of the text. */
  ghost predicate NoTrailingBlank(s: string)
  {
    forall i :: 0 <= i < |s| && IsBlank(s[i]) ==> i + 1 < |s| && s[i + 1] != '\n'
  }

  /** No three consecutive newlines. */
  ghost predicate NoTripleNewline(s: string)
  {
    forall i :: 0 <= i && i + 2 < |s| ==> !(s[i] == '\n' && s[i + 1] == '\n' && s[i + 2] == '\n')
  }

  /** The characters of `s` that are not spaces or tabs, in order. */
  function NonBlanks(s: string): string
  {
    if s == [] then [] else (if IsBlank(s[0]) then [] else [s[0]]) + NonBlanks(s[1..])
  }

  /** The characters of `s` that are not newlines, in order. */
  function NonNewlines(s: string): string
  {
    if s == [] then [] else (if s[0] == '\n' then [] else [s[0]]) + NonNewlines(s[1..])
  }

  /** `n` newlines. */
  function Newlines(n: nat): string
  {
    if n == 0 then [] else ['\n'] + Newlines(n - 1)
  }

  /** One line with its trailing spaces and tabs removed, trimmed from the right end. */
  function TrimRight(line: string): string
  {
    if line != [] && IsBlank(line[|line| - 1]) then TrimRight(line[..|line| - 1]) else line
  }

  // ---------------------------------------------------------------------
  // Trailing blanks

  lemma {:induction false} StripLeavesNoTrailingBlank(s: string)
    ensures NoTrailingBlank(StripTrailingBlanks(s))
  {
    if s != [] {
      StripLeavesNoTrailingBlank(s[1..]);
    }
  }

  /** Only spaces and tabs are removed: every other character keeps its place in the order. */
  lemma {:induction false} StripKeepsNonBlanks(s: string)
    ensures NonBlanks(StripTrailingBlanks(s)) == NonBlanks(s)
  {
    if s != [] {
      StripKeepsNonBlanks(s[1..]);
      var rest := StripTrailingBlanks(s[1..]);
      if !(IsBlank(s[0]) && (rest == [] || rest[0] == '\n')) {
        assert ([s[0]] + rest)[1..] == rest;
      }
    }
  }

  /** Text that already has no trailing blanks is left as it is. */
  lemma {:induction false} StripFixesCleanText(s: string)
    requires NoTrailingBlank(s)
    ensures StripTrailingBlanks(s) == s
  {
    if s != [] {
      assert NoTrailingBlank(s[1..]) by {
        forall i | 0 <= i < |s[1..]| && IsBlank(s[1..][i])
          ensures i + 1 < |s[1..]| && s[1..][i + 1] != '\n'
        {
          assert s[i + 1] == s[1..][i];
        }
      }
      StripFixesCleanText(s[1..]);
      assert [s[0]] + s[1..] == s;
    }
  }

  lemma StripTwice(s: string)
    ensures StripTrailingBlanks(StripTrailingBlanks(s)) == StripTrailingBlanks(s)
  {
    StripLeavesNoTrailingBlank(s);
    StripFixesCleanText(StripTrailingBlanks(s));
  }

  /** The stripped text keeps every character that is not a space or tab where the text begins with one. */
  lemma StripKeepsFirstNonBlank(s: string)
    requires s != [] && !IsBlank(s[0])
    ensures StripTrailingBlanks(s) != [] && StripTrailingBlanks(s)[0] == s[0]
  {
  }

  /**
   * The multi-line mode of the expression: a newline splits the text into
   * lines that are stripped independently.
   */
  lemma {:induction false} StripSplitsAtNewline(x: string, y: string)
    requires y == [] || y[0] == '\n'
    ensures StripTrailingBlanks(x + y) == StripTrailingBlanks(x) + StripTrailingBlanks(y)
  {
    if x == [] {
      assert x + y == y;
    } else {
      assert (x + y)[1..] == x[1..] + y;
      StripSplitsAtNewline(x[1..], y);
      if y != [] {
        StripKeepsFirstNonBlank(y);
      }
    }
  }

  lemma {:induction false} TrimRightCons(c: char, line: string)
    ensures TrimRight([c] + line) ==
      if TrimRight(line) == [] then (if IsBlank(c) then [] else [c]) else [c] + TrimRight(line)
    decreases |line|
  {
    if line != [] && IsBlank(line[|line| - 1]) {
      var init := line[..|line| - 1];
      assert ([c] + line)[..|[c] + line| - 1] == [c] + init;
      TrimRightCons(c, init);
    } else if line == [] {
    } else {
      assert ([c] + line)[|[c] + line| - 1] == line[|line| - 1];
    }
  }

  lemma {:induction false} TrimRightIsPrefix(line: string)
    ensures |TrimRight(line)| <= |line| && TrimRight(line) == line[..|TrimRight(line)|]
    decreases |line|
  {
    if line != [] && IsBlank(line[|line| - 1]) {
      TrimRightIsPrefix(line[..|line| - 1]);
    }
  }

  /** Within one line, the replacement removes exactly the blanks at the line's end. */
  lemma {:induction false} StripLineIsTrimRight(line: string)
    requires '\n' !in line
    ensures StripTrailingBlanks(line) == TrimRight(line)
  {
    if line != [] {
      var tail := line[1..];
      assert line == [line[0]] + tail;
      StripLineIsTrimRight(tail);
      TrimRightCons(line[0], tail);
      TrimRightIsPrefix(tail);
      if TrimRight(tail) != [] {
        assert TrimRight(tail)[0] == tail[0];
        assert tail[0] in line;
      }
    }
  }

  // ---------------------------------------------------------------------
  // Newline runs

  lemma {:induction false} CollapseLeavesNoTripleNewline(s: string)
    ensures NoTripleNewline(CollapseNewlines(s))
  {
    if s != [] {
      CollapseLeavesNoTripleNewline(s[1..]);
    }
  }

  /** Only newlines are removed: every other character keeps its place in the order. */
  lemma {:induction false} CollapseKeepsNonNewlines(s: string)
    ensures NonNewlines(CollapseNewlines(s)) == NonNewlines(s)
  {
    if s != [] {
      CollapseKeepsNonNewlines(s[1..]);
      var rest := CollapseNewlines(s[1..]);
      if !(s[0] == '\n' && |rest| >= 2 && rest[0] == '\n' && rest[1] == '\n') {
        assert ([s[0]] + rest)[1..] == rest;
      }
    }
  }

  /** Text with no run of three newlines is left as it is. */
  lemma {:induction false} CollapseFixesCleanText(s: string)
    requires NoTripleNewline(s)
    ensures CollapseNewlines(s) == s
  {
    if s != [] {
      assert NoTripleNewline(s[1..]) by {
        forall i | 0 <= i && i + 2 < |s[1..]|
          ensures !(s[1..][i] == '\n' && s[1..][i + 1] == '\n' && s[1..][i + 2] == '\n')
        {
          assert s[1..][i] == s[i + 1] && s[1..][i + 1] == s[i + 2] && s[1..][i + 2] == s[i + 3];
        }
      }
      CollapseFixesCleanText(s[1..]);
      assert [s[0]] + s[1..] == s;
      if s[0] == '\n' && |s| >= 3 {
        assert !(s[0] == '\n' && s[1] == '\n' && s[2] == '\n');
      }
    }
  }

  lemma CollapseTwice(s: string)
    ensures CollapseNewlines(CollapseNewlines(s)) == CollapseNewlines(s)
  {
    CollapseLeavesNoTripleNewline(s);
    CollapseFixesCleanText(CollapseNewlines(s));
  }

  /** A character other than a newline is always kept, so it still heads the collapsed text. */
  lemma CollapseKeepsFirstNonNewline(s: string)
    requires s != [] && s[0] != '\n'
    ensures CollapseNewlines(s) != [] && CollapseNewlines(s)[0] == s[0]
  {
  }

  /** The collapsed text starts with a newline only if the text did. */
  lemma CollapseHead(t: string)
    requires t == [] || t[0] != '\n'
    ensures CollapseNewlines(t) == [] || CollapseNewlines(t)[0] != '\n'
  {
    if t != [] {
      CollapseKeepsFirstNonNewline(t);
    }
  }

  lemma CollapseCons(c: char, s: string)
    ensures CollapseNewlines([c] + s) == CollapseStep(c, CollapseNewlines(s))
  {
    assert ([c] + s)[1..] == s;
  }

  /** One more newline in front of a collapsed run of min(n - 1, 2) newlines. */
  lemma StepOnRun(n: nat, ct: string)
    requires n >= 1
    requires ct == [] || ct[0] != '\n'
    ensures CollapseStep('\n', Newlines(if n - 1 < 2 then n - 1 else 2) + ct) == Newlines(if n < 2 then n else 2) + ct
  {
    assert Newlines(1) == ['\n'];
    assert Newlines(2) == ['\n', '\n'];
    if n == 2 && ct != [] {
      assert (['\n'] + ct)[1] == ct[0];
    }
  }

  /** A run of `n` newlines ended by another character or the end of text becomes min(n, 2) newlines. */
  lemma {:induction false} CollapseRun(n: nat, t: string)
    requires t == [] || t[0] != '\n'
    ensures CollapseNewlines(Newlines(n) + t) == Newlines(if n < 2 then n else 2) + CollapseNewlines(t)
  {
    if n == 0 {
      assert Newlines(0) + t == t;
    } else {
      var u := Newlines(n - 1) + t;
      assert Newlines(n) + t == ['\n'] + u;
      CollapseCons('\n', u);
      CollapseRun(n - 1, t);
      CollapseHead(t);
      StepOnRun(n, CollapseNewlines(t));
    }
  }

  /** Text that does not start with a newline can be appended after the step's decision. */
  lemma StepAppend(c: char, cx: string, cy: string)
    requires cy == [] || cy[0] != '\n'
    ensures CollapseStep(c, cx + cy) == CollapseStep(c, cx) + cy
  {
    if |cx| == 1 && cy != [] {
      assert (cx + cy)[1] == cy[0];
    }
    if |cx| >= 2 {
      assert (cx + cy)[0] == cx[0] && (cx + cy)[1] == cx[1];
    }
    if cx == [] {
      assert cx + cy == cy;
    }
  }

  /** Collapsing is local to each run: text splits before any character that is not a newline. */
  lemma {:induction false} CollapseSplitsBeforeNonNewline(x: string, y: string)
    requires y == [] || y[0] != '\n'
    ensures CollapseNewlines(x + y) == CollapseNewlines(x) + CollapseNewlines(y)
  {
    if x == [] {
      assert x + y == y;
    } else {
      var c, x' := x[0], x[1..];
      assert x == [c] + x';
      assert x + y == [c] + (x' + y);
      CollapseCons(c, x' + y);
      CollapseCons(c, x');
      CollapseSplitsBeforeNonNewline(x', y);
      CollapseHead(y);
      StepAppend(c, CollapseNewlines(x'), CollapseNewlines(y));
    }
  }

  // ---------------------------------------------------------------------
  // Both replacements together

  lemma {:induction false} CollapseKeepsNoTrailingBlank(s: string)
    requires NoTrailingBlank(s)
    ensures NoTrailingBlank(CollapseNewlines(s))
  {
    if s != [] {
      assert NoTrailingBlank(s[1..]) by {
        forall i | 0 <= i < |s[1..]| && IsBlank(s[1..][i])
          ensures i + 1 < |s[1..]| && s[1..][i + 1] != '\n'
        {
          assert s[i + 1] == s[1..][i];
        }
      }
      CollapseKeepsNoTrailingBlank(s[1..]);
      if IsBlank(s[0]) {
        CollapseKeepsFirstNonNewline(s[1..]);
      }
    }
  }

  lemma {:induction false} FiltersCommute(s: string)
    ensures NonBlanks(NonNewlines(s)) == NonNewlines(NonBlanks(s))
  {
    if s != [] {
      FiltersCommute(s[1..]);
      var h := if s[0] == '\n' then [] else [s[0]];
      assert NonNewlines(s) == h + NonNewlines(s[1..]);
      NonBlanksAppend(h, NonNewlines(s[1..]));
      var g := if IsBlank(s[0]) then [] else [s[0]];
      NonNewlinesAppend(g, NonBlanks(s[1..]));
    }
  }

  lemma {:induction false} NonBlanksAppend(a: string, b: string)
    ensures NonBlanks(a + b) == NonBlanks(a) + NonBlanks(b)
  {
    if a != [] {
      assert (a + b)[1..] == a[1..] + b;
      NonBlanksAppend(a[1..], b);
    } else {
      assert a + b == b;
    }
  }

  lemma {:induction false} NonNewlinesAppend(a: string, b: string)
    ensures NonNewlines(a + b) == NonNewlines(a) + NonNewlines(b)
  {
    if a != [] {
      assert (a + b)[1..] == a[1..] + b;
      NonNewlinesAppend(a[1..], b);
    } else {
      assert a + b == b;
    }
  }

  /**
   * The promised output shape (main.go:117-119): no trailing blank on any
   * line, no run of three newlines, and every character other than spaces,
   * tabs and newlines still present in its original order.
   */
  lemma CleanShape(s: string)
    ensures NoTrailingBlank(Clean(s))
    ensures NoTripleNewline(Clean(s))
    ensures NonBlanks(NonNewlines(Clean(s))) == NonBlanks(NonNewlines(s))
  {
    var t := StripTrailingBlanks(s);
    StripLeavesNoTrailingBlank(s);
    CollapseKeepsNoTrailingBlank(t);
    CollapseLeavesNoTripleNewline(t);
    CollapseKeepsNonNewlines(t);
    StripKeepsNonBlanks(s);
    FiltersCommute(t);
    FiltersCommute(s);
  }

  /** Applying both replacements again changes nothing. */
  lemma CleanTwice(s: string)
    ensures Clean(Clean(s)) == Clean(s)
  {
    var c := Clean(s);
    CleanShape(s);
    StripFixesCleanText(c);
    CollapseFixesCleanText(c);
  }
}
