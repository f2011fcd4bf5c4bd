// Which command-line arguments `main` hands on (main.go:42-47): a path is
// handled when it ends in ".go" and the skip expression
//   (^\.+)[^/]*|(_test\.go$)|(^.*/vender/.*$)
// finds no match in it.
//
// The expression is searched for anywhere in the path (an unanchored
// match). Without the multi-line flag `^` and `$` only match at the start
// and the end of the whole path, and `.` matches any character except a
// newline.
module PathFilter {
  import opened Strings

  const GoSuffix := ".go"
  const TestSuffix := "_test.go"
  const VenderDir := "/vender/"

  predicate ContainsAt(s: string, p: string, k: int)
  {
    0 <= k && k + |p| <= |s| && s[k..k + |p|] == p
  }

  predicate Contains(s: string, p: string)
  {
    exists k :: 0 <= k <= |s| - |p| && ContainsAt(s, p, k)
  }

  // ---------------------------------------------------------------------
  // The skip expression as the regular-expression engine reads it

  /** `(^\.+)[^/]*` matches `path[i..j]`: at the start, one or more dots, then anything but '/'. */
  ghost predicate DotsAlternative(path: string, i: int, j: int)
    requires 0 <= i <= j <= |path|
  {
    i == 0 && exists m :: DotsThenNoSlash(path, m, j)
  }

  /** `path[..m]` is one or more dots and `path[m..j]` holds no '/'. */
  ghost predicate DotsThenNoSlash(path: string, m: int, j: int)
    requires j <= |path|
  {
    1 <= m <= j &&
    (forall t :: 0 <= t < m ==> path[t] == '.') &&
    (forall t :: m <= t < j ==> path[t] != '/')
  }

  /** `(_test\.go$)` matches `path[i..j]`. */
  ghost predicate TestAlternative(path: string, i: int, j: int)
    requires 0 <= i <= j <= |path|
  {
    j == |path| && path[i..j] == TestSuffix
  }

  /** The third alternative matches `path[i..j]`: the whole path, with no newline, around "/vender/". */
  ghost predicate VenderAlternative(path: string, i: int, j: int)
    requires 0 <= i <= j <= |path|
  {
    i == 0 && j == |path| && Contains(path, VenderDir) &&
    forall t :: 0 <= t < |path| ==> path[t] != '\n'
  }

  /** Some stretch of the path matches one of the three alternatives. */
  ghost predicate SkipExpressionMatches(path: string)
  {
    exists i, j :: 0 <= i <= j <= |path| &&
      (DotsAlternative(path, i, j) || TestAlternative(path, i, j) || VenderAlternative(path, i, j))
  }

  // ---------------------------------------------------------------------
  // The same test in plain terms

  /** What the skip expression amounts to: a leading dot, a test-file suffix, or "/vender/" in a one-line path. */
  predicate Skipped(path: string)
  {
    HasPrefix(path, ".") ||
    HasSuffix(path, TestSuffix) ||
    (Contains(path, VenderDir) && '\n' !in path)
  }

  /** The condition of main.go:45 under which an argument is handled rather than skipped. */
  predicate Handled(path: string)
  {
    HasSuffix(path, GoSuffix) && !Skipped(path)
  }

  /** The plain reading agrees with the regular expression, in both directions. */
  lemma SkippedIffExpressionMatches(path: string)
    ensures Skipped(path) <==> SkipExpressionMatches(path)
  {
    if HasPrefix(path, ".") {
      assert DotsThenNoSlash(path, 1, 1);
      assert DotsAlternative(path, 0, 1);
    }
    if HasSuffix(path, TestSuffix) {
      var i := |path| - |TestSuffix|;
      assert TestAlternative(path, i, |path|);
    }
    if Contains(path, VenderDir) && '\n' !in path {
      assert VenderAlternative(path, 0, |path|) by {
        forall t | 0 <= t < |path| ensures path[t] != '\n' {
          assert path[t] in path;
        }
      }
    }
    if SkipExpressionMatches(path) {
      var i, j :| 0 <= i <= j <= |path| &&
        (DotsAlternative(path, i, j) || TestAlternative(path, i, j) || VenderAlternative(path, i, j));
      if DotsAlternative(path, i, j) {
        assert path[0] == '.';
        assert HasPrefix(path, ".");
      } else if TestAlternative(path, i, j) {
        assert path[|path| - |TestSuffix|..] == path[i..j];
      } else {
        assert VenderAlternative(path, i, j);
      }
    }
  }

  /**
   * The argument loop of main.go:43-47 without its file-system work: the
   * arguments it goes on to stat and process, in order.
   */
  method HandledArguments(args: seq<string>) returns (handled: seq<string>)
    ensures handled == HandledOf(args)
    ensures forall p :: p in handled <==> p in args && Handled(p)
    ensures |handled| <= |args|
    ensures HandledAreInOrder(args, handled)
  {
    handled := [];
    ghost var picked: seq<nat> := [];
    for i := 0 to |args|
      invariant |handled| == |picked| <= i
      invariant handled == HandledOf(args[..i])
      invariant forall p :: p in handled <==> p in args[..i] && Handled(p)
      invariant forall k :: 0 <= k < |picked| ==> picked[k] < i && handled[k] == args[picked[k]]
      invariant forall k, l :: 0 <= k < l < |picked| ==> picked[k] < picked[l]
    {
      assert args[..i + 1][..i] == args[..i];
      if !Handled(args[i]) {
        continue;
      }
      handled := handled + [args[i]];
      picked := picked + [i];
    }
    assert args[..|args|] == args;
    assert InOrderBy(args, handled, picked);
  }

  /** Every occurrence of a handled argument, repeats included, in argument order. */
  function HandledOf(args: seq<string>): seq<string>
  {
    if args == [] then []
    else
      var last := args[|args| - 1];
      HandledOf(args[..|args| - 1]) + (if Handled(last) then [last] else [])
  }

  /** `handled` picks elements of `args` at strictly increasing positions. */
  ghost predicate InOrderBy(args: seq<string>, handled: seq<string>, picked: seq<nat>)
  {
    |picked| == |handled| &&
    (forall k :: 0 <= k < |picked| ==> picked[k] < |args| && handled[k] == args[picked[k]]) &&
    (forall k, l :: 0 <= k < l < |picked| ==> picked[k] < picked[l])
  }

  ghost predicate HandledAreInOrder(args: seq<string>, handled: seq<string>)
  {
    exists picked :: InOrderBy(args, handled, picked)
  }

  /** Every occurrence of a handled path is kept, and every occurrence of any other path dropped. */
  lemma {:induction false} HandledOfCounts(args: seq<string>, p: string)
    ensures multiset(HandledOf(args))[p] == if Handled(p) then multiset(args)[p] else 0
  {
    if args != [] {
      var init, last := args[..|args| - 1], args[|args| - 1];
      HandledOfCounts(init, p);
      assert args == init + [last];
      assert multiset(args) == multiset(init) + multiset{last};
      var tail := if Handled(last) then [last] else [];
      assert HandledOf(args) == HandledOf(init) + tail;
      assert multiset(HandledOf(args)) == multiset(HandledOf(init)) + multiset(tail);
    }
  }

  /** Relative paths spelt with "./" are skipped too: the leading dot is all the expression looks at. */
  lemma DotSlashIsSkipped(rest: string)
    ensures !Handled("./" + rest)
  {
    assert ("./" + rest)[..1] == ".";
  }

  /** The skipped directory is spelt "vender"; a path under "/vendor/" is still handled. */
  lemma VendorIsHandled()
    ensures Handled("a/vendor/b.go")
    ensures !Handled("a/vender/b.go")
  {
    assert ContainsAt("a/vender/b.go", VenderDir, 1);
    var p := "a/vendor/b.go";
    assert p[0] != '.' && p[|p| - 8] != TestSuffix[0];
    assert HasSuffix(p, GoSuffix);
    assert !Contains(p, VenderDir) by {
      forall k | 0 <= k <= |p| - |VenderDir| ensures !ContainsAt(p, VenderDir, k) {
        assert p[k] != VenderDir[0] || p[k + 5] != VenderDir[5];
      }
    }
  }
}
