/**
 * The file's comment list as `process` rebuilds it (main.go:80-85,
 * 100-110): a sentinel group at position -1, the parsed groups that are
 * not stale `@name ` annotations, the synthesized annotations, a sort by
 * (Pos, End), and the sentinel dropped from the front.
 */
module Comments {
  import opened Strings

  /**
   * A comment group: where it starts (`Pos()`), where it ends (`End()`) and
   * its raw source text, comment markers included.
   */
  datatype CommentGroup = CommentGroup(pos: int, end: int, raw: string)

  /** The seed of main.go:80: a single comment "//" whose slash sits at -1, so it ends at 1. */
  const Sentinel := CommentGroup(-1, 1, "//")

  const NameMarker := "@name "

  /**
   * `CommentGroup.Text()`: the text with its comment markers removed; a "//"
   * comment also loses one space after the slashes.
   */
  function Text(g: CommentGroup): string
  {
    var c := g.raw;
    if HasPrefix(c, "//") then
      var body := c[2..];
      if body != [] && body[0] == ' ' then body[1..] else body
    else if |c| >= 4 && HasPrefix(c, "/*") && c[|c| - 2..] == "*/" then
      c[2..|c| - 2]
    else
      c
  }

  /** A group left by an earlier run: its text starts with "@name " (main.go:82). */
  predicate IsStale(g: CommentGroup)
  {
    HasPrefix(Text(g), NameMarker)
  }

  /** The group main.go:149-150 creates: one comment "//@name <name>" whose slash is at `at`. */
  function Annotation(at: int, name: string): (g: CommentGroup)
  {
    var text := "//" + NameMarker + name;
    CommentGroup(at, at + |text|, text)
  }

  /** The parsed groups the loop of main.go:81-85 keeps, in the order it meets them. */
  function Kept(groups: seq<CommentGroup>): seq<CommentGroup>
  {
    if groups == [] then []
    else
      var last := groups[|groups| - 1];
      Kept(groups[..|groups| - 1]) + (if IsStale(last) then [] else [last])
  }

  // ---------------------------------------------------------------------
  // What the filter keeps

  /** A group survives exactly when it was parsed and is not a stale annotation. */
  lemma {:induction false} KeptMembers(groups: seq<CommentGroup>)
    ensures forall g :: g in Kept(groups) <==> g in groups && !IsStale(g)
  {
    if groups != [] {
      var init := groups[..|groups| - 1];
      KeptMembers(init);
      assert groups == init + [groups[|groups| - 1]];
    }
  }

  /** The filter works piece by piece, so the survivors keep their original order. */
  lemma {:induction false} KeptAppend(a: seq<CommentGroup>, b: seq<CommentGroup>)
    ensures Kept(a + b) == Kept(a) + Kept(b)
    decreases |b|
  {
    if b == [] {
      assert a + b == a;
    } else {
      var init := b[..|b| - 1];
      assert (a + b)[..|a + b| - 1] == a + init;
      KeptAppend(a, init);
    }
  }

  /** Every synthesized annotation reads as stale to the filter of main.go:82. */
  lemma AnnotationIsStale(at: int, name: string)
    ensures IsStale(Annotation(at, name))
    ensures Annotation(at, name).pos == at
  {
    var g := Annotation(at, name);
    assert g.raw[2..] == NameMarker + name;
    assert Text(g) == NameMarker + name;
  }

  /** An annotation written by hand with a space after the slashes is stale too. */
  lemma SpacedAnnotationIsStale(at: int, end: int, name: string)
    ensures IsStale(CommentGroup(at, end, "// " + NameMarker + name))
  {
    var raw := "// " + NameMarker + name;
    assert raw[2..] == " " + NameMarker + name;
    assert Text(CommentGroup(at, end, raw)) == NameMarker + name;
  }

  /** Filtering a list made only of annotations leaves nothing. */
  lemma {:induction false} KeptOfStale(gs: seq<CommentGroup>)
    requires forall g <- gs :: IsStale(g)
    ensures Kept(gs) == []
  {
    if gs != [] {
      KeptOfStale(gs[..|gs| - 1]);
    }
  }

  /** A second filter removes nothing the first one kept. */
  lemma {:induction false} KeptTwice(gs: seq<CommentGroup>)
    ensures Kept(Kept(gs)) == Kept(gs)
  {
    if gs != [] {
      var init := gs[..|gs| - 1];
      var last := gs[|gs| - 1];
      KeptTwice(init);
      KeptAppend(Kept(init), if IsStale(last) then [] else [last]);
      if !IsStale(last) {
        assert Kept([last]) == Kept([]) + [last];
      }
    }
  }

  /**
   * The re-run story: if the comments of a file are the kept groups of an
   * earlier run together with that run's annotations, filtering them again
   * gives back exactly the kept groups, so no annotation is ever duplicated.
   */
  lemma RerunDropsAnnotations(parsed: seq<CommentGroup>, added: seq<CommentGroup>)
    requires forall g <- added :: IsStale(g)
    ensures Kept(Kept(parsed) + added) == Kept(parsed)
  {
    KeptAppend(Kept(parsed), added);
    KeptTwice(parsed);
    KeptOfStale(added);
    assert Kept(parsed) + [] == Kept(parsed);
  }

  /** How often the filter keeps a group: never if it is stale, otherwise as often as it was parsed. */
  lemma {:induction false} KeptCounts(gs: seq<CommentGroup>, g: CommentGroup)
    ensures multiset(Kept(gs))[g] == if IsStale(g) then 0 else multiset(gs)[g]
  {
    if gs != [] {
      var init := gs[..|gs| - 1];
      var last := gs[|gs| - 1];
      KeptCounts(init, g);
      assert gs == init + [last];
      assert multiset(gs) == multiset(init) + multiset{last};
      var tail := if IsStale(last) then [] else [last];
      assert Kept(gs) == Kept(init) + tail;
      assert multiset(Kept(gs)) == multiset(Kept(init)) + multiset(tail);
    }
  }

  /**
   * The re-run story for the rewritten list itself: whatever order the
   * kept groups and the new annotations end up in, filtering them again
   * gives back the kept groups, each as often as before.
   */
  lemma RerunDropsAnnotationsInAnyOrder(parsed: seq<CommentGroup>, added: seq<CommentGroup>,
                                        rewritten: seq<CommentGroup>)
    requires forall g <- added :: IsStale(g)
    requires multiset(rewritten) == multiset(Kept(parsed) + added)
    ensures multiset(Kept(rewritten)) == multiset(Kept(parsed))
  {
    forall g ensures multiset(Kept(rewritten))[g] == multiset(Kept(parsed))[g] {
      KeptCounts(rewritten, g);
      KeptCounts(parsed, g);
      KeptMembers(parsed);
      if !IsStale(g) {
        assert g !in added;
        assert multiset(Kept(parsed) + added) == multiset(Kept(parsed)) + multiset(added);
      }
    }
  }

  // ---------------------------------------------------------------------
  // Sorting by (Pos, End), main.go:100-105

  /** The comparator of main.go:100-105 answers "not greater": by Pos, then by End. */
  predicate NotAfter(a: CommentGroup, b: CommentGroup)
  {
    a.pos < b.pos || (a.pos == b.pos && a.end <= b.end)
  }

  ghost predicate Sorted(s: seq<CommentGroup>)
  {
    forall i, j :: 0 <= i < j < |s| ==> NotAfter(s[i], s[j])
  }

  function Insert(g: CommentGroup, s: seq<CommentGroup>): (r: seq<CommentGroup>)
    requires Sorted(s)
    ensures Sorted(r)
    ensures multiset(r) == multiset(s) + multiset{g}
  {
    if s == [] then [g]
    else if NotAfter(g, s[0]) then [g] + s
    else
      var tail := Insert(g, s[1..]);
      assert s == [s[0]] + s[1..];
      assert forall x <- tail :: NotAfter(s[0], x) by {
        forall x <- tail ensures NotAfter(s[0], x) {
          assert x in multiset(tail);
          if x != g {
            assert x in s[1..];
          }
        }
      }
      [s[0]] + tail
  }

  /** A sort of the list: ordered by the comparator and holding the same groups as often. */
  function SortByPosEnd(s: seq<CommentGroup>): (r: seq<CommentGroup>)
    ensures Sorted(r)
    ensures multiset(r) == multiset(s)
  {
    if s == [] then []
    else
      assert s == [s[0]] + s[1..];
      Insert(s[0], SortByPosEnd(s[1..]))
  }

  lemma SortedTail(s: seq<CommentGroup>)
    requires Sorted(s) && s != []
    ensures Sorted(s[1..])
  {
    forall i, j | 0 <= i < j < |s[1..]| ensures NotAfter(s[1..][i], s[1..][j]) {
      assert s[1..][i] == s[i + 1] && s[1..][j] == s[j + 1];
    }
  }

  /**
   * With every other group at a real position (>= 0), the sentinel is the
   * only group at -1 and sorts to the front, so main.go:107-109 drops it and
   * nothing else.
   */
  lemma SentinelSortsFirst(s: seq<CommentGroup>, rest: seq<CommentGroup>)
    requires Sorted(s)
    requires multiset(s) == multiset([Sentinel] + rest)
    requires forall g <- rest :: g.pos >= 0
    ensures |s| == |rest| + 1
    ensures s[0] == Sentinel
    ensures multiset(s[1..]) == multiset(rest)
    ensures forall g <- s[1..] :: g.pos >= 0
  {
    var whole := [Sentinel] + rest;
    assert multiset(whole) == multiset{Sentinel} + multiset(rest);
    assert |s| == |multiset(s)| == |whole|;
    assert Sentinel in multiset(s);
    var k :| 0 <= k < |s| && s[k] == Sentinel;
    assert s[0] in multiset(whole);
    if s[0] != Sentinel {
      assert false;
    }
    assert s == [s[0]] + s[1..];
    assert multiset(s) == multiset{Sentinel} + multiset(s[1..]);
    assert multiset(s[1..]) == multiset(s) - multiset{Sentinel};
    assert multiset(rest) == multiset(whole) - multiset{Sentinel};
    forall g <- s[1..] ensures g.pos >= 0 {
      assert g in multiset(s[1..]);
      assert g in rest;
    }
  }
}
