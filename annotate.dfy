/**
 * The rewriting pass of `process` (main.go:73-127) and its helper
 * `applyStructNameTag` (main.go:129-152): functions are recorded by their
 * end position while the syntax tree is visited in pre-order, every type
 * declaration of a struct gets a fresh "//@name <Name>" comment group at
 * the end of its first spec, and the file's comment list is rebuilt around
 * those groups.
 *
 * The parser, the tree walk of `ast.Inspect` and the formatter are not
 * modelled: the parsed comments and the pre-order node sequence are
 * inputs, and `strcase.ToCamel` is the parameter `toCamel`.
 */
module Annotate {
  import opened Strings
  import opened Comments

  datatype Option<T> = None | Some(value: T)

  /** A function declaration: its name, `Pos()` and `End()`. */
  datatype FuncDecl = FuncDecl(name: string, pos: int, end: int)

  /** The keyword of a general declaration. */
  datatype Token = ImportTok | ConstTok | TypeTok | VarTok

  datatype TypeExpr = StructType | OtherType

  /** A spec of a general declaration; only type specs are looked at. */
  datatype Spec = TypeSpec(name: string, typ: TypeExpr, end: int) | OtherSpec

  /** A general declaration; its doc comment is the one field the pass updates. */
  class GenDecl {
    const tok: Token
    const pos: int
    const specs: seq<Spec>
    var doc: Option<CommentGroup>

    constructor (tok: Token, pos: int, specs: seq<Spec>, doc: Option<CommentGroup>)
      ensures this.tok == tok && this.pos == pos && this.specs == specs && this.doc == doc
    {
      this.tok := tok;
      this.pos := pos;
      this.specs := specs;
      this.doc := doc;
    }
  }

  /** The node kinds the callback of main.go:89-98 tells apart. */
  datatype Node = FuncNode(f: FuncDecl) | GenNode(d: GenDecl) | OtherNode

  /** The parsed file; its comment list is replaced at main.go:110. */
  class SourceFile {
    var comments: seq<CommentGroup>

    constructor (comments: seq<CommentGroup>)
      ensures this.comments == comments
    {
      this.comments := comments;
    }
  }

  /**
   * The type assertion of main.go:134 succeeds: a `type` declaration with a
   * spec has a type spec first. The parser always builds it so.
   */
  predicate WellTyped(decl: GenDecl?)
  {
    decl != null && decl.tok == TypeTok && |decl.specs| >= 1 ==> decl.specs[0].TypeSpec?
  }

  /** The guard of main.go:130-137: a non-nil `type` declaration whose first spec declares a struct. */
  predicate Tagged(decl: GenDecl?)
  {
    decl != null && decl.tok == TypeTok && |decl.specs| >= 1 &&
    decl.specs[0].TypeSpec? && decl.specs[0].typ == StructType
  }

  /** The containment test of main.go:142. */
  predicate Encloses(f: FuncDecl, p: int)
  {
    f.pos < p && p < f.end
  }

  function DeclsOf(nodes: seq<Node>): set<GenDecl>
  {
    set n <- nodes | n.GenNode? :: n.d
  }

  // ---------------------------------------------------------------------
  // funcMap, main.go:87 and 91-92

  /** The map the callback has built after visiting `nodes`: each function under its `End()`. */
  function FuncsBefore(nodes: seq<Node>): (m: map<int, FuncDecl>)
    ensures forall e <- m :: m[e].end == e
  {
    if nodes == [] then map[]
    else
      var m := FuncsBefore(nodes[..|nodes| - 1]);
      match nodes[|nodes| - 1]
      case FuncNode(f) => m[f.end := f]
      case _ => m
  }

  /** `nodes[i]` is `f`, and no function visited after it ends where `f` does. */
  ghost predicate LastToEndAt(nodes: seq<Node>, i: int, f: FuncDecl)
  {
    0 <= i < |nodes| && nodes[i] == FuncNode(f) &&
    forall j :: i < j < |nodes| && nodes[j].FuncNode? ==> nodes[j].f.end != f.end
  }

  /**
   * Every function visited is recorded under its end position, nothing else
   * is, and for each end position the entry is the last function visited
   * that ends there.
   */
  lemma {:induction false} FuncsBeforeRecords(nodes: seq<Node>)
    ensures forall e :: e in FuncsBefore(nodes) <==>
      exists i :: 0 <= i < |nodes| && nodes[i].FuncNode? && nodes[i].f.end == e
    ensures forall e <- FuncsBefore(nodes) :: exists i :: LastToEndAt(nodes, i, FuncsBefore(nodes)[e])
  {
    if nodes != [] {
      var init := nodes[..|nodes| - 1];
      var last := |nodes| - 1;
      FuncsBeforeRecords(init);
      assert forall i :: 0 <= i < |init| ==> init[i] == nodes[i];
      var m := FuncsBefore(nodes);
      forall e <- m ensures exists i :: LastToEndAt(nodes, i, m[e]) {
        if nodes[last].FuncNode? && nodes[last].f.end == e {
          assert LastToEndAt(nodes, last, m[e]);
        } else {
          var i :| LastToEndAt(init, i, FuncsBefore(init)[e]);
          assert LastToEndAt(nodes, i, m[e]);
        }
      }
      if nodes[last].FuncNode? {
        assert nodes[last].f.end in m;
      }
    }
  }

  // ---------------------------------------------------------------------
  // The name, main.go:139-147

  /**
   * What the loop of main.go:141-147 may produce: with no recorded function
   * strictly around the declaration, the bare spec name; otherwise the
   * camel-cased "<func>_<name>" of one such function. Go leaves the map's
   * iteration order open, so which one is not fixed.
   */
  ghost predicate NameChoice(name: string, specName: string, declPos: int,
                             funcs: set<FuncDecl>, toCamel: string -> string)
  {
    if exists f <- funcs :: Encloses(f, declPos) then
      exists f <- funcs :: Encloses(f, declPos) && name == toCamel(f.name + "_" + specName)
    else
      name == specName
  }

  /** With exactly one function around the declaration, the name is fixed: "<func>_<name>" camel-cased. */
  lemma NameWithOneEncloser(name: string, specName: string, declPos: int, funcs: set<FuncDecl>,
                            f: FuncDecl, toCamel: string -> string)
    requires f in funcs && Encloses(f, declPos)
    requires forall h <- funcs :: Encloses(h, declPos) ==> h == f
    ensures NameChoice(name, specName, declPos, funcs, toCamel) <==> name == toCamel(f.name + "_" + specName)
  {
  }

  /** The loop of main.go:139-147: visit the recorded functions in any order and stop at the first that encloses. */
  method EnclosedName(specName: string, declPos: int, funcMap: map<int, FuncDecl>,
                      toCamel: string -> string) returns (name: string)
    ensures NameChoice(name, specName, declPos, funcMap.Values, toCamel)
  {
    name := specName;
    var unvisited := funcMap.Values;
    while unvisited != {}
      invariant unvisited <= funcMap.Values
      invariant name == specName
      invariant forall f <- funcMap.Values - unvisited :: !Encloses(f, declPos)
      decreases unvisited
    {
      var f :| f in unvisited;
      if f.pos < declPos && declPos < f.end {
        name := toCamel(f.name + "_" + name);
        return;
      }
      unvisited := unvisited - {f};
    }
  }

  // ---------------------------------------------------------------------
  // applyStructNameTag, main.go:129-152

  /** `g` is a group main.go:149-150 may create for `decl` with the functions `funcMap` recorded. */
  ghost predicate IsAnnotationOf(g: CommentGroup, decl: GenDecl, funcMap: map<int, FuncDecl>,
                                 toCamel: string -> string)
    requires Tagged(decl)
  {
    exists name :: NameChoice(name, decl.specs[0].name, decl.pos, funcMap.Values, toCamel) &&
      g == Annotation(decl.specs[0].end, name)
  }

  /**
   * Outside the guard nothing changes; inside it exactly one group is
   * appended, placed at the end of the first spec, and it becomes the
   * declaration's doc comment.
   */
  method ApplyStructNameTag(decl: GenDecl?, funcMap: map<int, FuncDecl>,
                            comments: seq<CommentGroup>, toCamel: string -> string)
    returns (comments': seq<CommentGroup>)
    requires WellTyped(decl)
    modifies decl
    ensures !Tagged(decl) ==> comments' == comments && (decl != null ==> decl.doc == old(decl.doc))
    ensures Tagged(decl) ==>
      && |comments'| == |comments| + 1
      && comments'[..|comments|] == comments
      && IsAnnotationOf(comments'[|comments|], decl, funcMap, toCamel)
      && decl.doc == Some(comments'[|comments|])
  {
    if decl == null || decl.tok != TypeTok || |decl.specs| < 1 {
      return comments;
    }
    var spec := decl.specs[0];
    if spec.typ != StructType {
      return comments;
    }
    var name := EnclosedName(spec.name, decl.pos, funcMap, toCamel);
    var group := Annotation(spec.end, name);
    decl.doc := Some(group);
    comments' := comments + [group];
  }

  // ---------------------------------------------------------------------
  // The scan, main.go:87-98

  /**
   * The annotations a pre-order visit of `nodes` may append, one per tagged
   * declaration in visiting order, each built with the functions visited
   * before it.
   */
  ghost predicate ScanOutcome(nodes: seq<Node>, added: seq<CommentGroup>, toCamel: string -> string)
    decreases |nodes|
  {
    if nodes == [] then added == []
    else
      var init := nodes[..|nodes| - 1];
      match nodes[|nodes| - 1]
      case GenNode(d) =>
        if Tagged(d) then
          added != [] && ScanOutcome(init, added[..|added| - 1], toCamel) &&
          IsAnnotationOf(added[|added| - 1], d, FuncsBefore(init), toCamel)
        else
          ScanOutcome(init, added, toCamel)
      case _ => ScanOutcome(init, added, toCamel)
  }

  /** The declarations among `nodes` that pass the guard, in visiting order. */
  function TaggedDecls(nodes: seq<Node>): seq<GenDecl>
  {
    if nodes == [] then []
    else
      var last := nodes[|nodes| - 1];
      TaggedDecls(nodes[..|nodes| - 1]) + (if last.GenNode? && Tagged(last.d) then [last.d] else [])
  }

  /**
   * One annotation per tagged declaration, in the same order, each at the
   * end of its declaration's first spec and each one a group the next
   * run's filter drops.
   */
  lemma {:induction false} ScanOutcomeShape(nodes: seq<Node>, added: seq<CommentGroup>, toCamel: string -> string)
    requires ScanOutcome(nodes, added, toCamel)
    ensures |added| == |TaggedDecls(nodes)|
    ensures forall k :: 0 <= k < |added| ==>
      Tagged(TaggedDecls(nodes)[k]) && added[k].pos == TaggedDecls(nodes)[k].specs[0].end
    ensures forall g <- added :: IsStale(g)
  {
    if nodes != [] {
      var init := nodes[..|nodes| - 1];
      var last := nodes[|nodes| - 1];
      if last.GenNode? && Tagged(last.d) {
        var g := added[|added| - 1];
        ScanOutcomeShape(init, added[..|added| - 1], toCamel);
        var name :| NameChoice(name, last.d.specs[0].name, last.d.pos, FuncsBefore(init).Values, toCamel) &&
          g == Annotation(last.d.specs[0].end, name);
        AnnotationIsStale(last.d.specs[0].end, name);
        assert added == added[..|added| - 1] + [g];
      } else {
        ScanOutcomeShape(init, added, toCamel);
      }
    }
  }

  /** One more node that is not a tagged declaration appends nothing. */
  lemma ScanPassesOver(nodes: seq<Node>, i: nat, added: seq<CommentGroup>, toCamel: string -> string)
    requires i < |nodes| && !(nodes[i].GenNode? && Tagged(nodes[i].d))
    requires ScanOutcome(nodes[..i], added, toCamel)
    ensures ScanOutcome(nodes[..i + 1], added, toCamel)
  {
    assert nodes[..i + 1][..i] == nodes[..i];
  }

  /** One more tagged declaration appends one of its annotations. */
  lemma ScanTags(nodes: seq<Node>, i: nat, added: seq<CommentGroup>, g: CommentGroup, toCamel: string -> string)
    requires i < |nodes| && nodes[i].GenNode? && Tagged(nodes[i].d)
    requires ScanOutcome(nodes[..i], added, toCamel)
    requires IsAnnotationOf(g, nodes[i].d, FuncsBefore(nodes[..i]), toCamel)
    ensures ScanOutcome(nodes[..i + 1], added + [g], toCamel)
  {
    assert nodes[..i + 1][..i] == nodes[..i];
    assert (added + [g])[..|added|] == added;
  }

  /** One more node extends the recorded functions only if it is a function. */
  lemma FuncsBeforeStep(nodes: seq<Node>, i: nat)
    requires i < |nodes|
    ensures FuncsBefore(nodes[..i + 1]) ==
      if nodes[i].FuncNode? then FuncsBefore(nodes[..i])[nodes[i].f.end := nodes[i].f] else FuncsBefore(nodes[..i])
  {
    assert nodes[..i + 1][..i] == nodes[..i];
  }

  /** The callback of main.go:89-98 applied to the nodes in pre-order. */
  method Scan(nodes: seq<Node>, comments: seq<CommentGroup>, toCamel: string -> string)
    returns (comments': seq<CommentGroup>, ghost added: seq<CommentGroup>)
    requires forall n <- nodes :: n.GenNode? ==> WellTyped(n.d)
    modifies DeclsOf(nodes)
    ensures comments' == comments + added
    ensures ScanOutcome(nodes, added, toCamel)
    ensures forall j :: 0 <= j < |nodes| && nodes[j].GenNode? && Tagged(nodes[j].d) ==>
      nodes[j].d.doc.Some? && nodes[j].d.doc.value in added
    ensures forall j :: 0 <= j < |nodes| && nodes[j].GenNode? && !Tagged(nodes[j].d) ==>
      nodes[j].d.doc == old(nodes[j].d.doc)
  {
    var funcMap: map<int, FuncDecl> := map[];
    comments' := comments;
    added := [];
    for i := 0 to |nodes|
      invariant funcMap == FuncsBefore(nodes[..i])
      invariant comments' == comments + added
      invariant ScanOutcome(nodes[..i], added, toCamel)
      invariant forall j :: 0 <= j < i && nodes[j].GenNode? && Tagged(nodes[j].d) ==>
        nodes[j].d.doc.Some? && nodes[j].d.doc.value in added
      invariant forall j :: 0 <= j < |nodes| && nodes[j].GenNode? && !Tagged(nodes[j].d) ==>
        nodes[j].d.doc == old(nodes[j].d.doc)
    {
      FuncsBeforeStep(nodes, i);
      match nodes[i]
      case FuncNode(f) =>
        funcMap := funcMap[f.end := f];
        ScanPassesOver(nodes, i, added, toCamel);
      case GenNode(d) =>
        assert d in DeclsOf(nodes);
        var before := comments';
        comments' := ApplyStructNameTag(d, funcMap, comments', toCamel);
        if Tagged(d) {
          var g := comments'[|before|];
          ScanTags(nodes, i, added, g, toCamel);
          added := added + [g];
          assert comments' == before + [g];
        } else {
          ScanPassesOver(nodes, i, added, toCamel);
        }
      case OtherNode =>
        ScanPassesOver(nodes, i, added, toCamel);
    }
    assert nodes[..|nodes|] == nodes;
  }

  // ---------------------------------------------------------------------
  // process, main.go:80-110

  /** The loop of main.go:80-85: the sentinel, then the parsed groups that are not stale annotations. */
  method CollectComments(parsed: seq<CommentGroup>) returns (comments: seq<CommentGroup>)
    ensures comments == [Sentinel] + Kept(parsed)
  {
    comments := [Sentinel];
    for i := 0 to |parsed|
      invariant comments == [Sentinel] + Kept(parsed[..i])
    {
      assert parsed[..i + 1] == parsed[..i] + [parsed[i]];
      if !HasPrefix(Text(parsed[i]), NameMarker) {
        comments := comments + [parsed[i]];
      }
    }
    assert parsed[..|parsed|] == parsed;
  }

  /** Parser-made positions: every parsed group and every first spec's end is at 0 or later. */
  ghost predicate RealPositions(parsed: seq<CommentGroup>, nodes: seq<Node>)
  {
    (forall g <- parsed :: g.pos >= 0) &&
    (forall n <- nodes :: n.GenNode? && Tagged(n.d) ==> n.d.specs[0].end >= 0)
  }

  /**
   * main.go:80-110: the file's new comment list is sorted by (Pos, End);
   * with parser-made positions it holds exactly the kept parsed groups and
   * the new annotations, and no group at -1.
   */
  method Process(file: SourceFile, nodes: seq<Node>, toCamel: string -> string)
    returns (ghost added: seq<CommentGroup>)
    requires forall n <- nodes :: n.GenNode? ==> WellTyped(n.d)
    modifies file, DeclsOf(nodes)
    ensures ScanOutcome(nodes, added, toCamel)
    ensures Sorted(file.comments)
    ensures RealPositions(old(file.comments), nodes) ==>
      && multiset(file.comments) == multiset(Kept(old(file.comments)) + added)
      && |file.comments| == |Kept(old(file.comments))| + |added|
      && forall g <- file.comments :: g.pos != Sentinel.pos
    ensures forall j :: 0 <= j < |nodes| && nodes[j].GenNode? && Tagged(nodes[j].d) ==>
      nodes[j].d.doc.Some? && nodes[j].d.doc.value in added
    ensures forall j :: 0 <= j < |nodes| && nodes[j].GenNode? && !Tagged(nodes[j].d) ==>
      nodes[j].d.doc == old(nodes[j].d.doc)
  {
    ghost var parsed := file.comments;
    ghost var kept := Kept(parsed);
    var comments := CollectComments(file.comments);
    ghost var seeded := comments;
    comments, added := Scan(nodes, comments, toCamel);
    ghost var assembled := comments;
    assert assembled == [Sentinel] + (kept + added) by {
      assert seeded == [Sentinel] + kept;
      assert assembled == seeded + added;
    }
    assert |assembled| >= 1;
    comments := SortByPosEnd(comments);
    assert |comments| == |multiset(comments)| == |multiset(assembled)| == |assembled|;
    ghost var sorted := comments;
    if comments[0].pos == -1 {
      comments := comments[1..];
    }
    file.comments := comments;
    SortedTail(sorted);
    if RealPositions(parsed, nodes) {
      SentinelDropped(sorted, parsed, nodes, added, toCamel);
      assert file.comments == sorted[1..];
    }
  }

  /** With parser-made positions, the group main.go:107-109 drops is the sentinel and nothing else. */
  lemma SentinelDropped(sorted: seq<CommentGroup>, parsed: seq<CommentGroup>,
                        nodes: seq<Node>, added: seq<CommentGroup>, toCamel: string -> string)
    requires RealPositions(parsed, nodes)
    requires ScanOutcome(nodes, added, toCamel)
    requires Sorted(sorted) && multiset(sorted) == multiset([Sentinel] + (Kept(parsed) + added))
    ensures |sorted| > 0 && sorted[0].pos == -1
    ensures multiset(sorted[1..]) == multiset(Kept(parsed) + added)
    ensures |sorted[1..]| == |Kept(parsed)| + |added|
    ensures forall g <- sorted[1..] :: g.pos != Sentinel.pos
  {
    NewGroupsAtRealPositions(parsed, nodes, added, toCamel);
    SentinelSortsFirst(sorted, Kept(parsed) + added);
  }

  /** Every declaration `TaggedDecls` lists was visited. */
  lemma {:induction false} TaggedDeclsVisited(nodes: seq<Node>)
    ensures forall d <- TaggedDecls(nodes) :: Tagged(d) && GenNode(d) in nodes
  {
    if nodes != [] {
      var init := nodes[..|nodes| - 1];
      TaggedDeclsVisited(init);
      assert forall n <- init :: n in nodes;
    }
  }

  /** With parser-made positions, every group the list is rebuilt from lies at 0 or later. */
  lemma NewGroupsAtRealPositions(parsed: seq<CommentGroup>, nodes: seq<Node>,
                                 added: seq<CommentGroup>, toCamel: string -> string)
    requires RealPositions(parsed, nodes)
    requires ScanOutcome(nodes, added, toCamel)
    ensures forall g <- Kept(parsed) + added :: g.pos >= 0
  {
    KeptMembers(parsed);
    ScanOutcomeShape(nodes, added, toCamel);
    TaggedDeclsVisited(nodes);
    forall g <- added ensures g.pos >= 0 {
      var k :| 0 <= k < |added| && added[k] == g;
      assert TaggedDecls(nodes)[k] in TaggedDecls(nodes);
    }
  }
}
