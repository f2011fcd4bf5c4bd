# goswagtags in Dafny

goswagtags rewrites Go source files so that every `type` declaration whose
first spec declares a struct carries a `//@name <Name>` comment, which
documentation generators read as the type's canonical name. Later specs of a
grouped `type ( … )` declaration get no comment. For each handled file, `process` does four things:

1. It rebuilds the file's comment list. The list starts from a sentinel
   group at position -1. Every parsed group whose `Text()` starts with
   `"@name "` is dropped, so annotations from an earlier run are not kept.
2. It visits the syntax tree in pre-order. Each function declaration is
   recorded under its end position. Each `type … struct` declaration gets a
   new group at the end of its first spec. The name is the bare struct
   name, or `ToCamel(<func>_<name>)` when a recorded function strictly
   encloses the declaration.
3. It sorts the list by (Pos, End) and drops the sentinel from the front.
4. It formats the file. In the output it strips trailing spaces and tabs
   from every line and collapses each run of three or more newlines to two.

The project has four modules, and a small `Strings` module (strings.dfy)
with the prefix and suffix tests they share:

- `PathFilter` (path_filter.dfy) covers which command-line arguments are
  handled.
- `Comments` (comments.dfy) covers the comment group record, `Text()`, the
  stale-annotation filter, the sort and the sentinel.
- `Annotate` (annotate.dfy) covers the recorded functions, the
  enclosing-function lookup, `applyStructNameTag`, the scan callback and
  `process`. It is imperative where the Go code is:
  - `GenDecl` is a class whose `doc` field the pass updates.
  - `SourceFile` is a class whose comment list `process` replaces.
  - The lookup, the scan and the comment collection are loops.
- `PostProcess` (post_process.dfy) covers the two regular-expression
  replacements, as pure functions on strings.

This model follows main.go as written. Some behaviour there differs from
what a reader of the tool's purpose might expect. In main.go:

- The synthesized text is `//@name X`, with no space after the slashes.
- Lower-case struct names are annotated too.
- Structs declared inside a function get a compound name and are not
  skipped.
- Stale annotations are removed by the prefix filter at main.go:82. No
  group that shares a position is replaced.
- The skipped directory is spelt `/vender/`, so a path under `/vendor/` is
  still handled.
- Every path that starts with `.` is skipped, including `./x.go`.

## Model

| member | source | states |
|---|---|---|
| `PathFilter.SkippedIffExpressionMatches` | main.go:42-46 | The unanchored skip expression matches a path exactly when the path starts with `.`, ends in `_test.go`, or contains `/vender/` and has no newline. Both directions are proved, against a regex-level reading of the three alternatives. |
| `PathFilter.HandledArguments` | main.go:43-47 | The argument loop goes on with every occurrence of an argument that ends in `.go` and is not skipped, repeats included, in argument order. This equals the recursive filter `HandledOf`. A path is in the result exactly when it is such an argument. |
| `PathFilter.HandledOfCounts` | main.go:43-47 | A path that ends in `.go` and is not skipped is handled as often as it is given. Any other path is never handled. |
| `PathFilter.DotSlashIsSkipped` | main.go:42-45 | Every path that starts with `./` is skipped. |
| `PathFilter.VendorIsHandled` | main.go:42-45 | `a/vender/b.go` is skipped, but `a/vendor/b.go` is handled. |
| `Comments.KeptMembers` | main.go:81-85 | A parsed group stays in the list exactly when its `Text()` does not start with `"@name "`. |
| `Comments.KeptAppend` | main.go:81-85 | The filter works element by element, so kept groups stay in their original relative order. |
| `Comments.KeptCounts` | main.go:81-85 | A stale group is kept zero times. Any other group is kept as often as it was parsed. |
| `Comments.AnnotationIsStale` | main.go:149-150 | The group created for a struct sits at the spec end, and the filter of main.go:82 reads it as stale. |
| `Comments.SpacedAnnotationIsStale` | main.go:82 | A hand-written `// @name X` comment is also dropped by the filter. |
| `Comments.KeptOfStale` | main.go:81-85 | Filtering a list made only of annotations leaves nothing. |
| `Comments.KeptTwice` | main.go:81-85 | Applying the filter a second time removes nothing more. |
| `Comments.RerunDropsAnnotations` | main.go:80-85 | Filter the kept groups plus a run's annotations again, and you get exactly the kept groups back. Annotations are never duplicated. |
| `Comments.RerunDropsAnnotationsInAnyOrder` | main.go:80-85 | Any reordering of the kept groups plus the annotations filters back to the kept groups, with the same multiplicities. |
| `Comments.Insert` | main.go:100-105 | Inserting into a list sorted by (Pos, End) keeps it sorted, and adds exactly the one group. |
| `Comments.SortByPosEnd` | main.go:100-105 | The result is sorted ascending by Pos, with ties broken by End, and is a permutation of the input. |
| `Comments.SentinelSortsFirst` | main.go:107-109 | Suppose a list is sorted and is a permutation of the sentinel plus groups at positions >= 0. Then it is one longer than those groups and starts with the sentinel, and its tail is a permutation of them with no group at -1. |
| `Annotate.FuncsBefore` | main.go:87-92 | Each recorded function is stored under its own `End()`. |
| `Annotate.FuncsBeforeRecords` | main.go:89-92 | An end position is a key exactly when some visited function ends there. The entry is the last function visited that ends there. |
| `Annotate.NameWithOneEncloser` | main.go:139-147 | When exactly one recorded function strictly encloses the declaration, the name must be `ToCamel(<func>_<name>)`. |
| `Annotate.EnclosedName` | main.go:139-147 | With no recorded function strictly around the declaration, the name is the bare spec name. Otherwise it is `ToCamel(f.Name + "_" + name)` for some enclosing `f`, and the map order decides which. |
| `Annotate.ApplyStructNameTag` | main.go:129-152 | A nil declaration, a non-`type` token, no specs or a non-struct first spec change neither the list nor `Doc`. Otherwise it appends exactly one group, `//@name <name>` at the first spec's end, and leaves earlier entries as they were. `Doc` is set to that group. |
| `Annotate.ScanOutcomeShape` | main.go:89-98 | The scan appends one annotation per tagged declaration, in visiting order. Each sits at its declaration's spec end, and each is stale for the next run. |
| `Annotate.Scan` | main.go:89-98 | Each declaration is handled with the functions visited before it, and the list only grows at its end. A tagged declaration's `Doc` is one of the new groups. The `Doc` of any other declaration is unchanged. |
| `Annotate.CollectComments` | main.go:80-85 | The seeded list is the sentinel followed by the kept parsed groups. |
| `Annotate.SentinelDropped` | main.go:107-109 | With parser-made positions, the front group is the one at -1, so the sentinel is dropped. The rest is exactly the kept groups plus the annotations. |
| `Annotate.Process` | main.go:80-110 | The new `file.Comments` is sorted by (Pos, End). With parser-made positions it is a permutation of the kept groups plus the annotations and has no group at -1. Its length is their sum. The read of `comments[0]` is always in bounds. |
| `PostProcess.StripTrailingBlanks` | main.go:118 | Stripping never lengthens the text. |
| `PostProcess.CollapseNewlines` | main.go:119 | Collapsing never lengthens the text. |
| `PostProcess.StripLeavesNoTrailingBlank` | main.go:118 | After stripping, no space or tab sits before a newline or at the end of the text. |
| `PostProcess.StripKeepsNonBlanks` | main.go:118 | Stripping removes only spaces and tabs. All other characters keep their order. |
| `PostProcess.StripFixesCleanText` | main.go:118 | Text with no trailing blanks is unchanged. |
| `PostProcess.StripTwice` | main.go:118 | Stripping twice gives the same text as stripping once. |
| `PostProcess.StripSplitsAtNewline` | main.go:24 | In multi-line mode each line is stripped on its own, because the text splits at every newline. |
| `PostProcess.StripLineIsTrimRight` | main.go:24 | Within one line, exactly the trailing spaces and tabs are removed. |
| `PostProcess.CollapseLeavesNoTripleNewline` | main.go:119 | After collapsing, no three newlines are adjacent. |
| `PostProcess.CollapseKeepsNonNewlines` | main.go:119 | Collapsing removes only newlines. All other characters keep their order. |
| `PostProcess.CollapseFixesCleanText` | main.go:119 | Text with no run of three newlines is unchanged. |
| `PostProcess.CollapseTwice` | main.go:119 | Collapsing twice gives the same text as collapsing once. |
| `PostProcess.CollapseRun` | main.go:25 | A maximal run of n newlines becomes min(n, 2) newlines. |
| `PostProcess.CollapseSplitsBeforeNonNewline` | main.go:25 | Collapsing acts on each run of newlines on its own. |
| `PostProcess.CollapseKeepsNoTrailingBlank` | main.go:117-119 | The second replacement never brings back a trailing blank. |
| `PostProcess.CleanShape` | main.go:117-119 | After both replacements there is no trailing blank and no run of three newlines. All characters other than spaces, tabs and newlines keep their order. |
| `PostProcess.CleanTwice` | main.go:117-119 | Applying both replacements again leaves the text unchanged. |

## Left out

- Flag parsing, the usage message and `os.Exit` (main.go:29-40, 59-62) are process plumbing.
- `os.Stat`, `filepath.Walk` and `walk` (main.go:50-71) are file-system I/O. `walk` passes every visited file to `process` without the path filter, and the model claims nothing about walked files.
- `parser.ParseFile` (main.go:76) and `format.Node` (main.go:113) are the Go toolchain's parser and printer. The parsed comment list, the pre-order node sequence and the formatted text are inputs.
- The traversal of `ast.Inspect` is not modelled; its pre-order node sequence is an input. Only function declarations, general declarations and everything else are told apart.
- `strcase.ToCamel` is a third-party function, passed in as the parameter `toCamel`.
- `Comments.Text` models `CommentGroup.Text()` in simplified form. It removes `//` plus one space, or `/*` and `*/`, from the group's raw text. It does not drop directive lines, trim trailing whitespace or remove leading blank lines.
- The order of a Go map range is unspecified. The lookup picks any unvisited function, and its contract promises some enclosing one, not which.
- `slices.SortFunc` sorts the slice in place and is not stable. The model sorts a value-level copy by insertion. `Annotate.Process` promises only a sorted permutation, which is all the library promises.
- In Go, `decl.Doc` and the appended group are one pointer. In the model they are equal values.
- Writing the result with `os.WriteFile`, or printing it to standard output (main.go:121-126), is I/O.
- `Comments.Annotation`: the new group's end is its position plus the text length in characters. Go's `Comment.End()` adds the length in bytes, so for a struct name with non-ASCII letters the model's End, the sort's tie-break, differs. The model assumes ASCII names.
- `Annotate.ApplyStructNameTag`: its requires `WellTyped` excludes the panic of the unchecked type assertion at main.go:134. Go's parser always makes the specs of a `type` declaration type specs, so the panic cannot happen on parsed input, and the model does not represent it.
- Token positions are unbounded integers. Go's `token.Pos` is a machine `int`, and overflow is not modelled.
- The replacements work on bytes in Go and on characters here. Both treat spaces, tabs and newlines as single units.
- `Annotate.Process`: the permutation, count and no-sentinel facts are stated only for parser-made positions (>= 0). For a group at a position below -1, the sentinel would not sort first.
- `Annotate.Scan`: it states that each tagged declaration's `Doc` is one of the new groups, not which one. `Annotate.ApplyStructNameTag` pins the group for a single call.
