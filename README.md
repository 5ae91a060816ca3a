# eatler.rs file-selection engine in Dafny

eatler walks a project directory and gathers the files worth pasting into one
output file. This project models the part that decides *which* files are
gathered:

- the project-type tables (`ProjectType::from`, `get_files`, `Display`);
- the directory scanner (`check_ignore`, `check_include`, `scan_dir`,
  `dir_helper`) over an abstract directory tree;
- the glue in `reatler.rs`:
  - the blank-line filter of `parse_gitignore`;
  - `parse_args`;
  - `get_project_types`, which detects types from the base names of a dry scan;
  - the post-scan part of `get_scan_params_auto`;
  - `get_scan_params_manual`;
- the prompt-token pipelines of `choice.rs` (`get_ignore`, `get_types`).

Modules:

| file | module | models |
|---|---|---|
| `str_ops.dfy` | `Str` | the `str` operations used: `trim`, `split(' ')`, `lines`, `starts_with`, `ends_with`, `rsplit('/').next()` |
| `options.dfy` | `Options` | `Option` |
| `vec.dfy` | `Vecs` | `Vec::dedup`, which works in place on an array, and `flat_map(..).collect()` |
| `project_type.dfy` | `ProjectTypes` | `src/project_type.rs` |
| `dir.dfy` | `Dir` | `src/dir.rs` |
| `choice.dfy` | `Choice` | `src/choice.rs` |
| `reatler.dfy` | `Reatler` | `src/reatler.rs` |

The filesystem is a tree of `Node`s:

- `File(name)`;
- `Directory(name, readable, children)`, where `children` are in `read_dir` order and `readable == false` stands for a failing `read_dir`;
- `BadEntry`, an entry the listing could not produce.

`dir_helper`'s loop is a method, `Dir.DirHelper`. The shared `&mut Vec<String>` is passed in and handed back as a sequence. The method is proved equal to the recursive function `Dir.Walk`. `Walk` is in turn proved equal to an independent description, `Dir.Picked` over `Dir.Enumerate`:

- enumerate every entry of the tree in depth-first pre-order;
- keep the files that are reached through non-ignored directories, are not ignored themselves, and pass the include test;
- fail exactly when a reached entry faults.

`parse_args`, `get_project_types`, `parse_gitignore`'s filter and the post-scan part of `get_scan_params_auto` are loops over mutable state in the source. Here each is a method proved against a specification function: `Interpret` of `Tokens`, `Collapse` of `Detected`, and `NonBlank` of `Lines`. `Vec::dedup` is the in-place array method `Vecs.Dedup`, specified by `Collapse`. Like the source, it removes neighbouring repeats only.

The source files come from different revisions. Each function is modelled as written:

- `scan_dir` is called with a third argument at `src/reatler.rs:96` and `src/reatler.rs:155`, but takes two at `src/dir.rs:17`. The model's `ScanDir` has the two-argument form of `dir.rs`.
- `ScanParams::default()` is used at `src/reatler.rs:158`, but `src/dir.rs:2-5` does not derive it. The model starts from empty lists.
- `src/main.rs:13` calls `run` with two arguments, but `src/reatler.rs:62` takes one. `run` is not part of this model.

The ignore test is exact equality of an entry's name (`src/dir.rs:8`): there is no substring matching, and patterns such as `./target` or `target/` are not normalised, so they match no entry name.

## Model

| member | source | states |
|---|---|---|
| `Str.Trim` | src/choice.rs:13 | `trim` keeps an infix of the string; everything outside it is whitespace and its own two ends are not; the result is empty exactly when the string is all whitespace |
| `Str.TrimIdempotent` | src/choice.rs:13 | trimming an already trimmed string changes nothing |
| `Str.Split` | src/choice.rs:12 | `split(' ')` yields one more piece than there are separators; no piece holds the separator; joining the pieces with it gives the string back |
| `Str.Lines` | src/reatler.rs:21 | the text splits at line feeds: there is one line per line feed, plus one when the text is non-empty and does not end in a line feed; no line holds a line feed; without carriage returns, the lines joined by line feeds (plus the final line feed, if any) give the text back; a non-empty text without line feeds is one line and an empty text has none |
| `Str.BaseName` | src/reatler.rs:169 | `rsplit('/').next()` is the longest suffix free of '/': it has no '/', the path ends with it, and a '/' comes right before it whenever it is not the whole path |
| `Str.BaseNameAfterSlash` | src/reatler.rs:169 | the base name of a path `prefix/name` (or of a bare name) is `name` |
| `Vecs.Collapse` | src/reatler.rs:173 | the dedup result is no longer than its input, is empty only for an empty input, and keeps the last element |
| `Vecs.CollapseNoAdjacentDup` | src/reatler.rs:173 | after dedup no two neighbours are equal |
| `Vecs.CollapseSameElements` | src/reatler.rs:173 | dedup removes repeats only: a value occurs in the result exactly when it occurs in the input |
| `Vecs.CollapseKeepsDistinctNeighbours` | src/reatler.rs:157 | dedup leaves a vector without neighbouring repeats unchanged |
| `Vecs.CollapseIdempotent` | src/reatler.rs:157 | a second dedup changes nothing |
| `Vecs.CollapseKeepsSeparatedRepeats` | src/reatler.rs:173 | equal elements that are not neighbours both survive: `[x, y, x]` stays as it is |
| `Vecs.CollapseStretches` | src/reatler.rs:173 | only neighbours are merged: the input is each element of its dedup repeated one or more times (its run lengths), in order |
| `Vecs.Dedup` | src/reatler.rs:173 | the in-place dedup leaves the collapsed contents in the array's first `len` cells |
| `Vecs.FlatMap` | src/reatler.rs:162 | the flattened list is at least as long as the last list it concatenates |
| `Vecs.FlatMapMembers` | src/reatler.rs:162 | a value is in the `flat_map` result exactly when it is in the list of some element |
| `ProjectTypes.Name` | src/project_type.rs:29-51 | every display name is non-empty |
| `ProjectTypes.ParseNameInvertsName` | src/project_type.rs:29-51 | every display name reads back as its project type, so the table is injective |
| `ProjectTypes.NamesDistinct` | src/project_type.rs:29-51 | the 21 display names are pairwise distinct |
| `ProjectTypes.From` | src/project_type.rs:56-150 | `from` returns at most two types; two exactly for the CMake and clang build files, as `[Cpp, C]` in that order; never the same type twice |
| `ProjectTypes.FromRecognisesExactlyMarkers` | src/project_type.rs:59-147 | `from` returns something exactly when the name is one of the listed marker names |
| `ProjectTypes.FromNeedsWholeName` | src/project_type.rs:59-147 | names that only end like a marker ("run.sh", "app.csproj") reveal nothing |
| `ProjectTypes.FromFirstTypeListsMarker` | src/project_type.rs:59-147 | the first type a marker reveals is the type of the match arm that lists it |
| `ProjectTypes.GetFiles` | src/project_type.rs:152-297 | every type has a non-empty pattern list and none of its patterns is empty |
| `ProjectTypes.MarkersAmongFiles` | src/project_type.rs:56-297 | each marker of an arm, "Cargo.lock" aside, is one of the include patterns of the arm's type |
| `ProjectTypes.MarkerCoverage` | src/project_type.rs:56-297 | for every marker but "Cargo.lock", some pattern of the types it reveals matches the marker, so the file that triggered detection is included |
| `ProjectTypes.CargoLockUncovered` | src/project_type.rs:66 | "Cargo.lock" reveals Rust, yet no Rust pattern matches it |
| `ProjectTypes.Expand` | src/reatler.rs:160-162 | the include list of a non-empty type list is non-empty and never holds "", the include-everything pattern |
| `ProjectTypes.ExpandMembers` | src/reatler.rs:160-162 | a pattern is in the include list exactly when one of the types lists it |
| `Dir.CheckIgnore` | src/dir.rs:7-9 | a name is ignored exactly when it equals an ignore entry, so nothing is ignored by an empty list |
| `Dir.CheckInclude` | src/dir.rs:11-15 | a name is included exactly when it ends with some pattern, so nothing is included by an empty list |
| `Dir.EmptyPatternIncludesAll` | src/dir.rs:11-15 | a list holding "" includes every name |
| `Dir.Join` | src/dir.rs:27 | a joined path starts with the parent and ends with the name; a '/' is put between them exactly when the parent is non-empty and does not already end with '/' |
| `Dir.JoinBaseName` | src/dir.rs:27 | the text after the last '/' of a joined path is the entry name |
| `Dir.VisitEntry` | src/dir.rs:25-41 | one loop pass only appends to `files`; it fails exactly when the entry's contribution is an error and otherwise appends exactly that contribution |
| `Dir.DirHelper` | src/dir.rs:23-45 | `dir_helper` only appends: the earlier contents of `files` stay in place; it succeeds exactly when the walk succeeds and then appends exactly the walk's paths |
| `Dir.ScanDir` | src/dir.rs:17-21 | `scan_dir` succeeds exactly when the root is a readable directory and no reached entry faults, and then yields exactly the selected files in depth-first listing order; an error gives no partial list |
| `Dir.Picked` | src/dir.rs:33-41 | every collected path is that of a selected entry, meaning a non-ignored file reached through non-ignored directories whose name passes the include test; every selected entry is collected |
| `Dir.BeneathIgnoredIsInert` | src/dir.rs:33-38 | beneath an ignored directory nothing is collected and nothing faults, whatever the include list says |
| `Dir.VisitMatchesItems` | src/dir.rs:25-41 | for any reached entry, its contribution to the walk fails exactly when one of its items faults, and otherwise lists exactly its selected items |
| `Dir.DirectoryMatchesItems` | src/dir.rs:30-38 | a directory entry is never collected itself; it faults only when it is unreadable and not ignored; beneath it the walk follows the enumeration |
| `Dir.WalkFromMatchesEnumeration` | src/dir.rs:25-42 | the loop from any entry on fails exactly when a reached item faults, and otherwise collects exactly the selected items in pre-order |
| `Dir.WalkMatchesEnumeration` | src/dir.rs:23-45 | the whole walk agrees with the enumeration of the whole tree |
| `Dir.ScanExample` | src/dir.rs:23-45 | on a small tree, an ignored `target` directory is skipped and a `.txt` file is not included; an unreadable `target` fails the scan unless it is ignored |
| `Choice.GetIgnore` | src/choice.rs:33 | one token per ' '-separated piece, one more than the spaces in the line; each token is free of ' ' and is its own trim |
| `Choice.GetIgnoreTokens` | src/choice.rs:33 | the k-th token is the trimmed k-th piece, so no token begins or ends with whitespace |
| `Choice.GetIgnoreRoundTrip` | src/choice.rs:33 | when ' ' is the line's only whitespace, joining the tokens with ' ' gives the line back |
| `Choice.Dotted` | src/choice.rs:14-20 | the include token starts with '.'; a token already starting with '.' is kept; any other token gets exactly one '.' in front |
| `Choice.DottedIdempotent` | src/choice.rs:14-20 | dotting is idempotent |
| `Choice.GetTypes` | src/choice.rs:11-21 | one include token per ' '-separated piece; each starts with '.' and is the dotted ignore token of the same piece |
| `Choice.GetTypesTokenEnd` | src/choice.rs:11-21 | no include token ends in whitespace |
| `Choice.EmptyPieces` | src/choice.rs:11-33 | double spaces or a bare line feed give empty pieces: "" as ignore names, "." as include patterns |
| `Reatler.NonBlank` | src/reatler.rs:21-23 | the filter keeps only lines of the input, none of them blank, and keeps every non-blank line |
| `Reatler.NonBlankAppend` | src/reatler.rs:21-23 | the filter works line by line and keeps the order: filtering a concatenation concatenates the filtered parts |
| `Reatler.NonBlankKeepsNonBlank` | src/reatler.rs:21-23 | lines that are all non-blank pass unchanged, verbatim and untrimmed |
| `Reatler.ParseGitignore` | src/reatler.rs:16-27 | an unreadable file gives no entries; otherwise the entries are the file's non-blank lines |
| `Reatler.Tokens` | src/reatler.rs:34-57 | a `--smart` without a query can only be the last token; flags start with '-' and are not `--smart`; paths do not start with '-' |
| `Reatler.TokensSpellArgs` | src/reatler.rs:34-57 | reading the arguments as tokens loses nothing: every argument is consumed exactly once, in order, and `--smart` consumes two |
| `Reatler.TokensIgnoreProgramName` | src/reatler.rs:33 | the tokens from position 1 on never depend on `args[0]` |
| `Reatler.LastPath` | src/reatler.rs:53-55 | the directory is the default when there is no path argument, and otherwise the last path argument |
| `Reatler.LastQuery` | src/reatler.rs:36-39 | the query is the default when there is no `--smart q`, and otherwise the q of the last one |
| `Reatler.InterpretTakesLast` | src/reatler.rs:34-58 | processing the tokens left to right ends in the error exactly when a `--smart` has no query; otherwise the last path and the last query win |
| `Reatler.ParseArgs` | src/reatler.rs:30-60 | the `parse_args` loop computes the left-to-right reading of the argument tokens |
| `Reatler.ParseArgsOutcome` | src/reatler.rs:30-60 | `parse_args` fails exactly when the last argument is a `--smart` with no query; otherwise the directory is the last path ("./" when none) and the query is the argument after the last `--smart` |
| `Reatler.ParseArgsProgramName` | src/reatler.rs:31-33 | with only the program name the result is ("./", None), and the program name never changes the result |
| `Reatler.ParseArgsExamples` | src/reatler.rs:36-56 | a query starting with '-' is still the query; the last path wins across flags; a trailing `--smart` is the error |
| `Reatler.NoMarkerAt` | src/reatler.rs:169-176 | when no marker is detected, no name at any position is a marker |
| `Reatler.MarkerBreaksNoMarker` | src/reatler.rs:169-176 | a marker at any position counts as detected |
| `Reatler.DetectedEmpty` | src/reatler.rs:168-176 | nothing is detected exactly when no base name is a marker |
| `Reatler.DetectedMembers` | src/reatler.rs:168-172 | a type is detected exactly when some base name reveals it |
| `Reatler.DedupVec` | src/reatler.rs:173 | dedup on a vector yields its collapse |
| `Reatler.GetProjectTypes` | src/reatler.rs:166-186 | `get_project_types` returns None exactly when no path's last '/'-component is a marker; otherwise it returns the per-file `from` results in file order, with neighbouring repeats collapsed |
| `Reatler.ProjectTypesShape` | src/reatler.rs:166-186 | a detected list is non-empty, has no equal neighbours, and holds exactly the types some base name reveals |
| `Reatler.DetectionKeepsSeparatedRepeats` | src/reatler.rs:168-173 | go.mod, Cargo.toml, go.sum give [Go, Rust, Go]: repeats that are not neighbours survive |
| `Reatler.DetectionMergesNeighbours` | src/reatler.rs:168-173 | go.mod next to go.sum gives Go once |
| `Reatler.DryParams` | src/reatler.rs:151-154 | the dry scan ignores the gitignore lines and includes with "" |
| `Reatler.DryScanSelectsEveryFile` | src/reatler.rs:151-155 | the dry scan selects exactly the reached, non-ignored files, whatever their names |
| `Reatler.ScanParamsAuto` | src/reatler.rs:149-164 | a failed or marker-free dry scan gives None; otherwise the ignore list is the gitignore lines unchanged and the include list is the types' patterns concatenated in order, the second dedup changing nothing |
| `Reatler.AutoIncludeIsProper` | src/reatler.rs:156-162 | a detected include list is never empty and never holds the include-everything pattern "" |
| `Reatler.ManualParams` | src/reatler.rs:140-147 | the typed ignore names come first and the gitignore lines follow them unchanged; there is one include pattern per typed piece, the k-th being the k-th `get_ignore` token of the typed line with a '.' put in front unless it already starts with one |

## Left out

- `run`, `add_files` and `append_file_to_output` (src/reatler.rs:62-138): they write the output file, use the clipboard, print and exit. They make no file-selection decision.
- `src/main.rs`: it only calls the prompts and `run`.
- `src/smart.rs`: the `fd` subprocess, the `walkdir` crate and the stdin choice of a directory are foreign code and I/O.
- The file read in `parse_gitignore` (src/reatler.rs:18-20): the file contents are an `Option<string>` parameter, and `None` stands for "cannot open or read".
- The dry scan inside `get_scan_params_auto`: its outcome is a parameter of `ScanParamsAuto`, and `Dir.ScanDir` models the scan itself.
- The "Detected project type(s)" printing in `get_project_types` and the prompt text, flushes and stdin reads in `src/choice.rs`: output and input only. The typed line is a parameter.
- `process::exit(1)` for a `--smart` without a query: modelled as the `QueryMissing` result.
- Filesystem details: symlinks, `is_dir` following links, and the panics on names or paths that are not valid UTF-8. The tree's listing order is taken as `read_dir`'s order.
- `Reatler.ParseGitignore`: the `lines`/`filter`/`for_each` chain is written as a loop over the lines, because the pushes into `ignore` are its only effect.
- `Reatler.DedupVec`: the vector is copied into an array for the in-place `Vecs.Dedup` and read back. Rust dedups the vector's own buffer, so sharing of that buffer is not modelled.
- `Str.Trim`: Unicode whitespace is the White_Space character list written out. There is no other Unicode processing.
- `ProjectTypes.Name`: the `Display` impl writes through a `Formatter`; here it is a function returning the name.
- `Str.Lines`: the join round trip is stated for text without carriage returns; that a "\r" just before a "\n" is dropped, and a lone "\r" kept, is stated only by the definition through `Str.StripCr`.
