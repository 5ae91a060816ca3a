/** The glue of src/reatler.rs: reading the ignore file's lines, parsing the
    command line, detecting project types from a dry scan and turning them
    into scan parameters. */
module Reatler {
  import opened Str
  import opened Options
  import opened ProjectTypes
  import opened Dir
  import opened Vecs
  import opened Choice

  // ---------------------------------------------------------------------
  // parse_gitignore

  /** The lines holding something besides whitespace, verbatim and in order. */
  function NonBlank(lines: seq<string>): (r: seq<string>)
    ensures |r| <= |lines|
    ensures forall k :: 0 <= k < |r| ==> r[k] in lines && !AllWhitespace(r[k])
    ensures forall k :: 0 <= k < |lines| && !AllWhitespace(lines[k]) ==> lines[k] in r
    decreases |lines|
  {
    if lines == [] then []
    else
      var init := lines[..|lines| - 1];
      var last := lines[|lines| - 1];
      assert forall k :: 0 <= k < |init| ==> init[k] == lines[k];
      NonBlank(init) + (if !AllWhitespace(last) then [last] else [])
  }

  /** The filter works line by line: it commutes with concatenation ... */
  lemma {:induction false} NonBlankAppend(a: seq<string>, b: seq<string>)
    ensures NonBlank(a + b) == NonBlank(a) + NonBlank(b)
    decreases |b|
  {
    if b == [] {
      assert a + b == a;
    } else {
      var init := b[..|b| - 1];
      assert (a + b)[..|a + b| - 1] == a + init;
      NonBlankAppend(a, init);
    }
  }

  /** ... and keeps every line that is not blank, so it drops exactly the blank ones. */
  lemma {:induction false} NonBlankKeepsNonBlank(lines: seq<string>)
    requires forall k :: 0 <= k < |lines| ==> !AllWhitespace(lines[k])
    ensures NonBlank(lines) == lines
    decreases |lines|
  {
    if lines != [] {
      var init := lines[..|lines| - 1];
      NonBlankKeepsNonBlank(init);
      assert init + [lines[|lines| - 1]] == lines;
    }
  }

  /** `parse_gitignore` after the file read: `contents` is `None` when the
      file cannot be opened or read. The non-blank lines are pushed one by
      one, untrimmed. */
  method ParseGitignore(contents: Option<string>) returns (ignore: seq<string>)
    ensures contents.None? ==> ignore == []
    ensures contents.Some? ==> ignore == NonBlank(Lines(contents.value))
  {
    ignore := [];
    if contents.Some? {
      var lines := Lines(contents.value);
      var i := 0;
      while i < |lines|
        invariant 0 <= i <= |lines|
        invariant ignore == NonBlank(lines[..i])
        decreases |lines| - i
      {
        assert lines[..i + 1][..i] == lines[..i];
        if Trim(lines[i]) != [] {
          ignore := ignore + [lines[i]];
        }
        i := i + 1;
      }
      assert lines[..i] == lines;
    }
  }

  // ---------------------------------------------------------------------
  // parse_args

  /** How `parse_args` reads the arguments after the program name: a
      `--smart` with the argument after it, a `--smart` with nothing after
      it, a flag (anything else starting with '-') or a path. */
  datatype Token = Smart(query: string) | SmartMissing | Flag(text: string) | Positional(text: string)

  /** The arguments from `args[i]` on, read as tokens. */
  function Tokens(args: seq<string>, i: nat): (r: seq<Token>)
    ensures forall k :: 0 <= k < |r| && r[k].SmartMissing? ==>
      k == |r| - 1 && 0 < |args| && args[|args| - 1] == "--smart"
    ensures forall k :: 0 <= k < |r| && r[k].Flag? ==>
      StartsWith(r[k].text, "-") && r[k].text != "--smart"
    ensures forall k :: 0 <= k < |r| && r[k].Positional? ==> !StartsWith(r[k].text, "-")
    decreases |args| - i
  {
    if i >= |args| then []
    else if args[i] == "--smart" then
      if i + 1 < |args| then [Smart(args[i + 1])] + Tokens(args, i + 2) else [SmartMissing]
    else if StartsWith(args[i], "-") then [Flag(args[i])] + Tokens(args, i + 1)
    else [Positional(args[i])] + Tokens(args, i + 1)
  }

  /** The arguments a token was read from. */
  function Spelling(t: Token): seq<string> {
    match t
    case Smart(q) => ["--smart", q]
    case SmartMissing => ["--smart"]
    case Flag(f) => [f]
    case Positional(p) => [p]
  }

  function Flatten(ts: seq<Token>): seq<string>
    decreases |ts|
  {
    if ts == [] then [] else Spelling(ts[0]) + Flatten(ts[1..])
  }

  /** Tokenising loses nothing: every argument is read exactly once, in order. */
  lemma {:induction false} TokensSpellArgs(args: seq<string>, i: nat)
    requires i <= |args|
    ensures Flatten(Tokens(args, i)) == args[i..]
    decreases |args| - i
  {
    var ts := Tokens(args, i);
    if i < |args| {
      if args[i] == "--smart" && i + 1 < |args| {
        TokensSpellArgs(args, i + 2);
        assert ts[1..] == Tokens(args, i + 2);
        assert Flatten(ts) == Spelling(ts[0]) + Flatten(ts[1..]);
        assert args[i..] == [args[i], args[i + 1]] + args[i + 2..];
      } else if args[i] == "--smart" {
        assert ts == [SmartMissing] && ts[1..] == [];
        assert args[i..] == ["--smart"];
      } else {
        TokensSpellArgs(args, i + 1);
        assert ts[1..] == Tokens(args, i + 1);
        assert Flatten(ts) == Spelling(ts[0]) + Flatten(ts[1..]);
        assert args[i..] == [args[i]] + args[i + 1..];
      }
    }
  }

  /** The tokens from position `i >= 1` on depend only on the arguments
      from position 1 on. */
  lemma {:induction false} TokensIgnoreProgramName(args: seq<string>, args': seq<string>, i: nat)
    requires |args| == |args'| > 0 && args[1..] == args'[1..] && i >= 1
    ensures Tokens(args, i) == Tokens(args', i)
    decreases |args| - i
  {
    if i < |args| {
      assert args[i] == args[1..][i - 1] == args'[i];
      if i + 1 < |args| { assert args[i + 1] == args[1..][i] == args'[i + 1]; }
      TokensIgnoreProgramName(args, args', i + 1);
      TokensIgnoreProgramName(args, args', i + 2);
    }
  }

  /** The outcome of `parse_args`: the directory and the optional smart
      query, or the error exit taken for a `--smart` without a query. */
  datatype ParsedArgs = Parsed(dir: string, smartQuery: Option<string>) | QueryMissing

  /** The path of the last `Positional` token, `dir` when there is none. */
  function LastPath(ts: seq<Token>, dir: string): (r: string)
    ensures (r == dir && forall k :: 0 <= k < |ts| ==> !ts[k].Positional?)
      || (exists k :: 0 <= k < |ts| && ts[k] == Positional(r)
            && forall j :: k < j < |ts| ==> !ts[j].Positional?)
    decreases |ts|
  {
    if ts == [] then dir
    else
      var init := ts[..|ts| - 1];
      assert forall k :: 0 <= k < |init| ==> init[k] == ts[k];
      if ts[|ts| - 1].Positional? then ts[|ts| - 1].text else LastPath(init, dir)
  }

  /** The query of the last `Smart` token, `q` when there is none. */
  function LastQuery(ts: seq<Token>, q: Option<string>): (r: Option<string>)
    ensures (r == q && forall k :: 0 <= k < |ts| ==> !ts[k].Smart?)
      || (exists k :: 0 <= k < |ts| && ts[k].Smart? && r == Some(ts[k].query)
            && forall j :: k < j < |ts| ==> !ts[j].Smart?)
    decreases |ts|
  {
    if ts == [] then q
    else
      var init := ts[..|ts| - 1];
      assert forall k :: 0 <= k < |init| ==> init[k] == ts[k];
      if ts[|ts| - 1].Smart? then Some(ts[|ts| - 1].query) else LastQuery(init, q)
  }

  /** The tokens read left to right, as the loop of `parse_args` does. */
  function Interpret(ts: seq<Token>, dir: string, q: Option<string>): ParsedArgs
    decreases |ts|
  {
    if ts == [] then Parsed(dir, q)
    else
      match ts[0]
      case SmartMissing => QueryMissing
      case Smart(x) => Interpret(ts[1..], dir, Some(x))
      case Flag(_) => Interpret(ts[1..], dir, q)
      case Positional(p) => Interpret(ts[1..], p, q)
  }

  lemma {:induction false} LastOfFront(ts: seq<Token>, dir: string, q: Option<string>)
    requires ts != []
    ensures LastPath(ts, dir) == LastPath(ts[1..], if ts[0].Positional? then ts[0].text else dir)
    ensures LastQuery(ts, q) == LastQuery(ts[1..], if ts[0].Smart? then Some(ts[0].query) else q)
    decreases |ts|
  {
    if |ts| > 1 {
      var init := ts[..|ts| - 1];
      LastOfFront(init, dir, q);
      assert init[1..] == ts[1..][..|ts[1..]| - 1];
    }
  }

  /** Reading left to right, the last path and the last query win, and a
      missing query ends everything. */
  lemma {:induction false} InterpretTakesLast(ts: seq<Token>, dir: string, q: Option<string>)
    ensures Interpret(ts, dir, q) ==
      if SmartMissing in ts then QueryMissing else Parsed(LastPath(ts, dir), LastQuery(ts, q))
    decreases |ts|
  {
    if ts != [] {
      assert SmartMissing in ts <==> ts[0] == SmartMissing || SmartMissing in ts[1..] by {
        assert ts == [ts[0]] + ts[1..];
      }
      if !ts[0].SmartMissing? {
        LastOfFront(ts, dir, q);
        InterpretTakesLast(ts[1..], if ts[0].Positional? then ts[0].text else dir,
          if ts[0].Smart? then Some(ts[0].query) else q);
      }
    }
  }

  /** `parse_args`: the directory is "./" unless a path is given (the last
      one wins); `--smart` takes the next argument as the query whatever it
      looks like; other arguments starting with '-' are skipped; the
      program name `args[0]` is never looked at. */
  method ParseArgs(args: seq<string>) returns (r: ParsedArgs)
    ensures r == Interpret(Tokens(args, 1), "./", None)
  {
    var dir := "./";
    var smartQ: Option<string> := None;
    var i: nat := 1;
    while i < |args|
      invariant Interpret(Tokens(args, 1), "./", None) == Interpret(Tokens(args, i), dir, smartQ)
      decreases |args| - i
    {
      if args[i] == "--smart" {
        if i + 1 < |args| {
          smartQ := Some(args[i + 1]);
          i := i + 2;
        } else {
          return QueryMissing;
        }
      } else if args[i] == "--manual" || args[i] == "-m" {
        i := i + 1;
      } else if StartsWith(args[i], "-") {
        i := i + 1;
      } else {
        dir := args[i];
        i := i + 1;
      }
    }
    r := Parsed(dir, smartQ);
  }

  /** What `parse_args` returns, stated over the tokens: it fails exactly
      when the last argument is a `--smart` with no query after it;
      otherwise the directory is the last path ("./" without one) and the
      query is the argument after the last `--smart`. */
  lemma ParseArgsOutcome(args: seq<string>)
    ensures var ts := Tokens(args, 1);
            var r := Interpret(ts, "./", None);
            && (r.QueryMissing? <==> SmartMissing in ts)
            && (r.QueryMissing? ==> 0 < |args| && args[|args| - 1] == "--smart")
            && (r.Parsed? ==> r.dir == LastPath(ts, "./") && r.smartQuery == LastQuery(ts, None))
  {
    InterpretTakesLast(Tokens(args, 1), "./", None);
  }

  /** With nothing but the program name the result is ("./", None), and the
      program name never changes the result. */
  lemma ParseArgsProgramName(args: seq<string>, args': seq<string>)
    ensures |args| <= 1 ==> Interpret(Tokens(args, 1), "./", None) == Parsed("./", None)
    ensures |args| == |args'| > 0 && args[1..] == args'[1..] ==>
      Interpret(Tokens(args, 1), "./", None) == Interpret(Tokens(args', 1), "./", None)
  {
    if |args| == |args'| > 0 && args[1..] == args'[1..] {
      TokensIgnoreProgramName(args, args', 1);
    }
  }

  /** A query that looks like a flag is still the query; the last path
      wins over earlier ones, flags in between or not; a trailing `--smart`
      is the error. */
  lemma ParseArgsExamples()
    ensures Interpret(Tokens(["eatler", "--smart", "-x"], 1), "./", None) == Parsed("./", Some("-x"))
    ensures Interpret(Tokens(["eatler", "src", "-m", "lib"], 1), "./", None) == Parsed("lib", None)
    ensures Interpret(Tokens(["eatler", "src", "--smart"], 1), "./", None) == QueryMissing
  {
    assert StartsWith("-m", "-");
    assert "src"[..1][0] == 's' && "lib"[..1][0] == 'l';
  }

  // ---------------------------------------------------------------------
  // get_project_types and get_scan_params_auto

  /** The last '/'-component of each path. */
  function BaseNames(files: seq<string>): (r: seq<string>)
    ensures |r| == |files|
  {
    seq(|files|, k requires 0 <= k < |files| => BaseName(files[k]))
  }

  /** The types `from` reveals for each name, concatenated in order,
      duplicates kept. */
  function Detected(names: seq<string>): seq<ProjectType>
    decreases |names|
  {
    if names == [] then []
    else Detected(names[..|names| - 1]) + From(names[|names| - 1])
  }

  /** None of the names is a marker (checked from the last name back). */
  predicate NoMarker(names: seq<string>)
    decreases |names|
  {
    names == [] || (names[|names| - 1] !in Markers && NoMarker(names[..|names| - 1]))
  }

  lemma DetectedSnoc(names: seq<string>, i: nat)
    requires i < |names|
    ensures Detected(names[..i + 1]) == Detected(names[..i]) + From(names[i])
  {
    assert names[..i + 1][..i] == names[..i];
  }

  /** `NoMarker` holds exactly when no name at all is a marker: it rules
      out every position ... */
  lemma {:induction false} NoMarkerAt(names: seq<string>, k: nat)
    requires NoMarker(names) && k < |names|
    ensures names[k] !in Markers
    decreases |names|
  {
    if k < |names| - 1 {
      var init := names[..|names| - 1];
      NoMarkerAt(init, k);
      assert init[k] == names[k];
    }
  }

  /** ... and a marker at any position breaks it. */
  lemma {:induction false} MarkerBreaksNoMarker(names: seq<string>, k: nat)
    requires k < |names| && names[k] in Markers
    ensures !NoMarker(names)
    decreases |names|
  {
    if k < |names| - 1 {
      var init := names[..|names| - 1];
      assert init[k] == names[k];
      MarkerBreaksNoMarker(init, k);
    }
  }

  /** Nothing is detected exactly when no name is a marker. */
  lemma {:induction false} DetectedEmpty(names: seq<string>)
    ensures Detected(names) == [] <==> NoMarker(names)
    decreases |names|
  {
    if names != [] {
      DetectedEmpty(names[..|names| - 1]);
      FromRecognisesExactlyMarkers(names[|names| - 1]);
    }
  }

  /** A type is detected exactly when some name reveals it. */
  lemma {:induction false} DetectedMembers(names: seq<string>, t: ProjectType)
    ensures t in Detected(names) <==> exists k :: 0 <= k < |names| && t in From(names[k])
    decreases |names|
  {
    if names != [] {
      var init := names[..|names| - 1];
      DetectedMembers(init, t);
      assert forall k :: 0 <= k < |init| ==> init[k] == names[k];
    }
  }

  /** `Vec::dedup` applied to a vector held as a sequence: copied into an
      array, collapsed in place, the kept prefix read back. */
  method DedupVec(v: seq<ProjectType>) returns (r: seq<ProjectType>)
    ensures r == Collapse(v)
  {
    var a := new ProjectType[|v|](k requires 0 <= k < |v| => v[k]);
    assert a[..] == v;
    var n := Dedup(a);
    r := a[..n];
  }

  /** `get_project_types`: `None` exactly when no path names a marker;
      otherwise the detected types with neighbouring repeats collapsed. */
  method GetProjectTypes(files: seq<string>) returns (r: Option<seq<ProjectType>>)
    ensures r.None? <==> NoMarker(BaseNames(files))
    ensures r.Some? ==> r.value == Collapse(Detected(BaseNames(files)))
  {
    ghost var names := BaseNames(files);
    var types: seq<ProjectType> := [];
    var i := 0;
    while i < |files|
      invariant 0 <= i <= |files|
      invariant types == Detected(names[..i])
      decreases |files| - i
    {
      DetectedSnoc(names, i);
      var name := BaseName(files[i]);
      types := types + From(name);
      i := i + 1;
    }
    assert names[..i] == names;
    DetectedEmpty(names);
    types := DedupVec(types);
    if types == [] {
      return None;
    }
    return Some(types);
  }

  /** What `get_project_types` promises beyond its definition: a non-empty
      list without equal neighbours, holding exactly the revealed types. */
  lemma ProjectTypesShape(names: seq<string>)
    requires !NoMarker(names)
    ensures var ts := Collapse(Detected(names));
            && ts != [] && NoAdjacentDup(ts)
            && forall t :: t in ts <==> exists k :: 0 <= k < |names| && t in From(names[k])
  {
    DetectedEmpty(names);
    var ds := Detected(names);
    var ts := Collapse(ds);
    CollapseNoAdjacentDup(ds);
    forall t ensures t in ts <==> exists k :: 0 <= k < |names| && t in From(names[k]) {
      DetectedMembers(names, t);
      CollapseSameElements(ds, t);
    }
  }

  lemma GoAndRustMarkers()
    ensures From("go.mod") == [Go] && From("go.sum") == [Go] && From("Cargo.toml") == [Rust]
  {
    assert "go.mod" in GoMarkers && "go.sum" in GoMarkers && "Cargo.toml" in RustMarkers;
    assert "go.mod" !in JavascriptMarkers && "go.mod" !in RustMarkers;
    assert "go.sum" !in JavascriptMarkers && "go.sum" !in RustMarkers;
    assert "Cargo.toml" !in JavascriptMarkers;
  }

  /** Only neighbouring repeats go: Go, Rust, Go detected in that order
      stays three entries ... */
  lemma DetectionKeepsSeparatedRepeats()
    ensures Collapse(Detected(["go.mod", "Cargo.toml", "go.sum"])) == [Go, Rust, Go]
  {
    GoAndRustMarkers();
    var three := ["go.mod", "Cargo.toml", "go.sum"];
    assert ["go.mod"][..0] == [];
    assert Detected(["go.mod"]) == [Go];
    assert ["go.mod", "Cargo.toml"][..1] == ["go.mod"];
    assert Detected(["go.mod", "Cargo.toml"]) == [Go, Rust];
    assert three[..2] == ["go.mod", "Cargo.toml"];
    assert Detected(three) == [Go, Rust, Go];
    CollapseKeepsSeparatedRepeats(Go, Rust);
  }

  /** ... while go.mod next to go.sum gives Go once. */
  lemma DetectionMergesNeighbours()
    ensures Collapse(Detected(["go.mod", "go.sum"])) == [Go]
  {
    GoAndRustMarkers();
    var two := ["go.mod", "go.sum"];
    assert two[..1] == ["go.mod"] && two[..1][..0] == [];
    assert Detected(two) == [Go, Go];
    assert [Go, Go][..1] == [Go];
  }

  /** The parameters of the dry scan: the ignore file's lines, and the one
      include pattern "" that every name ends with. */
  function DryParams(gitignore: seq<string>): (p: ScanParams)
    ensures p.ignored == gitignore && "" in p.included
  {
    ScanParams(gitignore, [""])
  }

  /** The dry scan includes every name, so it lists every reached file that
      is not itself ignored. */
  lemma DryScanSelectsEveryFile(gitignore: seq<string>, it: Item)
    ensures Selected(it, DryParams(gitignore)) <==>
      it.kind == IsFile && Reached(it.above, gitignore) && !CheckIgnore(it.name, gitignore)
  {
    EmptyPatternIncludesAll(it.name, DryParams(gitignore).included);
  }

  /** The post-scan part of `get_scan_params_auto`. `dry` is the dry scan's
      outcome; a failed scan counts as no files (`unwrap_or_default`). The
      types are collapsed once more (which changes nothing), the ignore list
      is the ignore file's lines, the include list the types' patterns
      concatenated in type order (the `flat_map`). */
  method ScanParamsAuto(dry: ScanResult, gitignore: seq<string>) returns (r: Option<ScanParams>)
    ensures dry.Failed? ==> r.None?
    ensures dry.Ok? ==> (r.None? <==> NoMarker(BaseNames(dry.files)))
    ensures r.Some? ==> dry.Ok? && r.value == ScanParams(gitignore, Expand(Collapse(Detected(BaseNames(dry.files)))))
  {
    var files := if dry.Ok? then dry.files else [];
    assert dry.Failed? ==> BaseNames(files) == [];
    var found := GetProjectTypes(files);
    if found.None? {
      return None;
    }
    var types := DedupVec(found.value);
    CollapseIdempotent(Detected(BaseNames(files)));
    var ignored: seq<string> := [];
    ignored := ignored + gitignore;
    var included: seq<string> := [];
    included := included + Expand(types);
    assert ignored == gitignore && included == Expand(types);
    var params := ScanParams(ignored, included);
    return Some(params);
  }

  /** The include list auto-detection produces is never empty and has no
      "" entry, so it never turns into the include-everything pattern. */
  lemma AutoIncludeIsProper(names: seq<string>)
    requires !NoMarker(names)
    ensures var inc := Expand(Collapse(Detected(names)));
            |inc| > 0 && "" !in inc
  {
    ProjectTypesShape(names);
  }

  /** `get_scan_params_manual` with its three inputs as parameters: the
      typed ignore names followed by the ignore file's lines, and the typed
      include patterns. */
  function ManualParams(ignoreLine: string, typesLine: string, gitignore: seq<string>): (p: ScanParams)
    ensures |p.ignored| == |GetIgnore(ignoreLine)| + |gitignore|
    ensures p.ignored[..|p.ignored| - |gitignore|] == GetIgnore(ignoreLine)
    ensures p.ignored[|p.ignored| - |gitignore|..] == gitignore
    ensures |p.included| == Count(typesLine, ' ') + 1
    ensures forall k :: 0 <= k < |p.included| ==> StartsWith(p.included[k], ".")
    ensures forall k :: 0 <= k < |p.included| ==> p.included[k] == Dotted(GetIgnore(typesLine)[k])
  {
    var ignored := GetIgnore(ignoreLine) + gitignore;
    assert ignored[..|ignored| - |gitignore|] == GetIgnore(ignoreLine);
    assert ignored[|ignored| - |gitignore|..] == gitignore;
    ScanParams(ignored, GetTypes(typesLine))
  }
}
