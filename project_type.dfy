/** The closed set of project types, the marker files that reveal them and
    the include patterns each one stands for (src/project_type.rs). */
module ProjectTypes {
  import opened Str
  import opened Options
  import opened Vecs

  datatype ProjectType =
    | Javascript | Rust | Go | C | Cpp | Python | Java | Kotlin | Swift | Php | Ruby
    | Shell | Dart | Haskell | Scala | Perl | R | Elixir | CSharp | FSharp | Lua

  /** The `Display` text of a project type. */
  function Name(t: ProjectType): (r: string)
    ensures |r| > 0
  {
    match t
    case Javascript => "Javascript"
    case Rust => "Rust"
    case Go => "Go"
    case C => "C"
    case Cpp => "C++"
    case Python => "Python"
    case Java => "Java"
    case Kotlin => "Kotlin"
    case Swift => "Swift"
    case Php => "PHP"
    case Ruby => "Ruby"
    case Shell => "Shell"
    case Dart => "Dart"
    case Haskell => "Haskell"
    case Scala => "Scala"
    case Perl => "Perl"
    case R => "R"
    case Elixir => "Elixir"
    case CSharp => "C#"
    case FSharp => "F#"
    case Lua => "Lua"
  }

  /** Reads a display name back; used to show that no two types share a name. */
  function ParseName(s: string): Option<ProjectType> {
    if s == "Javascript" then Some(Javascript)
    else if s == "Rust" then Some(Rust)
    else if s == "Go" then Some(Go)
    else if s == "C" then Some(C)
    else if s == "C++" then Some(Cpp)
    else if s == "Python" then Some(Python)
    else if s == "Java" then Some(Java)
    else if s == "Kotlin" then Some(Kotlin)
    else if s == "Swift" then Some(Swift)
    else if s == "PHP" then Some(Php)
    else if s == "Ruby" then Some(Ruby)
    else if s == "Shell" then Some(Shell)
    else if s == "Dart" then Some(Dart)
    else if s == "Haskell" then Some(Haskell)
    else if s == "Scala" then Some(Scala)
    else if s == "Perl" then Some(Perl)
    else if s == "R" then Some(R)
    else if s == "Elixir" then Some(Elixir)
    else if s == "C#" then Some(CSharp)
    else if s == "F#" then Some(FSharp)
    else if s == "Lua" then Some(Lua)
    else None
  }

  lemma ParseNameInvertsName(t: ProjectType)
    ensures ParseName(Name(t)) == Some(t)
  {
  }

  /** The 21 display names are pairwise distinct. */
  lemma NamesDistinct(a: ProjectType, b: ProjectType)
    ensures Name(a) == Name(b) ==> a == b
  {
    ParseNameInvertsName(a);
    ParseNameInvertsName(b);
  }

  /** The marker file names of each `from` arm, in the order of the arms. */
  const JavascriptMarkers: set<string> := {"package.json", "yarn.lock", "pnpm-lock.yaml", "vite.config.js", "webpack.config.js"}
  const RustMarkers: set<string> := {"Cargo.toml", "Cargo.lock", "build.rs"}
  const GoMarkers: set<string> := {"go.mod", "go.sum"}
  const CMarkers: set<string> := {"Makefile", "config.h"}
  const CppMarkers: set<string> := {"CMakeLists.txt", ".clang-format", ".clang-tidy"}
  const PythonMarkers: set<string> := {"requirements.txt", "Pipfile", "pyproject.toml", "setup.py", "tox.ini"}
  const JavaMarkers: set<string> := {"pom.xml", "build.gradle", "settings.gradle"}
  const KotlinMarkers: set<string> := {"build.gradle.kts", "settings.gradle.kts"}
  const SwiftMarkers: set<string> := {"Package.swift", "Info.plist", ".xcodeproj", ".xcworkspace"}
  const PhpMarkers: set<string> := {"composer.json", "composer.lock"}
  const RubyMarkers: set<string> := {"Gemfile", "Gemfile.lock", "Rakefile"}
  const ShellMarkers: set<string> := {".sh", ".bashrc", ".zshrc", ".profile"}
  const DartMarkers: set<string> := {"pubspec.yaml", ".packages"}
  const HaskellMarkers: set<string> := {"stack.yaml", "cabal.project", ".ghci"}
  const ScalaMarkers: set<string> := {"build.sbt"}
  const PerlMarkers: set<string> := {"Makefile.PL"}
  const RMarkers: set<string> := {"DESCRIPTION", "NAMESPACE"}
  const ElixirMarkers: set<string> := {"mix.exs"}
  const CSharpMarkers: set<string> := {".csproj", ".sln", "app.config"}
  const FSharpMarkers: set<string> := {".fsproj"}
  const LuaMarkers: set<string> := {"init.lua", ".luacheckrc"}

  /** Every marker file name. */
  const Markers: set<string> :=
    JavascriptMarkers + RustMarkers + GoMarkers + CMarkers + CppMarkers +
    PythonMarkers + JavaMarkers + KotlinMarkers + SwiftMarkers + PhpMarkers +
    RubyMarkers + ShellMarkers + DartMarkers + HaskellMarkers + ScalaMarkers +
    PerlMarkers + RMarkers + ElixirMarkers + CSharpMarkers + FSharpMarkers +
    LuaMarkers

  /** `ProjectType::from`: the types an exact file name reveals. The build
      files of CMake and clang give C++ and then C; every other marker gives
      one type; any other name none. */
  function From(file: string): (r: seq<ProjectType>)
    ensures |r| <= 2
    ensures |r| == 2 <==> file in CppMarkers
    ensures |r| == 2 ==> r == [Cpp, C]
    ensures forall i, j :: 0 <= i < j < |r| ==> r[i] != r[j]
  {
    if file in JavascriptMarkers then [Javascript]
    else if file in RustMarkers then [Rust]
    else if file in GoMarkers then [Go]
    else if file in CMarkers then [C]
    else if file in CppMarkers then [Cpp, C]
    else if file in PythonMarkers then [Python]
    else if file in JavaMarkers then [Java]
    else if file in KotlinMarkers then [Kotlin]
    else if file in SwiftMarkers then [Swift]
    else if file in PhpMarkers then [Php]
    else if file in RubyMarkers then [Ruby]
    else if file in ShellMarkers then [Shell]
    else if file in DartMarkers then [Dart]
    else if file in HaskellMarkers then [Haskell]
    else if file in ScalaMarkers then [Scala]
    else if file in PerlMarkers then [Perl]
    else if file in RMarkers then [R]
    else if file in ElixirMarkers then [Elixir]
    else if file in CSharpMarkers then [CSharp]
    else if file in FSharpMarkers then [FSharp]
    else if file in LuaMarkers then [Lua]
    else []
  }

  /** `from` recognises exactly the marker names, compared as whole names. */
  lemma FromRecognisesExactlyMarkers(file: string)
    ensures From(file) != [] <==> file in Markers
  {
    if file in JavascriptMarkers {
    } else if file in RustMarkers {
    } else if file in GoMarkers {
    } else if file in CMarkers {
    } else if file in CppMarkers {
    } else if file in PythonMarkers {
    } else if file in JavaMarkers {
    } else if file in KotlinMarkers {
    } else if file in SwiftMarkers {
    } else if file in PhpMarkers {
    } else if file in RubyMarkers {
    } else if file in ShellMarkers {
    } else if file in DartMarkers {
    } else if file in HaskellMarkers {
    } else if file in ScalaMarkers {
    } else if file in PerlMarkers {
    } else if file in RMarkers {
    } else if file in ElixirMarkers {
    } else if file in CSharpMarkers {
    } else if file in FSharpMarkers {
    } else if file in LuaMarkers {
    } else {
      assert file !in Markers;
    }
  }

  /** Names that merely end like a marker are not markers. */
  lemma FromNeedsWholeName()
    ensures From("run.sh") == []
    ensures From("app.csproj") == []
  {
  }

  /** `get_files`: the include patterns (extensions or exact file names) of a type. */
  function GetFiles(t: ProjectType): (r: seq<string>)
    ensures |r| > 0
    ensures "" !in r
  {
    match t
    case Javascript => [
      ".ts", ".js", ".jsx", ".tsx", ".json", "package.json", "yarn.lock", "pnpm-lock.yaml",
      "vite.config.js", "webpack.config.js", ".eslintrc", ".prettierrc", ".babelrc",
      ".svelte", ".vue", ".nuxt", ".astro"]
    case Rust => [".rs", "Cargo.toml", "build.rs", ".rustfmt.toml", ".clippy.toml"]
    case Go => [".go", "go.mod", "go.sum", ".golangci.yaml", "Makefile", "Dockerfile"]
    case C => [".c", ".h", ".o", "Makefile", "config.h", "CMakeLists.txt"]
    case Cpp => [
      ".cpp", ".hpp", ".hxx", ".cxx", ".cc", ".o", "Makefile", "CMakeLists.txt",
      ".clang-format", ".clang-tidy"]
    case Python => [
      ".py", "requirements.txt", "Pipfile", "pyproject.toml", "setup.py", ".pylintrc",
      "tox.ini", "Dockerfile"]
    case Java => [".java", "pom.xml", "build.gradle", "settings.gradle", ".classpath", ".project"]
    case Kotlin => [".kt", ".kts", "build.gradle.kts", "settings.gradle.kts"]
    case Swift => [".swift", "Package.swift", "Info.plist", ".xcodeproj", ".xcworkspace"]
    case Php => [".php", "composer.json", "composer.lock", ".env"]
    case Ruby => [".rb", "Gemfile", "Gemfile.lock", "Rakefile"]
    case Shell => [".sh", ".bashrc", ".zshrc", ".profile"]
    case Dart => [".dart", "pubspec.yaml", ".packages"]
    case Haskell => [".hs", "stack.yaml", "cabal.project", ".ghci"]
    case Scala => [".scala", "build.sbt", ".sc"]
    case Perl => [".pl", ".pm", "Makefile.PL"]
    case R => [".R", "DESCRIPTION", "NAMESPACE"]
    case Elixir => [".ex", ".exs", "mix.exs"]
    case CSharp => [".cs", ".csproj", ".sln", "app.config"]
    case FSharp => [".fs", ".fsproj"]
    case Lua => [".lua", "init.lua", ".luacheckrc"]
  }

  /** The include list a sequence of types expands to: the `get_files` lists
      concatenated in type order (a `flat_map`), duplicates kept. It is
      non-empty for a non-empty sequence and never holds "". */
  function Expand(types: seq<ProjectType>): (r: seq<string>)
    ensures types != [] ==> |r| > 0
    ensures "" !in r
  {
    FlatMapMembers(types, GetFiles, "");
    FlatMap(types, GetFiles)
  }

  /** A pattern is in the expansion exactly when one of the types lists it. */
  lemma ExpandMembers(types: seq<ProjectType>, p: string)
    ensures p in Expand(types) <==> exists j :: 0 <= j < |types| && p in GetFiles(types[j])
  {
    FlatMapMembers(types, GetFiles, p);
  }

  /** The marker names of the `from` arm that yields `t` first. */
  function MarkersOf(t: ProjectType): set<string> {
    match t
    case Javascript => JavascriptMarkers
    case Rust => RustMarkers
    case Go => GoMarkers
    case C => CMarkers
    case Cpp => CppMarkers
    case Python => PythonMarkers
    case Java => JavaMarkers
    case Kotlin => KotlinMarkers
    case Swift => SwiftMarkers
    case Php => PhpMarkers
    case Ruby => RubyMarkers
    case Shell => ShellMarkers
    case Dart => DartMarkers
    case Haskell => HaskellMarkers
    case Scala => ScalaMarkers
    case Perl => PerlMarkers
    case R => RMarkers
    case Elixir => ElixirMarkers
    case CSharp => CSharpMarkers
    case FSharp => FSharpMarkers
    case Lua => LuaMarkers
  }

  /** A marker reveals, first, the type whose arm lists it. */
  lemma FromFirstTypeListsMarker(m: string)
    ensures From(m) != [] ==> m in MarkersOf(From(m)[0])
  {
    if m in JavascriptMarkers {
    } else if m in RustMarkers {
    } else if m in GoMarkers {
    } else if m in CMarkers {
    } else if m in CppMarkers {
    } else if m in PythonMarkers {
    } else if m in JavaMarkers {
    } else if m in KotlinMarkers {
    } else if m in SwiftMarkers {
    } else if m in PhpMarkers {
    } else if m in RubyMarkers {
    } else if m in ShellMarkers {
    } else if m in DartMarkers {
    } else if m in HaskellMarkers {
    } else if m in ScalaMarkers {
    } else if m in PerlMarkers {
    } else if m in RMarkers {
    } else if m in ElixirMarkers {
    } else if m in CSharpMarkers {
    } else if m in FSharpMarkers {
    } else if m in LuaMarkers {
    }
  }

  /** Each type's own markers appear among its include patterns, except "Cargo.lock". */
  lemma MarkersAmongFiles(t: ProjectType, m: string)
    requires m in MarkersOf(t) && m != "Cargo.lock"
    ensures m in GetFiles(t)
  {
  }

  /** Every marker except "Cargo.lock" is itself one of the include patterns
      of the first type it reveals, so the file that triggered the detection
      is matched by the include list detection produces. */
  lemma MarkerCoverage(m: string)
    requires m in Markers && m != "Cargo.lock"
    ensures From(m) != [] && m in GetFiles(From(m)[0])
    ensures exists p :: p in Expand(From(m)) && EndsWith(m, p)
  {
    FromRecognisesExactlyMarkers(m);
    FromFirstTypeListsMarker(m);
    var t := From(m)[0];
    MarkersAmongFiles(t, m);
    assert t in From(m);
    ExpandMembers(From(m), m);
    assert EndsWith(m, m);
  }

  /** "Cargo.lock" reveals Rust, yet no Rust pattern matches it. */
  lemma CargoLockUncovered()
    ensures From("Cargo.lock") == [Rust]
    ensures forall p :: p in Expand(From("Cargo.lock")) ==> !EndsWith("Cargo.lock", p)
  {
    assert From("Cargo.lock") == [Rust];
    assert [Rust][..0] == [];
    assert FlatMap([Rust], GetFiles) == GetFiles(Rust);
    forall p | p in GetFiles(Rust) ensures !EndsWith("Cargo.lock", p) {
    }
  }
}
