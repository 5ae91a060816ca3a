/** The directory scanner (src/dir.rs): the ignore and include tests and the
    depth-first walk that collects the paths of matching files.

    The filesystem is an abstract tree. A `Directory` lists its entries in
    the order `read_dir` yields them; `readable == false` stands for a
    `read_dir` call that fails; `BadEntry` stands for an entry the listing
    could not produce (the `entry?` error). */
module Dir {
  import opened Str

  datatype ScanParams = ScanParams(ignored: seq<string>, included: seq<string>)

  datatype Node =
    | File(name: string)
    | Directory(name: string, readable: bool, children: seq<Node>)
    | BadEntry

  /** The outcome of a scan: every collected path, or a read error (no partial list). */
  datatype ScanResult = Ok(files: seq<string>) | Failed

  /** `check_ignore`: some ignore entry equals the name exactly (no substring test). */
  function CheckIgnore(fileName: string, ignored: seq<string>): (r: bool)
    ensures r <==> fileName in ignored
    decreases |ignored|
  {
    |ignored| > 0 && (ignored[0] == fileName || CheckIgnore(fileName, ignored[1..]))
  }

  /** `check_include`: the name ends with some include pattern. */
  function CheckInclude(fileName: string, included: seq<string>): (r: bool)
    ensures r <==> exists p :: p in included && EndsWith(fileName, p)
    decreases |included|
  {
    |included| > 0 && (EndsWith(fileName, included[0]) || CheckInclude(fileName, included[1..]))
  }

  /** The empty pattern matches every name: `[""]` includes everything. */
  lemma EmptyPatternIncludesAll(fileName: string, included: seq<string>)
    requires "" in included
    ensures CheckInclude(fileName, included)
  {
    assert EndsWith(fileName, "");
  }

  /** `PathBuf::join` of a parent path and an entry name: a '/' goes between
      them unless the parent is empty or already ends with one. */
  function Join(parent: string, name: string): (r: string)
    ensures StartsWith(r, parent) && EndsWith(r, name)
    ensures |r| == |parent| + |name| || (|r| == |parent| + |name| + 1 && r[|parent|] == '/')
    ensures (parent == [] || parent[|parent| - 1] == '/') <==> |r| == |parent| + |name|
  {
    if parent == [] || parent[|parent| - 1] == '/' then parent + name else parent + "/" + name
  }

  /** The text after the last '/' of a joined path is the entry name, so
      the detection step recovers the names the scan saw. */
  lemma JoinBaseName(parent: string, name: string)
    requires '/' !in name
    ensures BaseName(Join(parent, name)) == name
  {
    if parent == [] || parent[|parent| - 1] == '/' {
      BaseNameAfterSlash(parent, name);
    } else {
      assert Join(parent, name) == (parent + "/") + name;
      BaseNameAfterSlash(parent + "/", name);
    }
  }

  /** A successful scan's paths followed by more, or the failure unchanged. */
  function Prepend(files: seq<string>, rest: ScanResult): ScanResult {
    match rest
    case Ok(more) => Ok(files + more)
    case Failed => Failed
  }

  lemma PrependPrepend(a: seq<string>, b: seq<string>, r: ScanResult)
    ensures Prepend(a, Prepend(b, r)) == Prepend(a + b, r)
  {
    if r.Ok? { assert a + (b + r.files) == (a + b) + r.files; }
  }

  /** What one pass of the `dir_helper` loop contributes for `entry`, an
      entry of the directory at path `dirname`: an error for a bad entry;
      nothing for an ignored entry (checked before the directory test, so an
      ignored directory is never listed); the subtree's files for any other
      directory; the file's path when the include test passes. */
  function Visit(dirname: string, entry: Node, params: ScanParams): ScanResult
    decreases entry, 2
  {
    match entry
    case BadEntry => Failed
    case File(n) =>
      if CheckIgnore(n, params.ignored) then Ok([])
      else if CheckInclude(n, params.included) then Ok([Join(dirname, n)])
      else Ok([])
    case Directory(n, _, _) =>
      if CheckIgnore(n, params.ignored) then Ok([])
      else Walk(Join(dirname, n), entry, params)
  }

  /** What `dir_helper(dirname, ...)` collects from the node at `dirname`;
      listing anything but a readable directory fails. */
  function Walk(dirname: string, d: Node, params: ScanParams): ScanResult
    decreases d, 1
  {
    if d.Directory? && d.readable then WalkFrom(dirname, d, 0, params) else Failed
  }

  /** The entries of directory `d` from the `i`-th on, in listing order; the
      first error ends the walk. */
  function WalkFrom(dirname: string, d: Node, i: nat, params: ScanParams): ScanResult
    requires d.Directory? && i <= |d.children|
    decreases d, 0, |d.children| - i
  {
    if i == |d.children| then Ok([])
    else
      match Visit(dirname, d.children[i], params)
      case Failed => Failed
      case Ok(here) => Prepend(here, WalkFrom(dirname, d, i + 1, params))
  }

  /** `dir_helper`: walks the directory `d` at path `dirname` in listing order,
      appending the path of every selected file to `files` (the shared
      vector, passed in and handed back). It stops at the first read error,
      and never removes or changes what `files` held before. */
  method DirHelper(dirname: string, d: Node, params: ScanParams, files: seq<string>)
    returns (ok: bool, files': seq<string>)
    ensures |files| <= |files'| && files'[..|files|] == files
    ensures ok <==> Walk(dirname, d, params).Ok?
    ensures ok ==> files' == files + Walk(dirname, d, params).files
    decreases d, 0
  {
    files' := files;
    if !(d.Directory? && d.readable) {
      return false, files';
    }
    var i := 0;
    assert files'[|files|..] == [];
    while i < |d.children|
      invariant 0 <= i <= |d.children|
      invariant |files| <= |files'| && files'[..|files|] == files
      invariant WalkFrom(dirname, d, 0, params) == Prepend(files'[|files|..], WalkFrom(dirname, d, i, params))
      decreases |d.children| - i
    {
      var entry := d.children[i];
      ghost var done := files'[|files|..];
      var entryOk, longer := VisitEntry(dirname, entry, params, files');
      if !entryOk {
        return false, longer;
      }
      ghost var here := Visit(dirname, entry, params).files;
      files' := longer;
      assert files'[|files|..] == done + here;
      PrependPrepend(done, here, WalkFrom(dirname, d, i + 1, params));
      i := i + 1;
    }
    assert files' == files + files'[|files|..];
    ok := true;
  }

  /** The body of the `dir_helper` loop for one entry. */
  method VisitEntry(dirname: string, entry: Node, params: ScanParams, files: seq<string>)
    returns (ok: bool, files': seq<string>)
    ensures |files| <= |files'| && files'[..|files|] == files
    ensures ok <==> Visit(dirname, entry, params).Ok?
    ensures ok ==> files' == files + Visit(dirname, entry, params).files
    decreases entry, 1
  {
    match entry {
      case BadEntry =>
        return false, files;
      case File(n) =>
        if CheckIgnore(n, params.ignored) {
          return true, files;
        }
        if CheckInclude(n, params.included) {
          return true, files + [Join(dirname, n)];
        }
        return true, files;
      case Directory(n, _, _) =>
        if CheckIgnore(n, params.ignored) {
          return true, files;
        }
        ok, files' := DirHelper(Join(dirname, n), entry, params, files);
    }
  }

  /** `scan_dir`: the paths collected from the root directory, or the error
      alone. The scan succeeds exactly when no reached entry faults, and then
      yields exactly the selected files, in depth-first listing order. */
  method ScanDir(dirname: string, root: Node, params: ScanParams) returns (r: ScanResult)
    ensures r.Ok? <==> root.Directory? && root.readable && Faultless(Enumerate(dirname, root), params.ignored)
    ensures r.Ok? ==> r.files == Picked(Enumerate(dirname, root), params)
  {
    var ok, files := DirHelper(dirname, root, params, []);
    WalkMatchesEnumeration(dirname, root, params);
    if ok {
      r := Ok(files);
    } else {
      r := Failed;
    }
  }

  // An independent description of the walk: every entry of the tree in
  // depth-first pre-order, each with the names of the directories above it.

  datatype Kind = IsFile | IsDirectory(readable: bool) | IsBad

  /** An entry met in the tree: its path, its name, its kind and the names
      of the directories between the scan root and the entry. */
  datatype Item = Item(path: string, name: string, kind: Kind, above: seq<string>)

  /** An entry of the directory at `dirname` followed by everything beneath
      it, whether or not anything is ignored. */
  function EntryItems(dirname: string, entry: Node, above: seq<string>): seq<Item>
    decreases entry, 1
  {
    match entry
    case BadEntry => [Item(dirname, "", IsBad, above)]
    case File(n) => [Item(Join(dirname, n), n, IsFile, above)]
    case Directory(n, readable, _) =>
      [Item(Join(dirname, n), n, IsDirectory(readable), above)]
      + (if readable then EnumFrom(Join(dirname, n), entry, 0, above + [n]) else [])
  }

  /** The entries of `d` from the `i`-th on, with everything beneath them. */
  function EnumFrom(dirname: string, d: Node, i: nat, above: seq<string>): seq<Item>
    requires d.Directory? && i <= |d.children|
    decreases d, 0, |d.children| - i
  {
    if i == |d.children| then []
    else EntryItems(dirname, d.children[i], above) + EnumFrom(dirname, d, i + 1, above)
  }

  /** Every entry reachable from the scan root. */
  function Enumerate(dirname: string, root: Node): seq<Item> {
    if root.Directory? && root.readable then EnumFrom(dirname, root, 0, []) else []
  }

  /** None of the directories above an entry is ignored. */
  predicate Reached(above: seq<string>, ignored: seq<string>) {
    forall k :: 0 <= k < |above| ==> !CheckIgnore(above[k], ignored)
  }

  /** An entry the scan collects: a file, reached, not ignored, included. */
  predicate Selected(it: Item, params: ScanParams) {
    && it.kind == IsFile
    && Reached(it.above, params.ignored)
    && !CheckIgnore(it.name, params.ignored)
    && CheckInclude(it.name, params.included)
  }

  /** An entry that aborts the scan: a listing error in a reached directory,
      or a reached, non-ignored directory that cannot be read. */
  predicate Fault(it: Item, ignored: seq<string>) {
    && Reached(it.above, ignored)
    && (it.kind == IsBad || (it.kind == IsDirectory(false) && !CheckIgnore(it.name, ignored)))
  }

  predicate Faultless(items: seq<Item>, ignored: seq<string>) {
    forall k :: 0 <= k < |items| ==> !Fault(items[k], ignored)
  }

  /** The paths of the selected entries, in order. */
  function Picked(items: seq<Item>, params: ScanParams): (r: seq<string>)
    ensures forall p :: p in r ==> exists it :: it in items && Selected(it, params) && it.path == p
    ensures forall k :: 0 <= k < |items| && Selected(items[k], params) ==> items[k].path in r
    decreases |items|
  {
    if items == [] then []
    else
      assert forall k :: 0 < k < |items| ==> items[k] == items[1..][k - 1];
      (if Selected(items[0], params) then [items[0].path] else []) + Picked(items[1..], params)
  }

  lemma {:induction false} PickedAppend(a: seq<Item>, b: seq<Item>, params: ScanParams)
    ensures Picked(a + b, params) == Picked(a, params) + Picked(b, params)
    decreases |a|
  {
    if a != [] {
      assert (a + b)[1..] == a[1..] + b;
      PickedAppend(a[1..], b, params);
    } else {
      assert a + b == b;
    }
  }

  lemma FaultlessAppend(a: seq<Item>, b: seq<Item>, ignored: seq<string>)
    ensures Faultless(a + b, ignored) <==> Faultless(a, ignored) && Faultless(b, ignored)
  {
    if Faultless(a, ignored) && Faultless(b, ignored) {
      forall k | 0 <= k < |a + b| ensures !Fault((a + b)[k], ignored) {
        if k >= |a| { assert (a + b)[k] == b[k - |a|]; }
      }
    }
    if Faultless(a + b, ignored) {
      forall k | 0 <= k < |b| ensures !Fault(b[k], ignored) {
        assert (a + b)[|a| + k] == b[k];
      }
      forall k | 0 <= k < |a| ensures !Fault(a[k], ignored) {
        assert (a + b)[k] == a[k];
      }
    }
  }

  lemma ReachedExtend(above: seq<string>, n: string, ignored: seq<string>)
    ensures Reached(above + [n], ignored) <==> Reached(above, ignored) && !CheckIgnore(n, ignored)
  {
    assert (above + [n])[|above|] == n;
    assert forall k :: 0 <= k < |above| ==> (above + [n])[k] == above[k];
  }

  /** Beneath an ignored directory nothing is selected and nothing faults:
      whatever lies there does not matter to the scan. */
  lemma {:induction false} BeneathIgnoredIsInert(dirname: string, d: Node, i: nat, above: seq<string>, params: ScanParams)
    requires d.Directory? && i <= |d.children|
    requires !Reached(above, params.ignored)
    ensures Picked(EnumFrom(dirname, d, i, above), params) == []
    ensures Faultless(EnumFrom(dirname, d, i, above), params.ignored)
    decreases d, |d.children| - i
  {
    if i < |d.children| {
      var e := d.children[i];
      var rest := EnumFrom(dirname, d, i + 1, above);
      BeneathIgnoredIsInert(dirname, d, i + 1, above, params);
      match e
      case BadEntry =>
      case File(n) =>
      case Directory(n, readable, _) =>
        var top := [Item(Join(dirname, n), n, IsDirectory(readable), above)];
        var sub := if readable then EnumFrom(Join(dirname, n), e, 0, above + [n]) else [];
        if readable {
          ReachedExtend(above, n, params.ignored);
          BeneathIgnoredIsInert(Join(dirname, n), e, 0, above + [n], params);
        }
        PickedAppend(top, sub, params);
        FaultlessAppend(top, sub, params.ignored);
      PickedAppend(EntryItems(dirname, e, above), rest, params);
      FaultlessAppend(EntryItems(dirname, e, above), rest, params.ignored);
    }
  }

  /** One entry: its contribution to the walk agrees with its items. */
  lemma {:induction false} VisitMatchesItems(dirname: string, entry: Node, above: seq<string>, params: ScanParams)
    requires Reached(above, params.ignored)
    ensures var v := Visit(dirname, entry, params);
            var items := EntryItems(dirname, entry, above);
            && (v.Ok? <==> Faultless(items, params.ignored))
            && (v.Ok? ==> v.files == Picked(items, params))
    decreases entry, 2, 0
  {
    match entry
    case BadEntry =>
      assert Fault(EntryItems(dirname, entry, above)[0], params.ignored);
    case File(n) =>
    case Directory(n, readable, _) =>
      DirectoryMatchesItems(dirname, entry, above, params);
  }

  /** A directory entry: its own item never is selected and faults only when
      it is unreadable and not ignored; what lies beneath follows the walk. */
  lemma {:induction false} DirectoryMatchesItems(dirname: string, entry: Node, above: seq<string>, params: ScanParams)
    requires entry.Directory? && Reached(above, params.ignored)
    ensures var v := Visit(dirname, entry, params);
            var items := EntryItems(dirname, entry, above);
            && (v.Ok? <==> Faultless(items, params.ignored))
            && (v.Ok? ==> v.files == Picked(items, params))
    decreases entry, 1, 0
  {
    var n := entry.name;
    var path := Join(dirname, n);
    var top := [Item(path, n, IsDirectory(entry.readable), above)];
    var sub := if entry.readable then EnumFrom(path, entry, 0, above + [n]) else [];
    assert EntryItems(dirname, entry, above) == top + sub;
    PickedAppend(top, sub, params);
    FaultlessAppend(top, sub, params.ignored);
    assert Picked(top, params) == [] by {
      assert top[1..] == [];
    }
    ReachedExtend(above, n, params.ignored);
    if entry.readable {
      assert Faultless(top, params.ignored);
      if CheckIgnore(n, params.ignored) {
        BeneathIgnoredIsInert(path, entry, 0, above + [n], params);
      } else {
        WalkFromMatchesEnumeration(path, entry, 0, above + [n], params);
      }
    } else if !CheckIgnore(n, params.ignored) {
      assert Fault(top[0], params.ignored);
    }
  }

  /** The walk from the `i`-th entry on agrees with the enumeration: it
      fails exactly when a reached entry faults, and otherwise collects
      exactly the selected entries, in pre-order. */
  lemma {:induction false} WalkFromMatchesEnumeration(dirname: string, d: Node, i: nat, above: seq<string>, params: ScanParams)
    requires d.Directory? && i <= |d.children|
    requires Reached(above, params.ignored)
    ensures var w := WalkFrom(dirname, d, i, params);
            var items := EnumFrom(dirname, d, i, above);
            && (w.Ok? <==> Faultless(items, params.ignored))
            && (w.Ok? ==> w.files == Picked(items, params))
    decreases d, 0, |d.children| - i
  {
    if i < |d.children| {
      var e := d.children[i];
      var here := EntryItems(dirname, e, above);
      var rest := EnumFrom(dirname, d, i + 1, above);
      VisitMatchesItems(dirname, e, above, params);
      WalkFromMatchesEnumeration(dirname, d, i + 1, above, params);
      PickedAppend(here, rest, params);
      FaultlessAppend(here, rest, params.ignored);
    }
  }

  /** The whole walk against the enumeration of the whole tree. */
  lemma WalkMatchesEnumeration(dirname: string, root: Node, params: ScanParams)
    ensures var w := Walk(dirname, root, params);
            var items := Enumerate(dirname, root);
            && (w.Ok? <==> root.Directory? && root.readable && Faultless(items, params.ignored))
            && (w.Ok? ==> w.files == Picked(items, params))
  {
    if root.Directory? && root.readable {
      WalkFromMatchesEnumeration(dirname, root, 0, [], params);
    }
  }

  /** A small tree: the ignored `target` directory is not entered and the
      text file is not included, so one path remains; the same tree with
      an unreadable `target` fails unless `target` is ignored. */
  lemma ScanExample()
    ensures var tree := Directory("root", true, [File("a.rs"), File("b.txt"), Directory("target", true, [File("c.rs")])]);
            Walk("root", tree, ScanParams(["target"], [".rs"])) == Ok(["root/a.rs"])
    ensures var tree := Directory("root", true, [File("a.rs"), Directory("target", false, [])]);
            && Walk("root", tree, ScanParams([], [".rs"])) == Failed
            && Walk("root", tree, ScanParams(["target"], [".rs"])) == Ok(["root/a.rs"])
  {
    assert EndsWith("a.rs", ".rs");
    assert !EndsWith("b.txt", ".rs") by { assert "b.txt"[2..] != ".rs"; }
    assert Join("root", "a.rs") == "root/a.rs";
  }
}
