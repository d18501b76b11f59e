/** The scanner's aggregates over the tree it has built,
    internal/scanner/scanner.go: total size, directory size, file and
    directory counts, the hidden-name test used to exclude entries, and the
    assembly of the scan result. Paths use `/` as the separator. */
module Scanner {
  import opened Wrappers
  import opened FileTree

  // ---------------------------------------------------------------------------
  // Sizes

  /** `calculateTotalSize` on a node: a file's own size; a directory's
      children's totals added up, its own `Size` field not read. */
  function TotalSize(n: Node): nat
    decreases n
  {
    if n.kind == File then n.size else TotalSizeAll(n.children)
  }

  /** The children's totals added up left to right. */
  function TotalSizeAll(cs: seq<Node>): nat
    decreases cs
  {
    if cs == [] then 0 else TotalSizeAll(cs[..|cs| - 1]) + TotalSize(cs[|cs| - 1])
  }

  /** `calculateTotalSize(node)`: 0 for a nil node. */
  method CalculateTotalSize(node: Option<Node>) returns (total: nat)
    ensures node.None? ==> total == 0
    ensures node.Some? ==> total == TotalSize(node.value)
  {
    if node.None? {
      return 0;
    }
    total := SubtreeTotalSize(node.value);
  }

  /** The recursion of `calculateTotalSize` below the nil check (the
      scanner never puts a nil child into `Children`). */
  method SubtreeTotalSize(n: Node) returns (total: nat)
    decreases n
    ensures total == TotalSize(n)
  {
    if n.kind == File {
      return n.size;
    }
    total := 0;
    var i := 0;
    while i < |n.children|
      invariant 0 <= i <= |n.children|
      invariant total == TotalSizeAll(n.children[..i])
    {
      var t := SubtreeTotalSize(n.children[i]);
      assert n.children[..i + 1][..i] == n.children[..i];
      total := total + t;
      i := i + 1;
    }
    assert n.children[..|n.children|] == n.children;
  }

  /** `calculateDirectorySize`: the direct children's `Size` fields added up. */
  method CalculateDirectorySize(n: Node) returns (total: nat)
    ensures total == SumOfSizes(n.children)
    ensures forall c :: c in n.children ==> c.size <= total
  {
    total := 0;
    var i := 0;
    while i < |n.children|
      invariant 0 <= i <= |n.children|
      invariant total == SumOfSizes(n.children[..i])
    {
      assert n.children[..i + 1][..i] == n.children[..i];
      total := total + n.children[i].size;
      i := i + 1;
    }
    assert n.children[..|n.children|] == n.children;
    SizesBoundedBySum(n.children);
  }

  /** No node of a sequence is larger than the sum of all their sizes. */
  lemma {:induction false} SizesBoundedBySum(cs: seq<Node>)
    ensures forall c :: c in cs ==> c.size <= SumOfSizes(cs)
    decreases |cs|
  {
    if cs != [] {
      SizesBoundedBySum(cs[..|cs| - 1]);
      assert forall c :: c in cs ==> c in cs[..|cs| - 1] || c == cs[|cs| - 1];
    }
  }

  /** The shape `scanDirectory` builds: files have no children and carry
      their own size; each directory's `Size` is `calculateDirectorySize`
      of its finished children. */
  predicate ScannerBuilt(n: Node)
    decreases n
  {
    (n.kind == File ==> n.children == []) &&
    (n.kind == Directory ==> n.size == SumOfSizes(n.children)) &&
    forall c :: c in n.children ==> ScannerBuilt(c)
  }

  /** On a tree the scanner built, the recomputed total is the root's own
      size. */
  lemma {:induction false} TotalSizeIsRootSize(n: Node)
    requires ScannerBuilt(n)
    ensures TotalSize(n) == n.size
    decreases n, 1
  {
    if n.kind == Directory {
      TotalSizeAllIsSum(n.children);
    }
  }

  lemma {:induction false} TotalSizeAllIsSum(cs: seq<Node>)
    requires forall c :: c in cs ==> ScannerBuilt(c)
    ensures TotalSizeAll(cs) == SumOfSizes(cs)
    decreases cs, 0
  {
    if cs != [] {
      TotalSizeAllIsSum(cs[..|cs| - 1]);
      TotalSizeIsRootSize(cs[|cs| - 1]);
    }
  }

  /** Trees the scanner built have childless files. */
  lemma {:induction false} ScannerBuiltFilesChildless(n: Node)
    requires ScannerBuilt(n)
    ensures FilesChildless(n)
    decreases n
  {
    forall c | c in n.children
      ensures FilesChildless(c)
    {
      ScannerBuiltFilesChildless(c);
    }
  }

  // ---------------------------------------------------------------------------
  // Counts

  /** `calculateCounts(node)`: (0, 0) for a nil node, otherwise the counting
      rule `Tally` (a file is one file; a directory is one directory plus its
      children's counts). */
  method CalculateCounts(node: Option<Node>) returns (files: nat, directories: nat)
    ensures node.None? ==> files == 0 && directories == 0
    ensures node.Some? ==> Counts(files, directories) == Tally(node.value)
  {
    if node.None? {
      return 0, 0;
    }
    files, directories := SubtreeCounts(node.value);
  }

  /** The recursion of `calculateCounts` below the nil check. */
  method SubtreeCounts(n: Node) returns (files: nat, directories: nat)
    decreases n
    ensures Counts(files, directories) == Tally(n)
  {
    if n.kind == File {
      return 1, 0;
    }
    files, directories := 0, 1;
    var i := 0;
    while i < |n.children|
      invariant 0 <= i <= |n.children|
      invariant files == TallyAll(n.children[..i]).files
      invariant directories == TallyAll(n.children[..i]).dirs + 1
    {
      var childFiles, childDirs := SubtreeCounts(n.children[i]);
      TallyAllStep(n.children, i);
      files := files + childFiles;
      directories := directories + childDirs;
      i := i + 1;
    }
    TallyAllWhole(n.children);
  }

  /** Files plus directories is the number of nodes, the root included. */
  lemma CountsAreNodeCount(n: Node)
    requires FilesChildless(n)
    ensures Tally(n).files + Tally(n).dirs == NodeCount(n)
    ensures n.kind == Directory ==> Tally(n).dirs >= 1
  {
    TallyIsNodeCount(n);
  }

  // ---------------------------------------------------------------------------
  // Hidden entries

  /** `path` without its trailing separators. */
  function TrimTrailingSlashes(path: string): (r: string)
    ensures |r| <= |path| && r == path[..|r|]
    ensures r == [] || r[|r| - 1] != '/'
    ensures forall i :: |r| <= i < |path| ==> path[i] == '/'
  {
    if path != [] && path[|path| - 1] == '/' then TrimTrailingSlashes(path[..|path| - 1]) else path
  }

  /** The part of `path` after its last separator (all of it without one). */
  function AfterLastSlash(path: string): (r: string)
    ensures |r| <= |path| && r == path[|path| - |r|..]
    ensures '/' !in r
    ensures |r| < |path| ==> path[|path| - |r| - 1] == '/'
  {
    if path == [] || path[|path| - 1] == '/' then []
    else AfterLastSlash(path[..|path| - 1]) + [path[|path| - 1]]
  }

  /** `filepath.Base`: "." for the empty path; otherwise trailing separators
      are dropped, and what follows the last separator is kept; "/" when
      nothing is left. */
  function Base(path: string): (r: string)
    ensures r != []
    ensures path != [] && r != "/" ==> '/' !in r
  {
    if path == [] then "."
    else
      var t := TrimTrailingSlashes(path);
      if t == [] then "/" else AfterLastSlash(t)
  }

  /** `isHidden`: the base name starts with a dot. */
  predicate IsHidden(path: string)
  {
    var name := Base(path);
    |name| > 0 && name[0] == '.'
  }

  /** The base name of `dir/name` is `name`, for a non-empty name without
      separators. */
  lemma BaseOfEntry(dir: string, name: string)
    requires name != [] && '/' !in name
    ensures Base(dir + "/" + name) == name
  {
    var p := dir + "/" + name;
    assert TrimTrailingSlashes(p) == p by {
      assert p[|p| - 1] == name[|name| - 1];
    }
    AfterSlashOfEntry(dir, name);
  }

  lemma {:induction false} AfterSlashOfEntry(dir: string, name: string)
    requires '/' !in name
    ensures AfterLastSlash(dir + "/" + name) == name
    decreases |name|
  {
    var p := dir + "/" + name;
    if name != [] {
      var init := name[..|name| - 1];
      assert p[..|p| - 1] == dir + "/" + init;
      AfterSlashOfEntry(dir, init);
      assert name == init + [name[|name| - 1]];
    }
  }

  /** An entry `dir/name` is hidden exactly when its name starts with a dot. */
  lemma EntryHiddenByName(dir: string, name: string)
    requires name != [] && '/' !in name
    ensures IsHidden(dir + "/" + name) <==> name[0] == '.'
  {
    BaseOfEntry(dir, name);
  }

  /** Trailing separators do not change whether a path is hidden. */
  lemma TrailingSlashIgnored(path: string)
    requires path != []
    ensures Base(path + "/") == Base(path)
    ensures IsHidden(path + "/") <==> IsHidden(path)
  {
    var p := path + "/";
    assert p[..|p| - 1] == path;
  }

  /** `shouldExclude(path, name)`: hidden entries are dropped unless
      `showHiddenFiles` is set, then any exclude pattern that `matches` the
      entry's name (the glob matcher `filepath.Match`, taken as given; a
      malformed pattern counts as no match). */
  function ShouldExclude(showHiddenFiles: bool, patterns: seq<string>, matches: (string, string) -> bool,
                         path: string, name: string): (r: bool)
    ensures !showHiddenFiles && IsHidden(path) ==> r
    ensures r <==> (!showHiddenFiles && IsHidden(path)) ||
                   exists i :: 0 <= i < |patterns| && matches(patterns[i], name)
  {
    (!showHiddenFiles && IsHidden(path)) || AnyPatternMatches(patterns, matches, name)
  }

  /** The loop over `ExcludePatterns`, from the first pattern on. */
  function AnyPatternMatches(patterns: seq<string>, matches: (string, string) -> bool, name: string): (r: bool)
    ensures r <==> exists i :: 0 <= i < |patterns| && matches(patterns[i], name)
  {
    if patterns == [] then false
    else if matches(patterns[0], name) then true
    else
      assert forall i :: 1 <= i < |patterns| ==> patterns[i] == patterns[1..][i - 1];
      AnyPatternMatches(patterns[1..], matches, name)
  }

  /** With hidden files off, an entry whose name starts with a dot is never
      kept, whatever the patterns. */
  lemma HiddenEntriesExcluded(patterns: seq<string>, matches: (string, string) -> bool,
                              dir: string, name: string)
    requires name != [] && '/' !in name && name[0] == '.'
    ensures ShouldExclude(false, patterns, matches, dir + "/" + name, name)
  {
    EntryHiddenByName(dir, name);
  }

  /** With hidden files on, only the patterns decide. */
  lemma ShownHiddenOnlyPatterns(patterns: seq<string>, matches: (string, string) -> bool,
                                path: string, name: string)
    ensures ShouldExclude(true, patterns, matches, path, name) <==>
            exists i :: 0 <= i < |patterns| && matches(patterns[i], name)
  {
  }

  // ---------------------------------------------------------------------------
  // The scan result

  /** The end of `ScanPath`: the result carries the root, the
      recomputed total size and the counts, with the clock readings taken as
      inputs. On a tree the scanner built, the total is the root's size and
      the counts add up to the number of nodes. */
  method AssembleResult(root: Option<Node>, scanTime: int, scanDurationMs: int) returns (r: ScanResult)
    ensures r.root == root && r.scanTime == scanTime && r.scanDurationMs == scanDurationMs
    ensures root.None? ==> r.totalSize == 0 && r.totalFiles == 0 && r.totalDirectories == 0
    ensures root.Some? ==> r.totalSize == TotalSize(root.value) &&
                           Counts(r.totalFiles, r.totalDirectories) == Tally(root.value)
    ensures root.Some? && ScannerBuilt(root.value) ==>
              r.totalSize == root.value.size &&
              r.totalFiles + r.totalDirectories == NodeCount(root.value)
  {
    var totalSize := CalculateTotalSize(root);
    var files, directories := CalculateCounts(root);
    r := ScanResult(root, totalSize, files, directories, scanTime, scanDurationMs);
    if root.Some? && ScannerBuilt(root.value) {
      TotalSizeIsRootSize(root.value);
      ScannerBuiltFilesChildless(root.value);
      CountsAreNodeCount(root.value);
    }
  }
}
