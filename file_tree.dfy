/** The file tree shared by the scanner (Go) and the frontend (TypeScript):
    `FileNode` and `ScanResult` of internal/models/file.go, mirrored by the
    generated frontend/wailsjs/go/models.ts. */
module FileTree {
  import opened Wrappers

  /** The `type` field: "file" or "directory". */
  datatype Kind = File | Directory

  /** One file or directory. `id` is opaque (a hash of the path in the
      scanner); a missing `children` array is the empty sequence. */
  datatype Node = Node(
    id: string,
    name: string,
    path: string,
    size: nat,
    kind: Kind,
    children: seq<Node>,
    isHidden: bool)

  /** What one scan returns to the frontend. */
  datatype ScanResult = ScanResult(
    root: Option<Node>,
    totalSize: nat,
    totalFiles: nat,
    totalDirectories: nat,
    scanTime: int,
    scanDurationMs: int)

  /** Pre-order listing: the node, then each child's listing left to right. */
  function PreOrder(n: Node): (r: seq<Node>)
    decreases n
    ensures |r| >= 1 && r[0] == n
  {
    [n] + PreOrderAll(n.children)
  }

  function PreOrderAll(cs: seq<Node>): seq<Node>
    decreases cs
  {
    if cs == [] then [] else PreOrder(cs[0]) + PreOrderAll(cs[1..])
  }

  /** Number of nodes in the subtree, the node itself included. */
  function NodeCount(n: Node): nat
  {
    |PreOrder(n)|
  }

  /** Appending one more child appends its listing. */
  lemma {:induction false} PreOrderAllSnoc(cs: seq<Node>, c: Node)
    ensures PreOrderAll(cs + [c]) == PreOrderAll(cs) + PreOrder(c)
    decreases |cs|
  {
    if cs == [] {
      assert [c][1..] == [];
    } else {
      assert (cs + [c])[1..] == cs[1..] + [c];
      PreOrderAllSnoc(cs[1..], c);
    }
  }

  /** A file never carries children (true of every tree the scanner builds). */
  predicate FilesChildless(n: Node)
    decreases n
  {
    (n.kind == File ==> n.children == []) &&
    forall c :: c in n.children ==> FilesChildless(c)
  }

  /** Identifiers are unique across the whole tree, not merely among siblings. */
  ghost predicate UniqueIds(n: Node)
  {
    var s := PreOrder(n);
    forall i, j :: 0 <= i < |s| && 0 <= j < |s| && s[i].id == s[j].id ==> i == j
  }

  /** Number of entries of one kind. */
  function CountKind(s: seq<Node>, k: Kind): (r: nat)
    ensures r <= |s|
  {
    if s == [] then 0 else (if s[0].kind == k then 1 else 0) + CountKind(s[1..], k)
  }

  lemma {:induction false} CountKindAppend(a: seq<Node>, b: seq<Node>, k: Kind)
    ensures CountKind(a + b, k) == CountKind(a, k) + CountKind(b, k)
    decreases |a|
  {
    if a == [] {
      assert a + b == b;
    } else {
      assert (a + b)[1..] == a[1..] + b;
      CountKindAppend(a[1..], b, k);
    }
  }

  /** The `size` fields of a sequence of nodes added up left to right. */
  function SumOfSizes(cs: seq<Node>): nat
  {
    if cs == [] then 0 else SumOfSizes(cs[..|cs| - 1]) + cs[|cs| - 1].size
  }

  lemma {:induction false} SumOfSizesAppend(a: seq<Node>, b: seq<Node>)
    ensures SumOfSizes(a + b) == SumOfSizes(a) + SumOfSizes(b)
    decreases |b|
  {
    if b == [] {
      assert a + b == a;
    } else {
      assert (a + b)[..|a + b| - 1] == a + b[..|b| - 1];
      SumOfSizesAppend(a, b[..|b| - 1]);
    }
  }

  /** The nodes of positive size, order kept (`filter((child) => child.size > 0)`). */
  function NonEmpty(cs: seq<Node>): (r: seq<Node>)
    ensures |r| <= |cs|
    ensures forall c :: c in r ==> c in cs && c.size > 0
    ensures forall c :: c in cs && c.size > 0 ==> c in r
  {
    if cs == [] then []
    else if cs[0].size > 0 then [cs[0]] + NonEmpty(cs[1..])
    else NonEmpty(cs[1..])
  }

  lemma {:induction false} NonEmptyAppend(a: seq<Node>, b: seq<Node>)
    ensures NonEmpty(a + b) == NonEmpty(a) + NonEmpty(b)
    decreases |a|
  {
    if a == [] {
      assert a + b == b;
    } else {
      assert (a + b)[1..] == a[1..] + b;
      NonEmptyAppend(a[1..], b);
    }
  }

  /** The last node is kept exactly when it is non-empty. */
  lemma NonEmptySnoc(cs: seq<Node>)
    requires cs != []
    ensures NonEmpty(cs) == NonEmpty(cs[..|cs| - 1]) + (if cs[|cs| - 1].size > 0 then [cs[|cs| - 1]] else [])
  {
    var init, c := cs[..|cs| - 1], cs[|cs| - 1];
    assert cs == init + [c];
    NonEmptyAppend(init, [c]);
    NonEmptySingle(c);
  }

  lemma NonEmptySingle(c: Node)
    ensures NonEmpty([c]) == if c.size > 0 then [c] else []
  {
    assert [c][1..] == [];
  }

  /** File and directory counters. */
  datatype Counts = Counts(files: nat, dirs: nat)
  {
    function Plus(other: Counts): Counts
    {
      Counts(files + other.files, dirs + other.dirs)
    }
  }

  /** The counting rule both sources apply to one node: a file counts as one
      file and is not descended into; a directory counts as one directory
      plus whatever its children count. */
  function Tally(n: Node): Counts
    decreases n
  {
    if n.kind == File then Counts(1, 0)
    else TallyAll(n.children).Plus(Counts(0, 1))
  }

  /** The children's counts added up left to right. */
  function TallyAll(cs: seq<Node>): Counts
    decreases cs
  {
    if cs == [] then Counts(0, 0)
    else TallyAll(cs[..|cs| - 1]).Plus(Tally(cs[|cs| - 1]))
  }

  /** One more child adds its own count to the prefix's. */
  lemma TallyAllStep(cs: seq<Node>, i: nat)
    requires i < |cs|
    ensures TallyAll(cs[..i + 1]) == TallyAll(cs[..i]).Plus(Tally(cs[i]))
  {
    assert cs[..i + 1][..i] == cs[..i];
  }

  /** The whole sequence as a prefix of itself. */
  lemma TallyAllWhole(cs: seq<Node>)
    ensures TallyAll(cs[..|cs|]) == TallyAll(cs)
  {
    assert cs[..|cs|] == cs;
  }

  /** In a tree whose files are childless the counting rule counts every
      node exactly once, by its kind. */
  lemma {:induction false} TallyCountsKinds(n: Node)
    requires FilesChildless(n)
    ensures Tally(n) == Counts(CountKind(PreOrder(n), File), CountKind(PreOrder(n), Directory))
    decreases n, 1
  {
    CountKindAppend([n], PreOrderAll(n.children), File);
    CountKindAppend([n], PreOrderAll(n.children), Directory);
    if n.kind == Directory {
      TallyAllCountsKinds(n.children);
    }
  }

  lemma {:induction false} TallyAllCountsKinds(cs: seq<Node>)
    requires forall c :: c in cs ==> FilesChildless(c)
    ensures TallyAll(cs) == Counts(CountKind(PreOrderAll(cs), File), CountKind(PreOrderAll(cs), Directory))
    decreases cs, 0
  {
    if cs != [] {
      var init, last := cs[..|cs| - 1], cs[|cs| - 1];
      assert cs == init + [last];
      TallyAllCountsKinds(init);
      TallyCountsKinds(last);
      PreOrderAllSnoc(init, last);
      CountKindAppend(PreOrderAll(init), PreOrder(last), File);
      CountKindAppend(PreOrderAll(init), PreOrder(last), Directory);
    }
  }

  /** Files plus directories is the number of nodes, when files are childless. */
  lemma TallyIsNodeCount(n: Node)
    requires FilesChildless(n)
    ensures Tally(n).files + Tally(n).dirs == NodeCount(n)
  {
    TallyCountsKinds(n);
    KindsPartition(PreOrder(n));
  }

  lemma {:induction false} KindsPartition(s: seq<Node>)
    ensures CountKind(s, File) + CountKind(s, Directory) == |s|
  {
    if s != [] {
      KindsPartition(s[1..]);
    }
  }
}
