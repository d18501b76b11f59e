/** Tree queries and the removal edit of frontend/src/utils/fileOperations.ts:
    node statistics, lookup by id, the breadcrumb path and pruning. */
module FileOperations {
  import opened Wrappers
  import opened FileTree

  /** What `calculateNodeStats` returns. */
  datatype NodeStats = NodeStats(totalFiles: nat, totalDirs: nat, totalSize: nat)

  // ---------------------------------------------------------------------------
  // calculateNodeStats

  /** The closure `traverse`: bumps the directory counter and descends, or
      bumps the file counter; the counters are threaded in and out. */
  method Traverse(n: Node, files: nat, dirs: nat) returns (files': nat, dirs': nat)
    decreases n
    ensures files' == files + Tally(n).files
    ensures dirs' == dirs + Tally(n).dirs
  {
    if n.kind == File {
      return files + 1, dirs;
    }
    files', dirs' := files, dirs + 1;
    var i := 0;
    while i < |n.children|
      invariant 0 <= i <= |n.children|
      invariant files' == files + TallyAll(n.children[..i]).files
      invariant dirs' == dirs + 1 + TallyAll(n.children[..i]).dirs
    {
      TallyAllStep(n.children, i);
      files', dirs' := Traverse(n.children[i], files', dirs');
      i := i + 1;
    }
    TallyAllWhole(n.children);
  }

  /** Counts the descendants of `node` (the node itself is not counted) and
      reports its own `size` field as the total size. */
  method CalculateNodeStats(node: Option<Node>) returns (stats: NodeStats)
    ensures node.None? ==> stats == NodeStats(0, 0, 0)
    ensures node.Some? ==> stats.totalSize == node.value.size
    ensures node.Some? ==> Counts(stats.totalFiles, stats.totalDirs) == TallyAll(node.value.children)
    ensures node.Some? && node.value.children == [] ==> stats == NodeStats(0, 0, node.value.size)
  {
    if node.None? {
      return NodeStats(0, 0, 0);
    }
    var n := node.value;
    var totalFiles, totalDirs := 0, 0;
    var totalSize := n.size;
    var i := 0;
    while i < |n.children|
      invariant 0 <= i <= |n.children|
      invariant totalFiles == TallyAll(n.children[..i]).files
      invariant totalDirs == TallyAll(n.children[..i]).dirs
    {
      TallyAllStep(n.children, i);
      totalFiles, totalDirs := Traverse(n.children[i], totalFiles, totalDirs);
      i := i + 1;
    }
    TallyAllWhole(n.children);
    stats := NodeStats(totalFiles, totalDirs, totalSize);
  }

  /** When files are childless, the statistics count every descendant once
      by kind, and files plus directories is the number of descendants. */
  lemma {:induction false} NodeStatsCountDescendants(n: Node)
    requires FilesChildless(n)
    ensures TallyAll(n.children).files == CountKind(PreOrder(n)[1..], File)
    ensures TallyAll(n.children).dirs == CountKind(PreOrder(n)[1..], Directory)
    ensures TallyAll(n.children).files + TallyAll(n.children).dirs == NodeCount(n) - 1
  {
    TallyAllCountsKinds(n.children);
    assert PreOrder(n)[1..] == PreOrderAll(n.children);
    KindsPartition(PreOrderAll(n.children));
  }

  // ---------------------------------------------------------------------------
  // findNodeById

  /** The first entry of `s` carrying `id`. */
  function FirstWithId(s: seq<Node>, id: string): (r: Option<Node>)
    ensures r.Some? ==> r.value.id == id && r.value in s
    ensures r.None? <==> forall x :: x in s ==> x.id != id
  {
    if s == [] then None
    else if s[0].id == id then Some(s[0])
    else FirstWithId(s[1..], id)
  }

  lemma {:induction false} FirstWithIdAppend(a: seq<Node>, b: seq<Node>, id: string)
    ensures FirstWithId(a + b, id) ==
            (if FirstWithId(a, id).Some? then FirstWithId(a, id) else FirstWithId(b, id))
    decreases |a|
  {
    if a == [] {
      assert a + b == b;
    } else {
      assert (a + b)[1..] == a[1..] + b;
      FirstWithIdAppend(a[1..], b, id);
    }
  }

  /** Pre-order depth-first search: the node, then each child's subtree in turn. */
  function Find(n: Node, id: string): (r: Option<Node>)
    decreases n
    ensures r.Some? ==> r.value.id == id && r.value in PreOrder(n)
    ensures r.None? <==> forall x :: x in PreOrder(n) ==> x.id != id
  {
    if n.id == id then Some(n) else FindIn(n.children, id)
  }

  /** The `for ... of` loop over the children with its early return. */
  function FindIn(cs: seq<Node>, id: string): (r: Option<Node>)
    decreases cs
    ensures r.Some? ==> r.value.id == id && r.value in PreOrderAll(cs)
    ensures r.None? <==> forall x :: x in PreOrderAll(cs) ==> x.id != id
  {
    if cs == [] then None
    else match Find(cs[0], id)
      case Some(found) => Some(found)
      case None => FindIn(cs[1..], id)
  }

  /** `findNodeById`: a null root finds nothing. */
  function FindNodeById(root: Option<Node>, targetId: string): (r: Option<Node>)
    ensures root.None? ==> r.None?
    ensures root.Some? && root.value.id == targetId ==> r == root
    ensures r.Some? ==> r.value.id == targetId && r.value in PreOrder(root.value)
    ensures root.Some? && r.None? ==> forall x :: x in PreOrder(root.value) ==> x.id != targetId
  {
    if root.None? then None else Find(root.value, targetId)
  }

  /** The search returns exactly the first pre-order node carrying the id. */
  lemma {:induction false} FindIsFirstInPreOrder(n: Node, id: string)
    ensures Find(n, id) == FirstWithId(PreOrder(n), id)
    decreases n, 1
  {
    FirstWithIdAppend([n], PreOrderAll(n.children), id);
    FindInIsFirstInPreOrder(n.children, id);
  }

  lemma {:induction false} FindInIsFirstInPreOrder(cs: seq<Node>, id: string)
    ensures FindIn(cs, id) == FirstWithId(PreOrderAll(cs), id)
    decreases cs, 0
  {
    if cs != [] {
      FindIsFirstInPreOrder(cs[0], id);
      FindInIsFirstInPreOrder(cs[1..], id);
      FirstWithIdAppend(PreOrder(cs[0]), PreOrderAll(cs[1..]), id);
    }
  }

  /** With unique ids, any node of the tree is found by its own id. */
  lemma FindUnique(n: Node, x: Node)
    requires UniqueIds(n)
    requires x in PreOrder(n)
    ensures Find(n, x.id) == Some(x)
  {
    FindIsFirstInPreOrder(n, x.id);
    var s := PreOrder(n);
    var r := FirstWithId(s, x.id);
    var i :| 0 <= i < |s| && s[i] == x;
    var j :| 0 <= j < |s| && s[j] == r.value;
    assert s[i].id == s[j].id;
  }

  // ---------------------------------------------------------------------------
  // buildBreadcrumbPath

  /** Each node of `p` is a child of the one before it. */
  predicate IsChain(p: seq<Node>)
  {
    forall i :: 1 <= i < |p| ==> p[i] in p[i - 1].children
  }

  /** Root-to-target path found by the same pre-order search as `Find`. */
  function PathTo(n: Node, id: string): (r: Option<seq<Node>>)
    decreases n
    ensures r.Some? ==> |r.value| >= 1 && r.value[0] == n && r.value[|r.value| - 1].id == id
    ensures r.Some? ==> IsChain(r.value)
  {
    if n.id == id then Some([n])
    else match PathIn(n.children, id)
      case Some(p) => Some([n] + p)
      case None => None
  }

  function PathIn(cs: seq<Node>, id: string): (r: Option<seq<Node>>)
    decreases cs
    ensures r.Some? ==> |r.value| >= 1 && r.value[0] in cs && r.value[|r.value| - 1].id == id
    ensures r.Some? ==> IsChain(r.value)
  {
    if cs == [] then None
    else match PathTo(cs[0], id)
      case Some(p) => Some(p)
      case None => PathIn(cs[1..], id)
  }

  /** The closure `findPath`. In the source every call shares one `path`
      array: the target is pushed, then each ancestor is unshifted on the way
      back out; here each call returns the part of the path it built. */
  method FindPath(node: Node, targetId: string) returns (found: bool, path: seq<Node>)
    decreases node
    ensures found == PathTo(node, targetId).Some?
    ensures path == if found then PathTo(node, targetId).value else []
  {
    if node.id == targetId {
      return true, [node];
    }
    var i := 0;
    while i < |node.children|
      invariant 0 <= i <= |node.children|
      invariant PathIn(node.children, targetId) == PathIn(node.children[i..], targetId)
    {
      var f, p := FindPath(node.children[i], targetId);
      if f {
        return true, [node] + p;
      }
      assert node.children[i..][1..] == node.children[i + 1..];
      i := i + 1;
    }
    return false, [];
  }

  /** `buildBreadcrumbPath`: root-to-target nodes, or empty when the root is
      null or no node carries the id. */
  method BuildBreadcrumbPath(root: Option<Node>, targetId: string) returns (path: seq<Node>)
    ensures root.None? ==> path == []
    ensures root.Some? ==> path == match PathTo(root.value, targetId)
                                   case Some(p) => p
                                   case None => []
  {
    if root.None? {
      return [];
    }
    var found;
    found, path := FindPath(root.value, targetId);
  }

  /** The breadcrumb search and the lookup agree: a path exists exactly when
      the lookup succeeds, and it ends at the node the lookup returns. */
  lemma {:induction false} PathEndsAtFound(n: Node, id: string)
    ensures PathTo(n, id).Some? <==> Find(n, id).Some?
    ensures PathTo(n, id).Some? ==> Find(n, id) == Some(Last(PathTo(n, id).value))
    decreases n, 1
  {
    if n.id != id {
      PathInEndsAtFound(n.children, id);
    }
  }

  lemma {:induction false} PathInEndsAtFound(cs: seq<Node>, id: string)
    ensures PathIn(cs, id).Some? <==> FindIn(cs, id).Some?
    ensures PathIn(cs, id).Some? ==> FindIn(cs, id) == Some(Last(PathIn(cs, id).value))
    decreases cs, 0
  {
    if cs != [] {
      PathEndsAtFound(cs[0], id);
      PathInEndsAtFound(cs[1..], id);
    }
  }

  /** Every node of a chain that starts at `n` lies in the subtree of `n`. */
  lemma {:induction false} ChainInSubtree(n: Node, p: seq<Node>, k: nat)
    requires |p| >= 1 && p[0] == n && IsChain(p)
    requires k < |p|
    ensures p[k] in PreOrder(n)
    decreases k
  {
    if k > 0 {
      ChainInSubtree(n, p, k - 1);
      ChildInSubtree(p[k - 1], p[k]);
      SubtreeTransitive(n, p[k - 1], p[k]);
    }
  }

  lemma ChildInSubtree(parent: Node, c: Node)
    requires c in parent.children
    ensures c in PreOrder(parent)
  {
    ChildListed(parent.children, c);
  }

  lemma {:induction false} ChildListed(cs: seq<Node>, c: Node)
    requires c in cs
    ensures c in PreOrderAll(cs)
    decreases cs
  {
    if cs[0] != c {
      ChildListed(cs[1..], c);
    }
  }

  /** Being in a subtree is transitive. */
  lemma {:induction false} SubtreeTransitive(a: Node, b: Node, c: Node)
    requires b in PreOrder(a) && c in PreOrder(b)
    ensures c in PreOrder(a)
    decreases a, 1
  {
    if b != a {
      SubtreeTransitiveAll(a.children, b, c);
    }
  }

  lemma {:induction false} SubtreeTransitiveAll(cs: seq<Node>, b: Node, c: Node)
    requires b in PreOrderAll(cs) && c in PreOrder(b)
    ensures c in PreOrderAll(cs)
    decreases cs, 0
  {
    if b in PreOrder(cs[0]) {
      SubtreeTransitive(cs[0], b, c);
    } else {
      SubtreeTransitiveAll(cs[1..], b, c);
    }
  }

  function Last(p: seq<Node>): Node
    requires p != []
  {
    p[|p| - 1]
  }

  // ---------------------------------------------------------------------------
  // filterNodeById

  /** `filterNodeById`: a node that itself carries the id is returned as it
      is; otherwise a copy with the same fields whose children are the
      children not carrying the id (`filter`), each pruned in turn (`map`). */
  function Prune(n: Node, id: string): (r: Node)
    decreases n
    ensures n.id == id ==> r == n
    ensures r.id == n.id && r.name == n.name && r.path == n.path
    ensures r.size == n.size && r.kind == n.kind && r.isHidden == n.isHidden
  {
    if n.id == id then n else n.(children := PruneChildren(n.children, id))
  }

  /** The `filter(...).map(...)` over the children, fused into one pass. */
  function PruneChildren(cs: seq<Node>, id: string): (r: seq<Node>)
    decreases cs
    ensures |r| <= |cs|
    ensures Ids(r) == WithoutId(Ids(cs), id)
  {
    if cs == [] then []
    else if cs[0].id == id then PruneChildren(cs[1..], id)
    else [Prune(cs[0], id)] + PruneChildren(cs[1..], id)
  }

  /** Each surviving child is one of the children not carrying the id,
      pruned in turn: what the `map` step does to what `filter` kept. */
  lemma {:induction false} PruneChildrenEach(cs: seq<Node>, id: string)
    decreases |cs|
    ensures forall i :: 0 <= i < |PruneChildren(cs, id)| ==>
              exists j :: 0 <= j < |cs| && cs[j].id != id && PruneChildren(cs, id)[i] == Prune(cs[j], id)
  {
    if cs != [] {
      PruneChildrenEach(cs[1..], id);
      var rest := PruneChildren(cs[1..], id);
      var r := PruneChildren(cs, id);
      forall i | 0 <= i < |r|
        ensures exists j :: 0 <= j < |cs| && cs[j].id != id && r[i] == Prune(cs[j], id)
      {
        if cs[0].id != id && i == 0 {
          assert r[0] == Prune(cs[0], id);
        } else {
          var k := if cs[0].id == id then i else i - 1;
          assert r[i] == rest[k];
          var j :| 0 <= j < |cs[1..]| && cs[1..][j].id != id && rest[k] == Prune(cs[1..][j], id);
          assert cs[j + 1] == cs[1..][j];
        }
      }
      assert r == PruneChildren(cs, id);
    } else {
      assert PruneChildren(cs, id) == [];
    }
  }

  /** The ids of a sequence of nodes, in order. */
  function Ids(cs: seq<Node>): (r: seq<string>)
    ensures |r| == |cs|
  {
    if cs == [] then [] else [cs[0].id] + Ids(cs[1..])
  }

  /** `ids` with every occurrence of `id` dropped, order kept. */
  function WithoutId(ids: seq<string>, id: string): (r: seq<string>)
    ensures id !in r
    ensures forall x :: x in r ==> x in ids
  {
    if ids == [] then []
    else if ids[0] == id then WithoutId(ids[1..], id)
    else [ids[0]] + WithoutId(ids[1..], id)
  }

  /** After pruning, the only node that can still carry the id is the root
      itself (when the root was the match). */
  lemma {:induction false} PruneRemovesTarget(n: Node, id: string)
    requires n.id != id
    ensures forall x :: x in PreOrder(Prune(n, id)) ==> x.id != id
    decreases n, 1
  {
    PruneChildrenRemovesTarget(n.children, id);
  }

  lemma {:induction false} PruneChildrenRemovesTarget(cs: seq<Node>, id: string)
    ensures forall x :: x in PreOrderAll(PruneChildren(cs, id)) ==> x.id != id
    decreases cs, 0
  {
    if cs != [] {
      PruneChildrenRemovesTarget(cs[1..], id);
      if cs[0].id != id {
        PruneRemovesTarget(cs[0], id);
        var r := PruneChildren(cs, id);
        assert r == [Prune(cs[0], id)] + PruneChildren(cs[1..], id);
        assert r[1..] == PruneChildren(cs[1..], id);
      }
    }
  }

  /** Pruning an id that occurs nowhere gives back an equal tree. */
  lemma {:induction false} PruneAbsentIsIdentity(n: Node, id: string)
    requires forall x :: x in PreOrder(n) ==> x.id != id
    ensures Prune(n, id) == n
    decreases n, 1
  {
    PruneChildrenAbsentIsIdentity(n.children, id);
  }

  lemma {:induction false} PruneChildrenAbsentIsIdentity(cs: seq<Node>, id: string)
    requires forall x :: x in PreOrderAll(cs) ==> x.id != id
    ensures PruneChildren(cs, id) == cs
    decreases cs, 0
  {
    if cs != [] {
      assert cs[0] in PreOrder(cs[0]);
      PruneAbsentIsIdentity(cs[0], id);
      PruneChildrenAbsentIsIdentity(cs[1..], id);
    }
  }

  /** Pruning twice by the same id is the same as pruning once. */
  lemma PruneIdempotent(n: Node, id: string)
    ensures Prune(Prune(n, id), id) == Prune(n, id)
  {
    if n.id != id {
      PruneRemovesTarget(n, id);
      PruneAbsentIsIdentity(Prune(n, id), id);
    }
  }

  /** Pruning never adds nodes: every id of the result occurs in the input. */
  lemma {:induction false} PruneAddsNothing(n: Node, id: string, x: Node)
    requires x in PreOrder(Prune(n, id))
    ensures exists y :: y in PreOrder(n) && y.id == x.id
    decreases n, 1
  {
    if n.id != id && x != Prune(n, id) {
      PruneChildrenAddsNothing(n.children, id, x);
      var y :| y in PreOrderAll(n.children) && y.id == x.id;
      assert y in PreOrder(n);
    }
  }

  lemma {:induction false} PruneChildrenAddsNothing(cs: seq<Node>, id: string, x: Node)
    requires x in PreOrderAll(PruneChildren(cs, id))
    ensures exists y :: y in PreOrderAll(cs) && y.id == x.id
    decreases cs, 0
  {
    if cs[0].id == id {
      PruneChildrenAddsNothing(cs[1..], id, x);
      var y :| y in PreOrderAll(cs[1..]) && y.id == x.id;
      assert y in PreOrderAll(cs);
    } else {
      var r := PruneChildren(cs, id);
      assert r == [Prune(cs[0], id)] + PruneChildren(cs[1..], id);
      assert r[1..] == PruneChildren(cs[1..], id);
      if x in PreOrder(Prune(cs[0], id)) {
        PruneAddsNothing(cs[0], id, x);
        var y :| y in PreOrder(cs[0]) && y.id == x.id;
        assert y in PreOrderAll(cs);
      } else {
        PruneChildrenAddsNothing(cs[1..], id, x);
        var y :| y in PreOrderAll(cs[1..]) && y.id == x.id;
        assert y in PreOrderAll(cs);
      }
    }
  }
}
