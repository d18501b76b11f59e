/** The navigation state of the main window, frontend/src/App.tsx: the path
    to scan, the last scan result, the scanning flag, the node on view and
    the breadcrumb trail, with the handlers that change them. The backend
    scan and the folder dialog are outside the model: their answers are
    parameters. */
module Navigation {
  import opened Wrappers
  import opened FileTree
  import opened JsArrays
  import opened FileOperations

  /** Each node of the trail lies in the subtree of the one before it. */
  predicate Descends(p: seq<Node>)
  {
    forall i :: 0 <= i < |p| - 1 ==> p[i + 1] in PreOrder(p[i])
  }

  /** A prefix of a descending trail descends. */
  lemma DescendsPrefix(p: seq<Node>, k: nat)
    requires Descends(p) && k <= |p|
    ensures Descends(p[..k])
  {
    assert forall i :: 0 <= i < k ==> p[..k][i] == p[i];
  }

  /** Extending a trail by a node inside its last node keeps it descending. */
  lemma DescendsAppend(p: seq<Node>, x: Node)
    requires Descends(p) && p != [] && x in PreOrder(p[|p| - 1])
    ensures Descends(p + [x])
  {
    var q := p + [x];
    forall i | 0 <= i < |q| - 1
      ensures q[i + 1] in PreOrder(q[i])
    {
      if i < |p| - 1 {
        assert q[i] == p[i] && q[i + 1] == p[i + 1];
      }
    }
  }

  /** Every node of a descending trail lies in the tree of its first node. */
  lemma {:induction false} DescendsInFirst(p: seq<Node>)
    requires Descends(p) && p != []
    ensures forall i :: 0 <= i < |p| ==> p[i] in PreOrder(p[0])
    decreases |p|
  {
    if |p| > 1 {
      var init := p[..|p| - 1];
      DescendsPrefix(p, |p| - 1);
      DescendsInFirst(init);
      assert init[|p| - 2] == p[|p| - 2];
      SubtreeTransitive(p[0], p[|p| - 2], p[|p| - 1]);
    }
  }

  class App {
    var currentPath: string
    var scanResult: Option<ScanResult>
    var isScanning: bool
    var currentViewNode: Option<Node>
    var breadcrumbs: seq<Node>

    /** The node on view is the last breadcrumb, and nothing without one. */
    predicate Valid()
      reads this
    {
      currentViewNode == if breadcrumbs == [] then None else Some(breadcrumbs[|breadcrumbs| - 1])
    }

    /** The trail starts at the root of the current scan result and goes
        down the tree. */
    predicate Anchored()
      reads this
    {
      Descends(breadcrumbs) &&
      (breadcrumbs != [] ==> scanResult.Some? && scanResult.value.root == Some(breadcrumbs[0]))
    }

    /** The initial state: no path, no result, nothing on view. */
    constructor ()
      ensures Valid() && Anchored()
      ensures currentPath == "" && scanResult.None? && !isScanning
      ensures currentViewNode.None? && breadcrumbs == []
    {
      currentPath := "";
      scanResult := None;
      isScanning := false;
      currentViewNode := None;
      breadcrumbs := [];
    }

    /** `setCurrentPath`, from the path input or the folder dialog. */
    method SetCurrentPath(path: string)
      modifies this
      ensures currentPath == path
      ensures scanResult == old(scanResult) && isScanning == old(isScanning)
      ensures currentViewNode == old(currentViewNode) && breadcrumbs == old(breadcrumbs)
    {
      currentPath := path;
    }

    /** The part of `handleScanDirectory` before the backend call: the path
        argument, or `currentPath` when it is missing or empty; nothing at all
        happens for an empty path; otherwise the result, the view and the
        trail are cleared and the scanning flag is raised. */
    method BeginScan(path: Option<string>) returns (pathToScan: string)
      requires Valid()
      modifies this
      ensures pathToScan == if path.Some? && path.value != "" then path.value else old(currentPath)
      ensures pathToScan == "" ==> unchanged(this)
      ensures pathToScan != "" ==>
                scanResult.None? && currentViewNode.None? && breadcrumbs == [] && isScanning
      ensures currentPath == old(currentPath)
      ensures Valid() && (old(Anchored()) ==> Anchored())
    {
      pathToScan := if path.Some? && path.value != "" then path.value else currentPath;
      if pathToScan == "" {
        return;
      }
      scanResult := None;
      currentViewNode := None;
      breadcrumbs := [];
      isScanning := true;
    }

    /** The part after the backend call: on success (`outcome` holds the
        result) the view and the trail move to the result's root, or are
        empty without one; on failure (`outcome` is `None`) they stay as
        they are; either way the scanning flag drops. */
    method FinishScan(outcome: Option<ScanResult>)
      requires Valid()
      modifies this
      ensures !isScanning && currentPath == old(currentPath)
      ensures outcome.Some? ==>
                scanResult == outcome && currentViewNode == outcome.value.root &&
                breadcrumbs == (if outcome.value.root.Some? then [outcome.value.root.value] else [])
      ensures outcome.None? ==>
                scanResult == old(scanResult) && currentViewNode == old(currentViewNode) &&
                breadcrumbs == old(breadcrumbs)
      ensures Valid()
      ensures outcome.Some? || old(Anchored()) ==> Anchored()
    {
      if outcome.Some? {
        var result := outcome.value;
        scanResult := Some(result);
        currentViewNode := result.root;
        breadcrumbs := if result.root.Some? then [result.root.value] else [];
      }
      isScanning := false;
    }

    /** `handleScanDirectory(path)`, with `outcome` the backend's answer for
        the path scanned. Afterwards the scanning flag is down, and the trail
        is the new root alone, or empty when the scan failed or found no
        root. */
    method ScanDirectory(path: Option<string>, outcome: Option<ScanResult>) returns (pathToScan: string)
      requires Valid()
      modifies this
      ensures pathToScan == if path.Some? && path.value != "" then path.value else old(currentPath)
      ensures pathToScan == "" ==> unchanged(this)
      ensures pathToScan != "" ==>
                !isScanning && scanResult == outcome &&
                currentViewNode == (if outcome.Some? then outcome.value.root else None) &&
                breadcrumbs == (if outcome.Some? && outcome.value.root.Some?
                                then [outcome.value.root.value] else [])
      ensures currentPath == old(currentPath)
      ensures Valid() && (pathToScan != "" || old(Anchored()) ==> Anchored())
    {
      pathToScan := BeginScan(path);
      if pathToScan != "" {
        FinishScan(outcome);
      }
    }

    /** `handleNodeDoubleClick(node)`: a directory with children becomes the
        view and is pushed onto the trail; any other node changes nothing.
        A node picked inside the node on view keeps the trail anchored. */
    method NodeDoubleClick(node: Node)
      requires Valid()
      modifies this
      ensures !(node.kind == Directory && node.children != []) ==> unchanged(this)
      ensures node.kind == Directory && node.children != [] ==>
                currentViewNode == Some(node) && breadcrumbs == old(breadcrumbs) + [node] &&
                scanResult == old(scanResult) && isScanning == old(isScanning) &&
                currentPath == old(currentPath)
      ensures Valid()
      ensures old(Anchored()) && old(breadcrumbs) != [] && node in PreOrder(old(currentViewNode).value) ==>
                Anchored()
    {
      if node.kind == Directory && node.children != [] {
        if Anchored() && breadcrumbs != [] && node in PreOrder(currentViewNode.value) {
          DescendsAppend(breadcrumbs, node);
        }
        currentViewNode := Some(node);
        breadcrumbs := breadcrumbs + [node];
      }
    }

    /** `handleBreadcrumbClick(index)`: the trail is cut to
        `slice(0, index + 1)` and its last node is put on view (nothing when
        the cut leaves none). Clicking crumb `index` of the trail goes back
        to it; clicking the last crumb changes nothing. */
    method BreadcrumbClick(index: int)
      requires Valid()
      modifies this
      ensures breadcrumbs == Slice(old(breadcrumbs), index + 1)
      ensures 0 <= index < |old(breadcrumbs)| ==>
                breadcrumbs == old(breadcrumbs)[..index + 1] && currentViewNode == Some(old(breadcrumbs)[index])
      ensures index >= |old(breadcrumbs)| - 1 ==>
                breadcrumbs == old(breadcrumbs) && currentViewNode == old(currentViewNode)
      ensures scanResult == old(scanResult) && isScanning == old(isScanning) && currentPath == old(currentPath)
      ensures Valid() && (old(Anchored()) ==> Anchored())
    {
      var newBreadcrumbs := Slice(breadcrumbs, index + 1);
      if Descends(breadcrumbs) {
        DescendsPrefix(breadcrumbs, |newBreadcrumbs|);
      }
      breadcrumbs := newBreadcrumbs;
      currentViewNode := if newBreadcrumbs == [] then None else Some(newBreadcrumbs[|newBreadcrumbs| - 1]);
    }

    /** The charts' `onNodeDeleted`: a full rescan of `currentPath`, which
        puts the trail back to the new root alone. */
    method NodeDeleted(outcome: Option<ScanResult>)
      requires Valid()
      modifies this
      ensures old(currentPath) == "" ==> unchanged(this)
      ensures old(currentPath) != "" && outcome.Some? && outcome.value.root.Some? ==>
                scanResult == outcome && breadcrumbs == [outcome.value.root.value] &&
                currentViewNode == outcome.value.root && !isScanning
      ensures old(currentPath) != "" && (outcome.None? || outcome.value.root.None?) ==>
                scanResult == outcome && breadcrumbs == [] && currentViewNode.None? && !isScanning
      ensures currentPath == old(currentPath)
      ensures Valid() && (old(currentPath) != "" || old(Anchored()) ==> Anchored())
    {
      var _ := ScanDirectory(Some(currentPath), outcome);
    }
  }

  /** Whatever sequence of handlers ran, an anchored window shows only nodes
      of the scanned tree: every breadcrumb, and the node on view. */
  lemma TrailInScannedTree(app: App)
    requires app.Valid() && app.Anchored() && app.breadcrumbs != []
    ensures app.scanResult.Some? && app.scanResult.value.root.Some?
    ensures forall i :: 0 <= i < |app.breadcrumbs| ==>
              app.breadcrumbs[i] in PreOrder(app.scanResult.value.root.value)
    ensures app.currentViewNode.Some? && app.currentViewNode.value in PreOrder(app.scanResult.value.root.value)
  {
    DescendsInFirst(app.breadcrumbs);
  }
}
