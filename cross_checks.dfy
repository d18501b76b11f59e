/** How the scanner's trees meet the frontend: the Go counts against the
    TypeScript statistics, and the sunburst's division guard on the trees
    the scanner builds. */
module CrossChecks {
  import opened Wrappers
  import opened FileTree
  import opened SizeOrder
  import opened Scanner
  import opened FileOperations
  import opened Sunburst

  /** The Go counts and the frontend statistics of the same root: for a
      directory the Go side counts the root as one more directory, for a
      childless file it counts one file where the frontend counts nothing. */
  method CountsAgree(root: Node) returns (files: nat, directories: nat, stats: NodeStats)
    ensures root.kind == Directory ==>
              files == stats.totalFiles && directories == stats.totalDirs + 1
    ensures root.kind == File && root.children == [] ==>
              files == 1 && directories == 0 && stats.totalFiles == 0 && stats.totalDirs == 0
    ensures stats.totalSize == root.size
  {
    files, directories := CalculateCounts(Some(root));
    stats := CalculateNodeStats(Some(root));
  }

  /** Every tree the scanner builds can be laid out by the sunburst: a
      directory with a non-empty child has that child's size in its own. */
  lemma {:induction false} ScannedTreeDivisible(n: Node, level: nat, maxLevel: nat)
    requires ScannerBuilt(n)
    ensures Divisible(n, level, maxLevel)
    decreases n
  {
    if level <= maxLevel {
      SizesBoundedBySum(n.children);
      forall c | c in n.children && c.size > 0
        ensures n.size > 0 && Divisible(c, level + 1, maxLevel)
      {
        ScannedTreeDivisible(c, level + 1, maxLevel);
      }
      ChildrenDivisibleEach(n.children, n.size, level + 1, maxLevel);
    }
  }

  /** On a scanned directory of non-zero size the chart's first ring of
      children fills the whole circle, edge to edge, largest first. */
  lemma ScannedChartFillsCircle(n: Node)
    requires ScannerBuilt(n) && n.kind == Directory && n.size > 0
    ensures Divisible(n, 0, DefaultMaxLevel)
    ensures Tiles(ChildEntries(n, 0.0, 360.0, RingEdge(0), RingEdge(1), 0, n.size as real, DefaultMaxLevel),
                  0.0, 360.0)
    ensures NodesOf(ChildEntries(n, 0.0, 360.0, RingEdge(0), RingEdge(1), 0, n.size as real, DefaultMaxLevel)) ==
            NonEmpty(SortBySizeDesc(n.children))
  {
    ScannedTreeDivisible(n, 0, DefaultMaxLevel);
    ChartShape(n);
  }
}
