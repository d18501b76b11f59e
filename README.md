# vizdisk core, modelled in Dafny

vizdisk is a desktop disk-usage viewer. A Go backend walks a directory and
builds a tree of `FileNode`s, each carrying its size. A React frontend shows
the tree as a treemap or a sunburst, and lets the user drill into
directories and come back out through a breadcrumb trail.

This project models the logic between the walk and the drawing:

- `file_tree.dfy` (`FileTree`): the tree itself (`Node`, `ScanResult`), and
  the pre-order listing and counting rule shared by the Go and TypeScript
  code.
- `scanner.dfy` (`Scanner`): what the Go scanner computes over a finished
  tree. That is the total size, the directory size, the file and directory
  counts, the hidden-name test and its exclusion rule, and the assembly of
  the scan result.
- `file_operations.dfy` (`FileOperations`): the frontend tree queries.
  These are node statistics, lookup by id, the breadcrumb path and the
  removal of a node by id.
- `size_order.dfy` (`SizeOrder`): the size-descending stable sort that both
  charts apply.
- `tree_map_data.dfy` (`TreeMapData`): the treemap's data hook.
- `sunburst.dfy` (`Sunburst`): the sunburst's recursive radial layout, its
  radius constants and its guarded top call.
- `navigation.dfy` (`Navigation`): the main window's navigation state, as a
  class whose handlers keep the view on the last breadcrumb.
- `formatters.dfy` (`Formatters`): the unit choice of `formatFileSize`, and
  the branches of `formatDuration` and `formatPercentage`.
- `cross_checks.dfy` (`CrossChecks`): how the scanner's trees meet the
  frontend.
- `js_arrays.dfy` (`JsArrays`): JavaScript's `slice(0, end)`.
- `wrappers.dfy` (`Wrappers`): `Option`, for JavaScript's null and Go's nil.

Most loops in the source are methods with loop invariants, proved against
recursive specification functions. Among them are the scanner's folds, the
statistics traversal, the breadcrumb search, the sunburst loop and the unit
loop. Two early-exit loops are recursion over the sequence instead: the loop
over the children in `findNodeById` (`FileOperations.FindIn`) and the loop
over the exclude patterns in `shouldExclude` (`Scanner.AnyPatternMatches`). Sizes are unbounded naturals. Angles, radii and formatted values are
exact reals.

Go's `filepath.Base` and JavaScript's `Array.prototype.slice` are modelled
from their documented behaviour. `Array.prototype.sort` is a stable
insertion sort here, since the language guarantees stability.

## Model

| member | source | states |
|---|---|---|
| FileTree.TallyIsNodeCount | internal/scanner/scanner.go:239-255 | When files have no children, the files and directories counted by the shared counting rule add up to the number of nodes in the subtree. |
| Scanner.CalculateTotalSize | internal/scanner/scanner.go:215-229 | Gives 0 for a nil node and the recursive total otherwise. That total is a file's own size, or the sum of a directory's children's totals; the directory's own `Size` is not read. |
| Scanner.SubtreeTotalSize | internal/scanner/scanner.go:220-228 | The accumulating loop over the children returns the recursive total of the subtree. |
| Scanner.CalculateDirectorySize | internal/scanner/scanner.go:231-237 | The result is the sum of the direct children's `Size` fields, and no child is larger than it. |
| Scanner.TotalSizeIsRootSize | internal/scanner/scanner.go:155-156 | On a tree built as `scanDirectory` builds it (each directory's size set from its finished children), the recomputed total equals the root's own size. |
| Scanner.ScannerBuiltFilesChildless | internal/scanner/scanner.go:161-189 | In a tree the scanner built, no file has children. |
| Scanner.CalculateCounts | internal/scanner/scanner.go:239-255 | Gives (0, 0) for nil and (1, 0) for a file. A directory counts itself once plus its children's counts. |
| Scanner.SubtreeCounts | internal/scanner/scanner.go:244-254 | The loop that adds up the children's counts, with directories starting at 1, returns the counting rule's result. |
| Scanner.CountsAreNodeCount | internal/scanner/scanner.go:239-255 | With childless files, files plus directories is the number of nodes, the root included, and a directory root counts at least one directory. |
| Scanner.Base | internal/scanner/scanner.go:206 | `filepath.Base` is never empty. For a non-empty path it contains no separator unless it is the root "/". |
| Scanner.BaseOfEntry | internal/scanner/scanner.go:130 | The base name of an entry path `dir/name` is `name` itself. |
| Scanner.EntryHiddenByName | internal/scanner/scanner.go:205-208 | An entry `dir/name` is hidden exactly when its name starts with a dot. |
| Scanner.TrailingSlashIgnored | internal/scanner/scanner.go:205-208 | A trailing separator changes neither the base name nor whether the path is hidden. |
| Scanner.ShouldExclude | internal/scanner/scanner.go:191-203 | An entry is excluded exactly when it is hidden with hidden files off, or some exclude pattern matches its name. |
| Scanner.AnyPatternMatches | internal/scanner/scanner.go:196-200 | The loop over the patterns reports a match exactly when some pattern matches the name. |
| Scanner.HiddenEntriesExcluded | internal/scanner/scanner.go:192-194 | With hidden files off, an entry whose name starts with a dot is always excluded, whatever the patterns. |
| Scanner.AssembleResult | internal/scanner/scanner.go:76-78 | The result carries the root, the recomputed total size and the counts. On a scanner-built tree the total is the root's size and files plus directories is the node count. |
| FileOperations.Traverse | frontend/src/utils/fileOperations.ts:16-25 | The closure adds exactly the counting rule's files and directories for the subtree to the running counters. |
| FileOperations.CalculateNodeStats | frontend/src/utils/fileOperations.ts:3-36 | Gives {0,0,0} for null. Otherwise `totalSize` is the node's own `size`, and the counters are its descendants' counts with the node itself not counted. A childless node counts no files and no directories. |
| FileOperations.NodeStatsCountDescendants | frontend/src/utils/fileOperations.ts:16-29 | With childless files, the counts are the numbers of files and of directories strictly below the node, and together one less than the node count. |
| FileOperations.FindNodeById | frontend/src/utils/fileOperations.ts:38-53 | Gives null for a null root, and the root when its id matches. A result carries the id and lies in the root's tree. A null result means no node of the tree carries the id. |
| FileOperations.FindIsFirstInPreOrder | frontend/src/utils/fileOperations.ts:42-52 | The lookup returns the first node in pre-order with the id. |
| FileOperations.FindUnique | frontend/src/utils/fileOperations.ts:38-53 | With unique ids, looking up any node's id returns that node. |
| FileOperations.FindPath | frontend/src/utils/fileOperations.ts:63-79 | The search succeeds exactly when a root-to-target path exists, and then yields that path. |
| FileOperations.BuildBreadcrumbPath | frontend/src/utils/fileOperations.ts:55-83 | Gives [] for a null root or an absent id. Otherwise it is the pre-order path, which starts at the root, ends at a node with the id, and has each node a child of the one before. |
| FileOperations.PathEndsAtFound | frontend/src/utils/fileOperations.ts:55-83 | A breadcrumb path exists exactly when the lookup succeeds, and its last node is the node the lookup returns. |
| FileOperations.ChainInSubtree | frontend/src/utils/fileOperations.ts:63-79 | Every node of a path starting at the root lies in the root's tree. |
| FileOperations.Prune | frontend/src/utils/fileOperations.ts:85-95 | A node whose own id matches comes back unchanged. Otherwise every scalar field is kept (the size is not re-summed), and the surviving children's ids are the old ones in order without the target. |
| FileOperations.PruneChildrenEach | frontend/src/utils/fileOperations.ts:92-94 | Each surviving child is a child that does not carry the target id, itself pruned. |
| FileOperations.PruneRemovesTarget | frontend/src/utils/fileOperations.ts:90-94 | When the root is not the target, no node of the result carries the target id. |
| FileOperations.PruneAbsentIsIdentity | frontend/src/utils/fileOperations.ts:90-94 | With the id absent from the tree, the result equals the input. |
| FileOperations.PruneIdempotent | frontend/src/utils/fileOperations.ts:85-95 | Removing twice is the same as removing once. |
| FileOperations.PruneAddsNothing | frontend/src/utils/fileOperations.ts:90-94 | Every node of the result has an id found in the input tree. |
| SizeOrder.SortIsPermutation | frontend/src/hooks/useTreeMapData.ts:18 | The sort returns the same nodes, each as often. |
| SizeOrder.SortIsDescending | frontend/src/components/charts/SunburstChart.tsx:108 | The sorted sequence never increases in size. |
| SizeOrder.SortIsStable | frontend/src/hooks/useTreeMapData.ts:18 | For every size, the nodes of that size keep their original relative order. |
| SizeOrder.SortKeepsSum | frontend/src/components/charts/SunburstChart.tsx:108 | Sorting does not change the sum of the sizes. |
| TreeMapData.UseTreeMapData | frontend/src/hooks/useTreeMapData.ts:10-41 | Null or childless nodes give no items and `maxSize` 0. `totalSize` is the node's own size. Items are non-empty children, largest first, at most `maxItems`, each with its original node's name and size. `maxSize` is 0 when no item remains, otherwise the first (largest) item's size. |
| TreeMapData.TreeMapOf | frontend/src/hooks/useTreeMapData.ts:10 | With the default `maxItems`, the items are the first `min(20, n)` of the non-empty children sorted largest first, where `n` is how many non-empty children there are. |
| TreeMapData.MaxItemSize | frontend/src/hooks/useTreeMapData.ts:27-30 | Gives 0 for no items. Otherwise it is the size of some item, and no item is larger. |
| TreeMapData.UncutShowsEveryNonEmptyChild | frontend/src/hooks/useTreeMapData.ts:16-24 | With no more non-empty children than `maxItems`, the items hold every non-empty child, as often as it occurs. |
| TreeMapData.TreeMapKeepsTieOrder | frontend/src/hooks/useTreeMapData.ts:18-19 | For every size, the items of that size are the first children of that size, in order. |
| TreeMapData.TruncationKeepsLargest | frontend/src/hooks/useTreeMapData.ts:19 | A non-empty child that was cut is no larger than any item shown. |
| Sunburst.ChildOuterRadius | frontend/src/components/charts/SunburstChart.tsx:101-103 | The child's outer radius never exceeds `maxRadius`, and does not shrink below a parent radius that is inside the chart. |
| Sunburst.CalculateSunburstNodes | frontend/src/components/charts/SunburstChart.tsx:65-135 | The recursion, with its loop over the sorted children and its running angle, pushes exactly the entries of the layout function. |
| Sunburst.LayoutOfLeaf | frontend/src/components/charts/SunburstChart.tsx:76-87 | Past `maxLevel`, or without children, the result is the node's own entry alone. |
| Sunburst.LayoutInTree | frontend/src/components/charts/SunburstChart.tsx:65-135 | Every entry drawn is a node of the subtree being laid out, so the chart only offers nodes inside the current view. |
| Sunburst.LayoutBounds | frontend/src/components/charts/SunburstChart.tsx:89-130 | Every entry after the node's own is a non-empty node one or more levels deeper, at most `maxLevel + 1`. For a band inside the chart, every band lies between the node's inner radius and `maxRadius`, inner edge first. |
| Sunburst.LayoutIgnoresTotal | frontend/src/components/charts/SunburstChart.tsx:73 | The `totalSize` argument does not affect the layout. |
| Sunburst.AngleAfterSum | frontend/src/components/charts/SunburstChart.tsx:110-130 | After some children the running angle is the start plus the slice of their summed size. |
| Sunburst.ChildrenOfLayout | frontend/src/components/charts/SunburstChart.tsx:105-127 | The direct children's entries are exactly the non-empty children, largest first. |
| Sunburst.ChildrenInBands | frontend/src/components/charts/SunburstChart.tsx:100-127 | Each direct child's entry lies in the band from the parent's outer radius to the child outer radius, and is `child.size / node.size` of the parent's span wide. |
| Sunburst.ChildrenForward | frontend/src/components/charts/SunburstChart.tsx:113-129 | For a span that runs forward, every direct child's slice runs forward too. |
| Sunburst.ChildrenTileLayout | frontend/src/components/charts/SunburstChart.tsx:105-129 | The children's slices run edge to edge from `startAngle`, and end exactly at `endAngle` when the children's sizes add up to the node's. |
| Sunburst.ChildrenInsideLayout | frontend/src/components/charts/SunburstChart.tsx:105-129 | When the children's sizes add up to no more than the node's, every child's slice lies inside the node's span. |
| Sunburst.LayoutOnRings | frontend/src/components/charts/SunburstChart.tsx:48-51 | With the default four levels, every entry lies on the ring of its level, from 50 in steps of 57.5, clamped at 280. |
| Sunburst.SunburstNodes | frontend/src/components/charts/SunburstChart.tsx:218-234 | Nothing is drawn for a missing tree or one of size 0. Otherwise the layout covers 0 to 360 degrees from level 0, with the first ring from 50 to 107.5. |
| Sunburst.ChartShape | frontend/src/components/charts/SunburstChart.tsx:226-234 | For the top call, the root covers the whole circle on the first ring, every entry is on its level's ring at level 5 at most, and levels 4 and 5 are squeezed to zero width at 280. The root's non-empty children, largest first, fill the circle when their sizes add up to the root's. |
| CrossChecks.CountsAgree | internal/scanner/scanner.go:248 | For a directory root, the Go counts are the frontend's file count and its directory count plus one. A childless file root is one file in Go and nothing in the frontend. |
| CrossChecks.ScannedTreeDivisible | internal/scanner/scanner.go:155-156 | Every tree the scanner builds meets the sunburst's condition that no division is by a zero size. |
| CrossChecks.ScannedChartFillsCircle | frontend/src/components/charts/SunburstChart.tsx:113-129 | On a scanned directory of non-zero size, the first ring of children fills the whole circle edge to edge, largest first. |
| Navigation.App.SetCurrentPath | frontend/src/App.tsx:26 | The path input (or the folder dialog) sets `currentPath` and nothing else. |
| Navigation.App.BeginScan | frontend/src/App.tsx:55-62 | An empty path (argument and `currentPath`) changes nothing. Otherwise the result, the view and the trail are cleared and scanning starts. |
| Navigation.App.FinishScan | frontend/src/App.tsx:64-73 | On success the view and the trail move to the new root, or are empty without one. On failure they stay. Either way scanning stops and the view stays on the last crumb. |
| Navigation.App.ScanDirectory | frontend/src/App.tsx:55-74 | Afterwards the trail is the new root alone, or empty on failure or a missing root, and scanning has stopped. An empty path changes nothing. |
| Navigation.App.NodeDoubleClick | frontend/src/App.tsx:76-81 | Anything but a directory with children changes nothing. Such a directory becomes the view and is appended to the trail, which stays anchored when the node lies inside the current view. |
| Navigation.App.BreadcrumbClick | frontend/src/App.tsx:83-87 | The trail becomes `slice(0, index + 1)` with its last node on view. Crumb `i` goes back to it, and the last crumb changes nothing. |
| Navigation.App.NodeDeleted | frontend/src/App.tsx:233-244 | A successful delete rescans `currentPath`. The scan result becomes the backend's answer. The trail and the view become the new root, or are empty when the rescan fails or finds no root. Scanning stops. |
| Navigation.DescendsInFirst | frontend/src/App.tsx:76-86 | Every node of a trail built by drilling down lies in the tree of its first node. |
| Navigation.TrailInScannedTree | frontend/src/App.tsx:66-79 | In an anchored window with a trail, every breadcrumb and the node on view are nodes of the scanned tree. |
| Formatters.FormatFileSize | frontend/src/utils/formatters.ts:1-12 | The unit index is at most 4 (TB). The shown value times 1024 to that index is the input. The value is below 1024 unless in TB, and at least 1 once scaled. |
| Formatters.ScaledUnique | frontend/src/utils/formatters.ts:6-9 | Only one (value, unit) pair shows a given byte count. |
| Formatters.SmallCountsInBytes | frontend/src/utils/formatters.ts:6 | Counts below 1024 stay in bytes, unscaled. |
| Formatters.PowersShownAsOne | frontend/src/utils/formatters.ts:3-9 | `1024^k` for k up to 4 is shown as exactly 1 of the k-th unit. |
| Formatters.HugeCountsStayInTerabytes | frontend/src/utils/formatters.ts:6 | From `1024^5` on the count stays in TB, with a value of at least 1024. |
| Formatters.FormatDuration | frontend/src/utils/formatters.ts:18-22 | Milliseconds are shown as they are below 1000, and as seconds (at least 1, times 1000 the input) from 1000 on. |
| Formatters.FormatPercentage | frontend/src/utils/formatters.ts:24-27 | A zero total gives "0%" whatever the value. Otherwise the percentage times the total is 100 times the value, and a share between 0 and the total lies in 0 to 100. |

## Left out

- Sunburst.CalculateSunburstNodes: requires `Divisible`, i.e. no node laid out at a level up to `maxLevel` has a non-empty child while its own size is 0. JavaScript would divide by zero there and produce `Infinity` or `NaN` angles, which exact reals cannot represent. `CrossChecks.ScannedTreeDivisible` shows that every tree the scanner builds meets this condition.
- Sunburst: floating-point rounding is not modelled. Angles and radii are exact reals, so "the last child ends at `endAngle`" holds exactly here, but only approximately in doubles.
- Sunburst rendering is not modelled: arc paths, colours, labels and the skip of arcs under one degree. Nor is the treemap's rectangle packing.
- Scanner sizes and counts are unbounded naturals. Go's `int64` overflow is not modelled, and neither is a negative `Size`.
- The filesystem walk (`ScanPath`, `scanDirectory`, `scanFile` with `os.Stat` and `os.ReadDir`) is not modelled. Neither are `MaxDepth`, `MaxFileSize`, cancellation through the `stop` channel, progress callbacks or the SHA-256 ids. Their effect on the tree's shape is captured by `Scanner.ScannerBuilt`. Ids are opaque strings; their uniqueness is a hypothesis (`FileTree.UniqueIds`).
- Scanner.ShouldExclude: glob matching (`filepath.Match`) is a parameter of the model. Paths use `/` as the separator, and Windows volume names are not handled.
- Scanner.CalculateTotalSize and Scanner.CalculateCounts: the nil check is modelled at the top only. The scanner never stores a nil child, so children are plain nodes.
- Navigation: the backend scan, the folder dialog and React's asynchronous state updates are not modelled. The scan's outcome (a result, or `None` for an error) is a parameter, and each handler's updates happen together.
- Navigation.App.NodeDoubleClick: the trail stays anchored in the scanned tree only when the clicked node lies inside the current view. Both charts only offer such nodes (`TreeMapData.UseTreeMapData` for the treemap, `Sunburst.LayoutInTree` for the sunburst), but the handler does not check.
- Formatters: the string rendering (`toFixed`, `toLocaleString`) and `formatNumber` are not modelled. The results are the numeric value and the unit chosen.
- The tooltip, context menu, delete dialog, loading animation, visualisation settings, interaction hook and Wails bindings are not modelled. These are UI, storage or I/O code.
- FileOperations.Prune: the source copies every surviving node by spread. The model claims value equality only, not object identity.
