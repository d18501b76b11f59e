/** The treemap's data preparation, frontend/src/hooks/useTreeMapData.ts:
    the viewed node's children without the empty ones, largest first, cut to
    `maxItems`, each carrying its original node. */
module TreeMapData {
  import opened Wrappers
  import opened FileTree
  import opened SizeOrder
  import opened JsArrays

  /** One rectangle to draw. */
  datatype Item = Item(name: string, size: nat, originalNode: Node)

  /** What the hook returns. */
  datatype TreeMapView = TreeMapView(data: seq<Item>, maxSize: nat, totalSize: nat)

  /** Default of the `maxItems` parameter. */
  const DefaultMaxItems: int := 20

  /** Dropping the empty children keeps every positive size's entries intact. */
  lemma {:induction false} NonEmptyKeepsSizes(cs: seq<Node>, k: nat)
    requires k > 0
    ensures WithSize(NonEmpty(cs), k) == WithSize(cs, k)
  {
    if cs != [] {
      NonEmptyKeepsSizes(cs[1..], k);
    }
  }

  /** `map((child) => ({ name, size, originalNode: child }))`. */
  function ToItems(cs: seq<Node>): (r: seq<Item>)
    ensures |r| == |cs|
    ensures forall i :: 0 <= i < |r| ==> r[i].originalNode == cs[i]
    ensures forall i :: 0 <= i < |r| ==> r[i].name == cs[i].name && r[i].size == cs[i].size
  {
    if cs == [] then [] else [Item(cs[0].name, cs[0].size, cs[0])] + ToItems(cs[1..])
  }

  /** The nodes behind the items. */
  function Originals(items: seq<Item>): (r: seq<Node>)
    ensures |r| == |items|
    ensures forall i :: 0 <= i < |r| ==> r[i] == items[i].originalNode
  {
    if items == [] then [] else [items[0].originalNode] + Originals(items[1..])
  }

  /** `Math.max(...sizes)`, with the hook's 0 for no items. */
  function MaxItemSize(items: seq<Item>): (r: nat)
    ensures forall i :: 0 <= i < |items| ==> items[i].size <= r
    ensures items == [] ==> r == 0
    ensures items != [] ==> exists i :: 0 <= i < |items| && items[i].size == r
  {
    if items == [] then 0
    else
      var rest := MaxItemSize(items[1..]);
      if items[0].size >= rest then items[0].size else rest
  }

  /** The nodes to show, in display order: the non-empty children sorted
      by size descending, then `slice(0, maxItems)`. */
  function Ranked(cs: seq<Node>, maxItems: int): (r: seq<Node>)
    ensures |r| == SliceEnd(|NonEmpty(cs)|, maxItems)
    ensures r == SortBySizeDesc(NonEmpty(cs))[..|r|]
    ensures Descending(r)
    ensures forall c :: c in r ==> c in cs && c.size > 0
  {
    var sorted := SortBySizeDesc(NonEmpty(cs));
    SortIsDescending(NonEmpty(cs));
    SortKeepsMembers(NonEmpty(cs));
    var r := sorted[..SliceEnd(|sorted|, maxItems)];
    assert forall c :: c in r ==> c in sorted;
    r
  }

  /** The items for a non-empty sequence of children. */
  function Project(cs: seq<Node>, maxItems: int): (data: seq<Item>)
    ensures |data| == SliceEnd(|NonEmpty(cs)|, maxItems)
    ensures Originals(data) == SortBySizeDesc(NonEmpty(cs))[..|data|]
    ensures forall i :: 0 <= i < |data| ==> data[i].size > 0
    ensures forall i, j :: 0 <= i < j < |data| ==> data[i].size >= data[j].size
    ensures forall i :: 0 <= i < |data| ==>
              data[i].name == data[i].originalNode.name &&
              data[i].size == data[i].originalNode.size &&
              data[i].originalNode in cs
  {
    var shown := Ranked(cs, maxItems);
    var data := ToItems(shown);
    OriginalsOfItems(shown);
    assert Originals(data) == shown;
    assert shown == SortBySizeDesc(NonEmpty(cs))[..|shown|];
    data
  }

  /** The items remember exactly the nodes they were made from. */
  lemma {:induction false} OriginalsOfItems(cs: seq<Node>)
    ensures Originals(ToItems(cs)) == cs
  {
    if cs != [] {
      OriginalsOfItems(cs[1..]);
    }
  }

  /** `useTreeMapData(node, maxItems)`. */
  function UseTreeMapData(node: Option<Node>, maxItems: int): (r: TreeMapView)
    ensures node.None? || node.value.children == [] ==> r.data == [] && r.maxSize == 0
    ensures r.totalSize == if node.None? then 0 else node.value.size
    ensures forall i :: 0 <= i < |r.data| ==> r.data[i].size > 0
    ensures forall i, j :: 0 <= i < j < |r.data| ==> r.data[i].size >= r.data[j].size
    ensures forall i :: 0 <= i < |r.data| ==>
              r.data[i].name == r.data[i].originalNode.name &&
              r.data[i].size == r.data[i].originalNode.size &&
              r.data[i].originalNode in node.value.children
    ensures node.Some? && maxItems >= 0 ==>
              |r.data| == if maxItems < |NonEmpty(node.value.children)| then maxItems
                          else |NonEmpty(node.value.children)|
    ensures r.data == [] ==> r.maxSize == 0
    ensures r.data != [] ==> r.maxSize == r.data[0].size
    ensures forall i :: 0 <= i < |r.data| ==> r.data[i].size <= r.maxSize
    ensures node.Some? ==>
              |r.data| <= |NonEmpty(node.value.children)| &&
              Originals(r.data) == SortBySizeDesc(NonEmpty(node.value.children))[..|r.data|]
  {
    var totalSize := if node.None? then 0 else node.value.size;
    if node.None? then TreeMapView([], 0, totalSize)
    else if node.value.children == [] then
      assert NonEmpty(node.value.children) == [];
      TreeMapView([], 0, totalSize)
    else
      var data := Project(node.value.children, maxItems);
      TreeMapView(data, MaxItemSize(data), totalSize)
  }

  /** The treemap of a node with its default `maxItems`. */
  function TreeMapOf(node: Option<Node>): (r: TreeMapView)
    ensures |r.data| <= 20
    ensures node.Some? ==>
              |r.data| == if |NonEmpty(node.value.children)| < 20 then |NonEmpty(node.value.children)| else 20
    ensures node.Some? ==> Originals(r.data) == SortBySizeDesc(NonEmpty(node.value.children))[..|r.data|]
  {
    UseTreeMapData(node, DefaultMaxItems)
  }

  /** Nothing is lost when nothing is cut: with at most `maxItems` non-empty
      children, every one of them is an item, as often as it occurs. */
  lemma UncutShowsEveryNonEmptyChild(n: Node, maxItems: int)
    requires |NonEmpty(n.children)| <= maxItems
    ensures multiset(Originals(UseTreeMapData(Some(n), maxItems).data)) == multiset(NonEmpty(n.children))
  {
    var sorted := SortBySizeDesc(NonEmpty(n.children));
    var r := UseTreeMapData(Some(n), maxItems);
    SortIsPermutation(NonEmpty(n.children));
    if n.children != [] {
      assert sorted[..|r.data|] == sorted;
    } else {
      assert NonEmpty(n.children) == [];
    }
  }

  /** Items of equal size keep the order the children had: for each size,
      the items of that size are the first children of that size, in order. */
  lemma TreeMapKeepsTieOrder(n: Node, maxItems: int, k: nat)
    requires k > 0
    ensures var shown := WithSize(Originals(UseTreeMapData(Some(n), maxItems).data), k);
            |shown| <= |WithSize(n.children, k)| && shown == WithSize(n.children, k)[..|shown|]
  {
    var r := UseTreeMapData(Some(n), maxItems);
    var sorted := SortBySizeDesc(NonEmpty(n.children));
    WithSizeOfPrefix(sorted, |r.data|, k);
    SortIsStable(NonEmpty(n.children), k);
    NonEmptyKeepsSizes(n.children, k);
  }

  /** Truncation keeps the largest: a non-empty child left out is no larger
      than any item shown. */
  lemma TruncationKeepsLargest(n: Node, maxItems: int, c: Node)
    requires c in NonEmpty(n.children)
    requires c !in Originals(UseTreeMapData(Some(n), maxItems).data)
    ensures forall i :: 0 <= i < |UseTreeMapData(Some(n), maxItems).data| ==>
              c.size <= UseTreeMapData(Some(n), maxItems).data[i].size
  {
    var data := UseTreeMapData(Some(n), maxItems).data;
    var sorted := SortBySizeDesc(NonEmpty(n.children));
    ItemsFollowSorted(n, maxItems);
    SortKeepsMembers(NonEmpty(n.children));
    SortIsDescending(NonEmpty(n.children));
    LeftOutIsSmaller(sorted, |data|, c);
  }

  /** Item `i` has the size of the `i`-th non-empty child in sorted order. */
  lemma ItemsFollowSorted(n: Node, maxItems: int)
    ensures var data := UseTreeMapData(Some(n), maxItems).data;
            var sorted := SortBySizeDesc(NonEmpty(n.children));
            |data| <= |sorted| && Originals(data) == sorted[..|data|] &&
            forall i :: 0 <= i < |data| ==> data[i].size == sorted[i].size
  {
    var data := UseTreeMapData(Some(n), maxItems).data;
    var sorted := SortBySizeDesc(NonEmpty(n.children));
    forall i | 0 <= i < |data|
      ensures data[i].size == sorted[i].size
    {
      assert Originals(data)[i] == sorted[i];
    }
  }

  /** In a descending sequence, an entry outside a prefix is no larger than
      any entry of the prefix. */
  lemma LeftOutIsSmaller(sorted: seq<Node>, m: nat, c: Node)
    requires Descending(sorted) && m <= |sorted|
    requires c in sorted && c !in sorted[..m]
    ensures forall i :: 0 <= i < m ==> c.size <= sorted[i].size
  {
    var j :| 0 <= j < |sorted| && sorted[j] == c;
    assert j >= m;
  }
}
