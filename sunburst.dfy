/** The sunburst's radial layout, `calculateSunburstNodes` of
    frontend/src/components/charts/SunburstChart.tsx, with its radius
    constants and the guarded top-level call. Angles and radii are exact
    reals. */
module Sunburst {
  import opened Wrappers
  import opened FileTree
  import opened SizeOrder
  import opened FileOperations

  const MaxRadius: real := 280.0
  const MinRadius: real := 50.0
  /** Default of the `maxLevel` parameter. */
  const DefaultMaxLevel: nat := 4

  /** One ring segment: a node with its angular span, radius band and level. */
  datatype Entry = Entry(
    node: Node,
    startAngle: real,
    endAngle: real,
    innerRadius: real,
    outerRadius: real,
    level: nat)

  function Min(a: real, b: real): real
  {
    if a <= b then a else b
  }

  /** `Math.min(maxRadius, outerRadius + radiusStep)` with
      `radiusStep = (maxRadius - minRadius) / maxLevel`; a zero `maxLevel`
      makes the step infinite, so the minimum is `maxRadius`. */
  function ChildOuterRadius(outerRadius: real, maxLevel: nat): (r: real)
    ensures r <= MaxRadius
    ensures outerRadius <= MaxRadius ==> outerRadius <= r
  {
    if maxLevel == 0 then MaxRadius
    else Min(MaxRadius, outerRadius + (MaxRadius - MinRadius) / maxLevel as real)
  }

  /** The divisions `child.size / node.size` that the layout performs are all
      by a non-zero size: every node laid out at a level up to `maxLevel`
      that has a non-empty child has a non-zero size itself. */
  predicate Divisible(n: Node, level: nat, maxLevel: nat)
    decreases n
  {
    level > maxLevel || ChildrenDivisible(n.children, n.size, level + 1, maxLevel)
  }

  /** Every non-empty child of a sequence satisfies `Divisible` against a
      parent of size `parentSize` (stated child by child from the end, as the
      loop visits them). */
  predicate ChildrenDivisible(cs: seq<Node>, parentSize: nat, level: nat, maxLevel: nat)
    decreases cs
  {
    cs == [] ||
    (ChildrenDivisible(cs[..|cs| - 1], parentSize, level, maxLevel) &&
     (cs[|cs| - 1].size > 0 ==> parentSize > 0 && Divisible(cs[|cs| - 1], level, maxLevel)))
  }

  /** `ChildrenDivisible` is a property of each child on its own. */
  lemma {:induction false} ChildrenDivisibleEach(cs: seq<Node>, parentSize: nat, level: nat, maxLevel: nat)
    ensures ChildrenDivisible(cs, parentSize, level, maxLevel) <==>
            forall c :: c in cs && c.size > 0 ==> parentSize > 0 && Divisible(c, level, maxLevel)
    decreases |cs|
  {
    if cs != [] {
      var init := cs[..|cs| - 1];
      assert cs == init + [cs[|cs| - 1]];
      ChildrenDivisibleEach(init, parentSize, level, maxLevel);
    }
  }

  /** A child's angular width, `(child.size / node.size) * angleRange`. */
  function Width(size: nat, parentSize: nat, range: real): real
    requires parentSize > 0
  {
    (size as real / parentSize as real) * range
  }

  /** The running `currentAngle` once the children `cs` have been visited:
      each non-empty child advances it by `child.size / parentSize * range`. */
  function AngleAfter(cs: seq<Node>, parentSize: nat, start: real, range: real): real
    requires parentSize > 0 || SumOfSizes(cs) == 0
  {
    if cs == [] then start
    else
      var a := AngleAfter(cs[..|cs| - 1], parentSize, start, range);
      var c := cs[|cs| - 1];
      if c.size == 0 then a else a + Width(c.size, parentSize, range)
  }

  /** `angleRange`, the span a node's children share. */
  function AngleRange(startAngle: real, endAngle: real): real
  {
    endAngle - startAngle
  }

  /** The layout of one node: itself, then (below the level cut-off, and when
      it has children) its non-empty children largest first, each given the
      next slice of the parent's span and the next radius band. */
  function Layout(n: Node, startAngle: real, endAngle: real, innerRadius: real,
                  outerRadius: real, level: nat, totalSize: real, maxLevel: nat): (r: seq<Entry>)
    requires Divisible(n, level, maxLevel)
    decreases maxLevel + 1 - level, 1
    ensures |r| >= 1 && r[0] == Entry(n, startAngle, endAngle, innerRadius, outerRadius, level)
  {
    var self := Entry(n, startAngle, endAngle, innerRadius, outerRadius, level);
    if level > maxLevel || n.children == [] then [self]
    else
      SortedChildrenDivisible(n, level, maxLevel);
      [self] + LayoutChildren(SortBySizeDesc(n.children), n.size, startAngle, AngleRange(startAngle, endAngle),
                              outerRadius, ChildOuterRadius(outerRadius, maxLevel),
                              level + 1, totalSize, maxLevel)
  }

  /** The loop over the sorted children, as the entries it has pushed once
      the children `cs` have been visited. */
  function LayoutChildren(cs: seq<Node>, parentSize: nat, start: real, range: real,
                          innerRadius: real, outerRadius: real, level: nat,
                          totalSize: real, maxLevel: nat): seq<Entry>
    requires ChildrenDivisible(cs, parentSize, level, maxLevel)
    decreases maxLevel + 1 - level, 2, |cs|
  {
    if cs == [] then []
    else
      var init, c := cs[..|cs| - 1], cs[|cs| - 1];
      var before := LayoutChildren(init, parentSize, start, range, innerRadius, outerRadius,
                                   level, totalSize, maxLevel);
      if c.size == 0 then before
      else
        DivisibleSum(init, parentSize, level, maxLevel);
        var a := AngleAfter(init, parentSize, start, range);
        before + Layout(c, a, a + Width(c.size, parentSize, range), innerRadius, outerRadius,
                        level, totalSize, maxLevel)
  }

  /** Under `ChildrenDivisible` the angle is defined: a zero parent size
      comes only with children that are all empty. */
  lemma {:induction false} DivisibleSum(cs: seq<Node>, parentSize: nat, level: nat, maxLevel: nat)
    requires ChildrenDivisible(cs, parentSize, level, maxLevel)
    ensures parentSize > 0 || SumOfSizes(cs) == 0
    decreases |cs|
  {
    if cs != [] {
      DivisibleSum(cs[..|cs| - 1], parentSize, level, maxLevel);
    }
  }

  /** Every entry is a non-empty node at a level from `level` to one past
      `maxLevel`. */
  predicate Deeper(r: seq<Entry>, level: nat, maxLevel: nat)
  {
    forall i :: 0 <= i < |r| ==> r[i].node.size > 0 && level <= r[i].level <= maxLevel + 1
  }

  /** Every band lies between `inner` and `maxRadius`, inner edge first. */
  predicate InBand(r: seq<Entry>, inner: real)
  {
    forall i :: 0 <= i < |r| ==> inner <= r[i].innerRadius <= r[i].outerRadius <= MaxRadius
  }

  lemma BoundsConcat(a: seq<Entry>, b: seq<Entry>, level: nat, maxLevel: nat, inner: real)
    ensures Deeper(a, level, maxLevel) && Deeper(b, level, maxLevel) ==> Deeper(a + b, level, maxLevel)
    ensures InBand(a, inner) && InBand(b, inner) ==> InBand(a + b, inner)
  {
    assert forall i :: |a| <= i < |a + b| ==> (a + b)[i] == b[i - |a|];
  }

  /** A non-empty first entry at `level` followed by deeper entries. */
  lemma DeeperHead(r: seq<Entry>, level: nat, maxLevel: nat)
    requires r != [] && r[0].node.size > 0 && level <= r[0].level <= maxLevel + 1
    requires Deeper(r[1..], level + 1, maxLevel)
    ensures Deeper(r, level, maxLevel)
  {
    assert forall i :: 1 <= i < |r| ==> r[i] == r[1..][i - 1];
  }

  /** Every entry after a node's own lies strictly deeper, at most one level
      past `maxLevel`, and is a non-empty node; and when the node's band lies
      inside the chart, every band drawn lies between the node's inner radius
      and `maxRadius`. */
  lemma {:induction false} LayoutBounds(n: Node, startAngle: real, endAngle: real, innerRadius: real,
                                        outerRadius: real, level: nat, totalSize: real, maxLevel: nat)
    requires Divisible(n, level, maxLevel)
    decreases maxLevel + 1 - level, 1
    ensures Deeper(Layout(n, startAngle, endAngle, innerRadius, outerRadius, level, totalSize, maxLevel)[1..],
                   level + 1, maxLevel)
    ensures innerRadius <= outerRadius <= MaxRadius ==>
              InBand(Layout(n, startAngle, endAngle, innerRadius, outerRadius, level, totalSize, maxLevel),
                     innerRadius)
  {
    var r := Layout(n, startAngle, endAngle, innerRadius, outerRadius, level, totalSize, maxLevel);
    if level <= maxLevel && n.children != [] {
      LayoutUnfold(n, startAngle, endAngle, innerRadius, outerRadius, level, totalSize, maxLevel);
      var sorted := SortBySizeDesc(n.children);
      var childOuter := ChildOuterRadius(outerRadius, maxLevel);
      var rest := LayoutChildren(sorted, n.size, startAngle, AngleRange(startAngle, endAngle), outerRadius,
                                 childOuter, level + 1, totalSize, maxLevel);
      LayoutChildrenBounds(sorted, n.size, startAngle, AngleRange(startAngle, endAngle), outerRadius,
                           childOuter, level + 1, totalSize, maxLevel);
      assert r[1..] == rest;
      if innerRadius <= outerRadius <= MaxRadius {
        assert InBand([r[0]], innerRadius);
        assert InBand(rest, innerRadius);
        BoundsConcat([r[0]], rest, level + 1, maxLevel, innerRadius);
        assert r == [r[0]] + rest;
      }
    } else {
      assert r == [r[0]];
    }
  }

  lemma {:induction false} LayoutChildrenBounds(cs: seq<Node>, parentSize: nat, start: real, range: real,
                                                innerRadius: real, outerRadius: real, level: nat,
                                                totalSize: real, maxLevel: nat)
    requires ChildrenDivisible(cs, parentSize, level, maxLevel)
    requires level <= maxLevel + 1
    decreases maxLevel + 1 - level, 2, |cs|
    ensures Deeper(LayoutChildren(cs, parentSize, start, range, innerRadius, outerRadius,
                                  level, totalSize, maxLevel), level, maxLevel)
    ensures innerRadius <= outerRadius <= MaxRadius ==>
              InBand(LayoutChildren(cs, parentSize, start, range, innerRadius, outerRadius,
                                    level, totalSize, maxLevel), innerRadius)
  {
    if cs != [] {
      var init, c := cs[..|cs| - 1], cs[|cs| - 1];
      var before := LayoutChildren(init, parentSize, start, range, innerRadius, outerRadius,
                                   level, totalSize, maxLevel);
      LayoutChildrenBounds(init, parentSize, start, range, innerRadius, outerRadius,
                           level, totalSize, maxLevel);
      if c.size > 0 {
        LayoutChildrenGrow(cs, parentSize, start, range, innerRadius, outerRadius, level, totalSize, maxLevel);
        var a, b := AngleAfter(init, parentSize, start, range), AngleAfter(cs, parentSize, start, range);
        var own := Layout(c, a, b, innerRadius, outerRadius, level, totalSize, maxLevel);
        LayoutBounds(c, a, b, innerRadius, outerRadius, level, totalSize, maxLevel);
        DeeperHead(own, level, maxLevel);
        BoundsConcat(before, own, level, maxLevel, innerRadius);
      }
    }
  }

  /** Every entry drawn is a node of the subtree being laid out, so a
      click on the chart only ever offers nodes of that subtree. */
  lemma {:induction false} LayoutInTree(n: Node, startAngle: real, endAngle: real, innerRadius: real,
                                        outerRadius: real, level: nat, totalSize: real, maxLevel: nat)
    requires Divisible(n, level, maxLevel)
    decreases maxLevel + 1 - level, 1
    ensures forall e :: e in Layout(n, startAngle, endAngle, innerRadius, outerRadius, level, totalSize, maxLevel) ==>
              e.node in PreOrder(n)
  {
    if level <= maxLevel && n.children != [] {
      LayoutUnfold(n, startAngle, endAngle, innerRadius, outerRadius, level, totalSize, maxLevel);
      var sorted := SortBySizeDesc(n.children);
      SortKeepsMembers(n.children);
      LayoutChildrenInTree(sorted, n.size, startAngle, AngleRange(startAngle, endAngle), outerRadius,
                           ChildOuterRadius(outerRadius, maxLevel), level + 1, totalSize, maxLevel, n);
    } else {
      LayoutOfLeaf(n, startAngle, endAngle, innerRadius, outerRadius, level, totalSize, maxLevel);
    }
  }

  /** The layouts of children of `parent` draw only nodes under `parent`. */
  lemma {:induction false} LayoutChildrenInTree(cs: seq<Node>, parentSize: nat, start: real, range: real,
                                                innerRadius: real, outerRadius: real, level: nat,
                                                totalSize: real, maxLevel: nat, parent: Node)
    requires ChildrenDivisible(cs, parentSize, level, maxLevel)
    requires forall c :: c in cs ==> c in parent.children
    decreases maxLevel + 1 - level, 2, |cs|
    ensures forall e :: e in LayoutChildren(cs, parentSize, start, range, innerRadius, outerRadius,
                                            level, totalSize, maxLevel) ==>
              e.node in PreOrder(parent)
  {
    if cs != [] {
      var init, c := cs[..|cs| - 1], cs[|cs| - 1];
      assert forall x :: x in init ==> x in cs;
      LayoutChildrenInTree(init, parentSize, start, range, innerRadius, outerRadius,
                           level, totalSize, maxLevel, parent);
      if c.size > 0 {
        LayoutChildrenGrow(cs, parentSize, start, range, innerRadius, outerRadius, level, totalSize, maxLevel);
        var a, b := AngleAfter(init, parentSize, start, range), AngleAfter(cs, parentSize, start, range);
        LayoutInTree(c, a, b, innerRadius, outerRadius, level, totalSize, maxLevel);
        ChildInSubtree(parent, c);
        forall x | x in PreOrder(c)
          ensures x in PreOrder(parent)
        {
          SubtreeTransitive(parent, c, x);
        }
      }
    }
  }

  /** `calculateSunburstNodes`: the recursion with its loop over the sorted
      children, the running `currentAngle` and the pushes into `nodes`. */
  method CalculateSunburstNodes(node: Node, startAngle: real, endAngle: real, innerRadius: real,
                                outerRadius: real, level: nat, totalSize: real, maxLevel: nat)
    returns (nodes: seq<Entry>)
    requires Divisible(node, level, maxLevel)
    decreases maxLevel + 1 - level
    ensures nodes == Layout(node, startAngle, endAngle, innerRadius, outerRadius, level, totalSize, maxLevel)
  {
    var self := Entry(node, startAngle, endAngle, innerRadius, outerRadius, level);
    if level > maxLevel || |node.children| == 0 {
      return [self];
    }
    nodes := [self];
    var childInnerRadius := outerRadius;
    var childOuterRadius := ChildOuterRadius(outerRadius, maxLevel);
    var currentAngle := startAngle;
    var sortedChildren := SortBySizeDesc(node.children);
    SortedChildrenDivisible(node, level, maxLevel);
    assert sortedChildren[..0] == [];
    for i := 0 to |sortedChildren|
      invariant ChildrenDivisible(sortedChildren[..i], node.size, level + 1, maxLevel)
      invariant node.size > 0 || SumOfSizes(sortedChildren[..i]) == 0
      invariant currentAngle == AngleAfter(sortedChildren[..i], node.size, startAngle, AngleRange(startAngle, endAngle))
      invariant nodes == [self] + LayoutChildren(sortedChildren[..i], node.size, startAngle,
                                                 AngleRange(startAngle, endAngle), childInnerRadius, childOuterRadius,
                                                 level + 1, totalSize, maxLevel)
    {
      var child := sortedChildren[i];
      NextChildDivisible(sortedChildren, i, node.size, level + 1, maxLevel);
      if child.size != 0 {
        var childAngleRange := Width(child.size, node.size, AngleRange(startAngle, endAngle));
        var childEndAngle := currentAngle + childAngleRange;
        var sub := CalculateSunburstNodes(child, currentAngle, childEndAngle, childInnerRadius,
                                          childOuterRadius, level + 1, totalSize, maxLevel);
        VisitChild(sortedChildren, i, node.size, startAngle, AngleRange(startAngle, endAngle), currentAngle,
                   childEndAngle, childInnerRadius, childOuterRadius, level + 1, totalSize, maxLevel,
                   [self], nodes, sub);
        nodes := nodes + sub;
        currentAngle := childEndAngle;
      } else {
        SkipEmptyChild(sortedChildren, i, node.size, startAngle, AngleRange(startAngle, endAngle), currentAngle,
                       childInnerRadius, childOuterRadius, level + 1, totalSize, maxLevel, [self], nodes);
      }
    }
    assert sortedChildren[..|sortedChildren|] == sortedChildren;
    LayoutUnfold(node, startAngle, endAngle, innerRadius, outerRadius, level, totalSize, maxLevel);
  }

  /** Sorting the children keeps them divisible. */
  lemma SortedChildrenDivisible(n: Node, level: nat, maxLevel: nat)
    requires Divisible(n, level, maxLevel) && level <= maxLevel
    ensures ChildrenDivisible(SortBySizeDesc(n.children), n.size, level + 1, maxLevel)
  {
    ChildrenDivisibleEach(n.children, n.size, level + 1, maxLevel);
    ChildrenDivisibleEach(SortBySizeDesc(n.children), n.size, level + 1, maxLevel);
    SortKeepsMembers(n.children);
  }

  /** One step of `Layout` below the cut-off, for a node with children. */
  lemma LayoutUnfold(n: Node, startAngle: real, endAngle: real, innerRadius: real,
                     outerRadius: real, level: nat, totalSize: real, maxLevel: nat)
    requires Divisible(n, level, maxLevel)
    requires level <= maxLevel && n.children != []
    ensures ChildrenDivisible(SortBySizeDesc(n.children), n.size, level + 1, maxLevel)
    ensures Layout(n, startAngle, endAngle, innerRadius, outerRadius, level, totalSize, maxLevel) ==
            [Entry(n, startAngle, endAngle, innerRadius, outerRadius, level)] +
            LayoutChildren(SortBySizeDesc(n.children), n.size, startAngle, AngleRange(startAngle, endAngle),
                           outerRadius, ChildOuterRadius(outerRadius, maxLevel),
                           level + 1, totalSize, maxLevel)
  {
    SortedChildrenDivisible(n, level, maxLevel);
  }

  /** Visiting child `i` keeps the visited prefix divisible. */
  lemma NextChildDivisible(cs: seq<Node>, i: nat, parentSize: nat, level: nat, maxLevel: nat)
    requires i < |cs|
    requires ChildrenDivisible(cs, parentSize, level, maxLevel)
    ensures ChildrenDivisible(cs[..i + 1], parentSize, level, maxLevel)
    ensures parentSize > 0 || SumOfSizes(cs[..i + 1]) == 0
    ensures cs[i].size > 0 ==> parentSize > 0 && Divisible(cs[i], level, maxLevel)
  {
    ChildrenDivisibleEach(cs, parentSize, level, maxLevel);
    ChildrenDivisibleEach(cs[..i + 1], parentSize, level, maxLevel);
    assert cs[i] in cs;
    DivisibleSum(cs[..i + 1], parentSize, level, maxLevel);
  }

  /** A turn of the loop on an empty child changes neither the angle nor
      the entries. */
  lemma SkipEmptyChild(cs: seq<Node>, i: nat, parentSize: nat, start: real, range: real, angle: real,
                       innerRadius: real, outerRadius: real, level: nat, totalSize: real, maxLevel: nat,
                       head: seq<Entry>, nodes: seq<Entry>)
    requires i < |cs| && cs[i].size == 0
    requires ChildrenDivisible(cs[..i], parentSize, level, maxLevel)
    requires ChildrenDivisible(cs[..i + 1], parentSize, level, maxLevel)
    requires parentSize > 0 || SumOfSizes(cs[..i]) == 0
    requires parentSize > 0 || SumOfSizes(cs[..i + 1]) == 0
    requires angle == AngleAfter(cs[..i], parentSize, start, range)
    requires nodes == head + LayoutChildren(cs[..i], parentSize, start, range, innerRadius, outerRadius,
                                            level, totalSize, maxLevel)
    ensures angle == AngleAfter(cs[..i + 1], parentSize, start, range)
    ensures nodes == head + LayoutChildren(cs[..i + 1], parentSize, start, range, innerRadius, outerRadius,
                                           level, totalSize, maxLevel)
  {
    var next := cs[..i + 1];
    assert next[..|next| - 1] == cs[..i] && next[|next| - 1] == cs[i];
  }

  /** A turn of the loop on a non-empty child: the child's span runs from
      the current angle `angle` to `end`, the angle moves on to `end`, and
      the child's own layout is appended. */
  lemma VisitChild(cs: seq<Node>, i: nat, parentSize: nat, start: real, range: real,
                   angle: real, end: real, innerRadius: real, outerRadius: real, level: nat,
                   totalSize: real, maxLevel: nat, head: seq<Entry>, nodes: seq<Entry>, sub: seq<Entry>)
    requires i < |cs| && cs[i].size > 0 && parentSize > 0
    requires ChildrenDivisible(cs[..i], parentSize, level, maxLevel)
    requires ChildrenDivisible(cs[..i + 1], parentSize, level, maxLevel)
    requires Divisible(cs[i], level, maxLevel)
    requires angle == AngleAfter(cs[..i], parentSize, start, range)
    requires end == angle + Width(cs[i].size, parentSize, range)
    requires nodes == head + LayoutChildren(cs[..i], parentSize, start, range, innerRadius, outerRadius,
                                            level, totalSize, maxLevel)
    requires sub == Layout(cs[i], angle, end, innerRadius, outerRadius, level, totalSize, maxLevel)
    ensures end == AngleAfter(cs[..i + 1], parentSize, start, range)
    ensures nodes + sub == head + LayoutChildren(cs[..i + 1], parentSize, start, range, innerRadius,
                                                 outerRadius, level, totalSize, maxLevel)
  {
    var next := cs[..i + 1];
    assert next[..|next| - 1] == cs[..i] && next[|next| - 1] == cs[i];
  }

  /** Past the level cut-off, or for a node without children, the layout is
      the node's own entry alone. */
  lemma LayoutOfLeaf(n: Node, startAngle: real, endAngle: real, innerRadius: real,
                     outerRadius: real, level: nat, totalSize: real, maxLevel: nat)
    requires level > maxLevel || n.children == []
    ensures Layout(n, startAngle, endAngle, innerRadius, outerRadius, level, totalSize, maxLevel) ==
            [Entry(n, startAngle, endAngle, innerRadius, outerRadius, level)]
  {
  }

  /** The `totalSize` argument is handed down but never read. */
  lemma {:induction false} LayoutIgnoresTotal(n: Node, startAngle: real, endAngle: real, innerRadius: real,
                                              outerRadius: real, level: nat, t1: real, t2: real, maxLevel: nat)
    requires Divisible(n, level, maxLevel)
    decreases maxLevel + 1 - level, 1
    ensures Layout(n, startAngle, endAngle, innerRadius, outerRadius, level, t1, maxLevel) ==
            Layout(n, startAngle, endAngle, innerRadius, outerRadius, level, t2, maxLevel)
  {
    if level <= maxLevel && n.children != [] {
      LayoutUnfold(n, startAngle, endAngle, innerRadius, outerRadius, level, t1, maxLevel);
      LayoutUnfold(n, startAngle, endAngle, innerRadius, outerRadius, level, t2, maxLevel);
      LayoutChildrenIgnoresTotal(SortBySizeDesc(n.children), n.size, startAngle, AngleRange(startAngle, endAngle),
                                 outerRadius, ChildOuterRadius(outerRadius, maxLevel), level + 1,
                                 t1, t2, maxLevel);
    }
  }

  lemma {:induction false} LayoutChildrenIgnoresTotal(cs: seq<Node>, parentSize: nat, start: real, range: real,
                                                      innerRadius: real, outerRadius: real, level: nat,
                                                      t1: real, t2: real, maxLevel: nat)
    requires ChildrenDivisible(cs, parentSize, level, maxLevel)
    decreases maxLevel + 1 - level, 2, |cs|
    ensures LayoutChildren(cs, parentSize, start, range, innerRadius, outerRadius, level, t1, maxLevel) ==
            LayoutChildren(cs, parentSize, start, range, innerRadius, outerRadius, level, t2, maxLevel)
  {
    if cs != [] {
      var init, c := cs[..|cs| - 1], cs[|cs| - 1];
      LayoutChildrenIgnoresTotal(init, parentSize, start, range, innerRadius, outerRadius, level,
                                 t1, t2, maxLevel);
      if c.size > 0 {
        DivisibleSum(init, parentSize, level, maxLevel);
        var a := AngleAfter(init, parentSize, start, range);
        LayoutIgnoresTotal(c, a, a + Width(c.size, parentSize, range), innerRadius, outerRadius,
                           level, t1, t2, maxLevel);
      }
    }
  }

  // ---------------------------------------------------------------------------
  // Angles

  /** Two slices side by side make the slice of the summed size. */
  lemma WidthAdd(a: nat, b: nat, parentSize: nat, range: real)
    requires parentSize > 0
    ensures Width(a, parentSize, range) + Width(b, parentSize, range) == Width(a + b, parentSize, range)
  {
    var p := parentSize as real;
    var x, y := a as real / p, b as real / p;
    assert x * p == a as real && y * p == b as real;
    assert (x + y) * p == (a + b) as real;
    assert (a + b) as real / p == x + y;
    assert (x + y) * range == x * range + y * range;
  }

  /** A slice is no wider than the whole range, and not negative, for a size
      no larger than the parent's. */
  lemma WidthBounds(a: nat, parentSize: nat, range: real)
    requires 0 < parentSize && a <= parentSize && 0.0 <= range
    ensures 0.0 <= Width(a, parentSize, range) <= range
    ensures a == parentSize ==> Width(a, parentSize, range) == range
  {
    var p := parentSize as real;
    var x := a as real / p;
    assert x * p == a as real;
    assert 0.0 <= x <= 1.0;
    if a == parentSize {
      assert x == 1.0;
    }
    assert 0.0 <= x * range;
    assert (1.0 - x) * range >= 0.0;
    assert x * range <= range;
  }

  /** The whole parent's size takes the whole range. */
  lemma WidthWhole(parentSize: nat, range: real)
    requires parentSize > 0
    ensures Width(parentSize, parentSize, range) == range
  {
    var p := parentSize as real;
    assert p / p == 1.0;
  }

  /** The running angle after some children is the start plus the slice of
      their summed size. */
  lemma {:induction false} AngleAfterSum(cs: seq<Node>, parentSize: nat, start: real, range: real)
    requires parentSize > 0
    ensures AngleAfter(cs, parentSize, start, range) == start + Width(SumOfSizes(cs), parentSize, range)
    decreases |cs|
  {
    if cs == [] {
      assert Width(0, parentSize, range) == 0.0;
    } else {
      var init, c := cs[..|cs| - 1], cs[|cs| - 1];
      AngleAfterSum(init, parentSize, start, range);
      WidthAdd(SumOfSizes(init), c.size, parentSize, range);
      if c.size == 0 {
        assert SumOfSizes(cs) == SumOfSizes(init);
      }
    }
  }

  /** The entries at level `k`, in order. */
  function AtLevel(r: seq<Entry>, k: nat): (s: seq<Entry>)
    ensures forall i :: 0 <= i < |s| ==> s[i].level == k
  {
    if r == [] then []
    else AtLevel(r[..|r| - 1], k) + (if r[|r| - 1].level == k then [r[|r| - 1]] else [])
  }

  lemma {:induction false} AtLevelAppend(a: seq<Entry>, b: seq<Entry>, k: nat)
    ensures AtLevel(a + b, k) == AtLevel(a, k) + AtLevel(b, k)
    decreases |b|
  {
    if b == [] {
      assert a + b == a;
    } else {
      assert (a + b)[..|a + b| - 1] == a + b[..|b| - 1];
      AtLevelAppend(a, b[..|b| - 1], k);
    }
  }

  lemma {:induction false} AtLevelOfDeeper(r: seq<Entry>, k: nat, maxLevel: nat)
    requires Deeper(r, k + 1, maxLevel)
    ensures AtLevel(r, k) == []
    decreases |r|
  {
    if r != [] {
      AtLevelOfDeeper(r[..|r| - 1], k, maxLevel);
    }
  }

  /** The nodes the entries were made for. */
  function NodesOf(s: seq<Entry>): (r: seq<Node>)
    ensures |r| == |s|
    ensures forall i :: 0 <= i < |s| ==> r[i] == s[i].node
  {
    if s == [] then [] else NodesOf(s[..|s| - 1]) + [s[|s| - 1].node]
  }

  /** Spans laid edge to edge: the first starts at `from`, each next one
      starts where the previous one ends, and the last ends at `to`. */
  predicate Tiles(s: seq<Entry>, from: real, to: real)
  {
    if s == [] then from == to
    else Tiles(s[..|s| - 1], from, s[|s| - 1].startAngle) && s[|s| - 1].endAngle == to
  }

  /** Spans that tile `[from, to]` and are not reversed lie inside it. */
  lemma {:induction false} TilesWithin(s: seq<Entry>, from: real, to: real)
    requires Tiles(s, from, to)
    requires forall i :: 0 <= i < |s| ==> s[i].startAngle <= s[i].endAngle
    ensures from <= to
    ensures forall i :: 0 <= i < |s| ==> from <= s[i].startAngle <= s[i].endAngle <= to
    decreases |s|
  {
    if s != [] {
      TilesWithin(s[..|s| - 1], from, s[|s| - 1].startAngle);
    }
  }

  /** A non-empty child's own layout contributes exactly its own entry at
      its level. */
  lemma OwnEntryAtLevel(c: Node, a: real, b: real, innerRadius: real, outerRadius: real,
                        level: nat, totalSize: real, maxLevel: nat)
    requires Divisible(c, level, maxLevel)
    ensures AtLevel(Layout(c, a, b, innerRadius, outerRadius, level, totalSize, maxLevel), level) ==
            [Entry(c, a, b, innerRadius, outerRadius, level)]
  {
    var own := Layout(c, a, b, innerRadius, outerRadius, level, totalSize, maxLevel);
    LayoutBounds(c, a, b, innerRadius, outerRadius, level, totalSize, maxLevel);
    AtLevelOfDeeper(own[1..], level, maxLevel);
    assert own == [own[0]] + own[1..];
    AtLevelAppend([own[0]], own[1..], level);
    assert [own[0]][..0] == [];
  }

  /** Each entry sits in the band `inner`..`outer` and is as wide as its
      node's share of the parent's size in `range`. */
  predicate Spans(s: seq<Entry>, parentSize: nat, inner: real, outer: real, range: real)
  {
    forall i :: 0 <= i < |s| ==>
      parentSize > 0 &&
      s[i].innerRadius == inner && s[i].outerRadius == outer &&
      s[i].endAngle - s[i].startAngle == Width(s[i].node.size, parentSize, range)
  }

  /** One more visited child adds its own entry at the loop's level when it
      is non-empty, and nothing when it is empty. */
  lemma ChildStep(cs: seq<Node>, parentSize: nat, start: real, range: real,
                  innerRadius: real, outerRadius: real, level: nat,
                  totalSize: real, maxLevel: nat)
    requires ChildrenDivisible(cs, parentSize, level, maxLevel) && cs != []
    ensures ChildrenDivisible(cs[..|cs| - 1], parentSize, level, maxLevel)
    ensures cs[|cs| - 1].size == 0 ==>
              AtLevel(LayoutChildren(cs, parentSize, start, range, innerRadius, outerRadius,
                                     level, totalSize, maxLevel), level) ==
              AtLevel(LayoutChildren(cs[..|cs| - 1], parentSize, start, range, innerRadius, outerRadius,
                                     level, totalSize, maxLevel), level)
    ensures cs[|cs| - 1].size > 0 ==>
              parentSize > 0 &&
              AngleAfter(cs, parentSize, start, range) ==
                AngleAfter(cs[..|cs| - 1], parentSize, start, range) + Width(cs[|cs| - 1].size, parentSize, range) &&
              AtLevel(LayoutChildren(cs, parentSize, start, range, innerRadius, outerRadius,
                                     level, totalSize, maxLevel), level) ==
              AtLevel(LayoutChildren(cs[..|cs| - 1], parentSize, start, range, innerRadius, outerRadius,
                                     level, totalSize, maxLevel), level) +
              [Entry(cs[|cs| - 1], AngleAfter(cs[..|cs| - 1], parentSize, start, range),
                     AngleAfter(cs, parentSize, start, range), innerRadius, outerRadius, level)]
  {
    if cs[|cs| - 1].size > 0 {
      AngleAfterGrow(cs, parentSize, start, range, level, maxLevel);
      ChildStepGrow(cs, parentSize, start, range, innerRadius, outerRadius, level, totalSize, maxLevel);
    }
  }

  /** The non-empty case of `ChildStep`. */
  lemma ChildStepGrow(cs: seq<Node>, parentSize: nat, start: real, range: real,
                      innerRadius: real, outerRadius: real, level: nat,
                      totalSize: real, maxLevel: nat)
    requires ChildrenDivisible(cs, parentSize, level, maxLevel) && cs != [] && cs[|cs| - 1].size > 0
    ensures AtLevel(LayoutChildren(cs, parentSize, start, range, innerRadius, outerRadius,
                                   level, totalSize, maxLevel), level) ==
            AtLevel(LayoutChildren(cs[..|cs| - 1], parentSize, start, range, innerRadius, outerRadius,
                                   level, totalSize, maxLevel), level) +
            [Entry(cs[|cs| - 1], AngleAfter(cs[..|cs| - 1], parentSize, start, range),
                   AngleAfter(cs, parentSize, start, range), innerRadius, outerRadius, level)]
  {
    var init, c := cs[..|cs| - 1], cs[|cs| - 1];
    LayoutChildrenGrow(cs, parentSize, start, range, innerRadius, outerRadius, level, totalSize, maxLevel);
    var before := LayoutChildren(init, parentSize, start, range, innerRadius, outerRadius,
                                 level, totalSize, maxLevel);
    var a, b := AngleAfter(init, parentSize, start, range), AngleAfter(cs, parentSize, start, range);
    var own := Layout(c, a, b, innerRadius, outerRadius, level, totalSize, maxLevel);
    OwnEntryAtLevel(c, a, b, innerRadius, outerRadius, level, totalSize, maxLevel);
    AtLevelSnoc(LayoutChildren(cs, parentSize, start, range, innerRadius, outerRadius,
                               level, totalSize, maxLevel),
                before, own, Entry(c, a, b, innerRadius, outerRadius, level), level);
  }

  /** A layout ending in one contributing exactly `e` at level `k` adds `e`
      to the entries at `k`. */
  lemma AtLevelSnoc(full: seq<Entry>, before: seq<Entry>, own: seq<Entry>, e: Entry, k: nat)
    requires full == before + own && AtLevel(own, k) == [e]
    ensures AtLevel(full, k) == AtLevel(before, k) + [e]
  {
    AtLevelAppend(before, own, k);
  }

  /** Visiting one more non-empty child appends its own layout, given the
      next slice from the running angle. */
  lemma LayoutChildrenGrow(cs: seq<Node>, parentSize: nat, start: real, range: real,
                           innerRadius: real, outerRadius: real, level: nat,
                           totalSize: real, maxLevel: nat)
    requires ChildrenDivisible(cs, parentSize, level, maxLevel) && cs != [] && cs[|cs| - 1].size > 0
    ensures parentSize > 0 && Divisible(cs[|cs| - 1], level, maxLevel)
    ensures ChildrenDivisible(cs[..|cs| - 1], parentSize, level, maxLevel)
    ensures LayoutChildren(cs, parentSize, start, range, innerRadius, outerRadius, level, totalSize, maxLevel) ==
            LayoutChildren(cs[..|cs| - 1], parentSize, start, range, innerRadius, outerRadius,
                           level, totalSize, maxLevel) +
            Layout(cs[|cs| - 1], AngleAfter(cs[..|cs| - 1], parentSize, start, range),
                   AngleAfter(cs, parentSize, start, range), innerRadius, outerRadius, level, totalSize, maxLevel)
  {
    AngleAfterGrow(cs, parentSize, start, range, level, maxLevel);
  }

  /** A non-empty child advances the running angle by its width. */
  lemma AngleAfterGrow(cs: seq<Node>, parentSize: nat, start: real, range: real, level: nat, maxLevel: nat)
    requires ChildrenDivisible(cs, parentSize, level, maxLevel) && cs != [] && cs[|cs| - 1].size > 0
    ensures parentSize > 0
    ensures SumOfSizes(cs[..|cs| - 1]) == 0 || parentSize > 0
    ensures AngleAfter(cs, parentSize, start, range) ==
            AngleAfter(cs[..|cs| - 1], parentSize, start, range) + Width(cs[|cs| - 1].size, parentSize, range)
  {
    DivisibleSum(cs[..|cs| - 1], parentSize, level, maxLevel);
  }

  /** The loop pushes, at its own level, exactly one entry per non-empty
      child, in visiting order. */
  lemma {:induction false} ChildNodes(cs: seq<Node>, parentSize: nat, start: real, range: real,
                                      innerRadius: real, outerRadius: real, level: nat,
                                      totalSize: real, maxLevel: nat)
    requires ChildrenDivisible(cs, parentSize, level, maxLevel)
    decreases |cs|
    ensures NodesOf(AtLevel(LayoutChildren(cs, parentSize, start, range, innerRadius, outerRadius,
                                           level, totalSize, maxLevel), level)) == NonEmpty(cs)
  {
    if cs != [] {
      var init, c := cs[..|cs| - 1], cs[|cs| - 1];
      ChildStep(cs, parentSize, start, range, innerRadius, outerRadius, level, totalSize, maxLevel);
      ChildNodes(init, parentSize, start, range, innerRadius, outerRadius, level, totalSize, maxLevel);
      NonEmptySnoc(cs);
      if c.size > 0 {
        NodesOfSnoc(AtLevel(LayoutChildren(init, parentSize, start, range, innerRadius, outerRadius,
                                           level, totalSize, maxLevel), level),
                    Entry(c, AngleAfter(init, parentSize, start, range),
                          AngleAfter(cs, parentSize, start, range), innerRadius, outerRadius, level));
      }
    }
  }

  /** One more entry adds its node. */
  lemma NodesOfSnoc(s: seq<Entry>, e: Entry)
    ensures NodesOf(s + [e]) == NodesOf(s) + [e.node]
  {
    var t := s + [e];
    assert t[..|t| - 1] == s;
  }

  /** Those entries are laid edge to edge from `start` to the running angle. */
  lemma {:induction false} ChildTiles(cs: seq<Node>, parentSize: nat, start: real, range: real,
                                      innerRadius: real, outerRadius: real, level: nat,
                                      totalSize: real, maxLevel: nat)
    requires ChildrenDivisible(cs, parentSize, level, maxLevel) && parentSize > 0
    decreases |cs|
    ensures Tiles(AtLevel(LayoutChildren(cs, parentSize, start, range, innerRadius, outerRadius,
                                         level, totalSize, maxLevel), level),
                  start, AngleAfter(cs, parentSize, start, range))
  {
    if cs != [] {
      var init, c := cs[..|cs| - 1], cs[|cs| - 1];
      ChildStep(cs, parentSize, start, range, innerRadius, outerRadius, level, totalSize, maxLevel);
      ChildTiles(init, parentSize, start, range, innerRadius, outerRadius, level, totalSize, maxLevel);
      if c.size > 0 {
        var sb := AtLevel(LayoutChildren(init, parentSize, start, range, innerRadius, outerRadius,
                                         level, totalSize, maxLevel), level);
        var s := sb + [Entry(c, AngleAfter(init, parentSize, start, range),
                             AngleAfter(cs, parentSize, start, range), innerRadius, outerRadius, level)];
        assert s[..|s| - 1] == sb;
      }
    }
  }

  /** Those entries all sit in the loop's band, each as wide as its share. */
  lemma {:induction false} ChildBands(cs: seq<Node>, parentSize: nat, start: real, range: real,
                                      innerRadius: real, outerRadius: real, level: nat,
                                      totalSize: real, maxLevel: nat)
    requires ChildrenDivisible(cs, parentSize, level, maxLevel)
    decreases |cs|
    ensures Spans(AtLevel(LayoutChildren(cs, parentSize, start, range, innerRadius, outerRadius,
                                         level, totalSize, maxLevel), level),
                  parentSize, innerRadius, outerRadius, range)
  {
    if cs != [] {
      var init, c := cs[..|cs| - 1], cs[|cs| - 1];
      ChildStep(cs, parentSize, start, range, innerRadius, outerRadius, level, totalSize, maxLevel);
      ChildBands(init, parentSize, start, range, innerRadius, outerRadius, level, totalSize, maxLevel);
      if c.size > 0 {
        SpansSnoc(AtLevel(LayoutChildren(init, parentSize, start, range, innerRadius, outerRadius,
                                         level, totalSize, maxLevel), level),
                  Entry(c, AngleAfter(init, parentSize, start, range), AngleAfter(cs, parentSize, start, range),
                        innerRadius, outerRadius, level),
                  parentSize, innerRadius, outerRadius, range);
      }
    }
  }

  /** One more entry in the band and of its share's width keeps `Spans`. */
  lemma SpansSnoc(s: seq<Entry>, e: Entry, parentSize: nat, inner: real, outer: real, range: real)
    requires Spans(s, parentSize, inner, outer, range) && parentSize > 0
    requires e.innerRadius == inner && e.outerRadius == outer
    requires e.endAngle - e.startAngle == Width(e.node.size, parentSize, range)
    ensures Spans(s + [e], parentSize, inner, outer, range)
  {
    var t := s + [e];
    forall i | 0 <= i < |t|
      ensures t[i].innerRadius == inner && t[i].outerRadius == outer &&
              t[i].endAngle - t[i].startAngle == Width(t[i].node.size, parentSize, range)
    {
      if i < |s| {
        assert t[i] == s[i];
      }
    }
  }

  /** The entries one level below the node's own in its layout: those of
      its direct children. */
  function ChildEntries(n: Node, startAngle: real, endAngle: real, innerRadius: real,
                        outerRadius: real, level: nat, totalSize: real, maxLevel: nat): seq<Entry>
    requires Divisible(n, level, maxLevel)
  {
    AtLevel(Layout(n, startAngle, endAngle, innerRadius, outerRadius, level, totalSize, maxLevel)[1..],
            level + 1)
  }

  /** The direct children of a laid-out node: its non-empty children,
      largest first. */
  lemma ChildrenOfLayout(n: Node, startAngle: real, endAngle: real, innerRadius: real,
                         outerRadius: real, level: nat, totalSize: real, maxLevel: nat)
    requires Divisible(n, level, maxLevel) && level <= maxLevel
    ensures NodesOf(ChildEntries(n, startAngle, endAngle, innerRadius, outerRadius, level, totalSize, maxLevel)) ==
            NonEmpty(SortBySizeDesc(n.children))
  {
    if n.children == [] {
      ChildEntriesOfLeaf(n, startAngle, endAngle, innerRadius, outerRadius, level, totalSize, maxLevel);
    } else {
      ChildEntriesUnfold(n, startAngle, endAngle, innerRadius, outerRadius, level, totalSize, maxLevel);
      ChildNodes(SortBySizeDesc(n.children), n.size, startAngle, AngleRange(startAngle, endAngle), outerRadius,
                 ChildOuterRadius(outerRadius, maxLevel), level + 1, totalSize, maxLevel);
    }
  }

  /** A childless node has no child entries. */
  lemma ChildEntriesOfLeaf(n: Node, startAngle: real, endAngle: real, innerRadius: real,
                           outerRadius: real, level: nat, totalSize: real, maxLevel: nat)
    requires Divisible(n, level, maxLevel) && n.children == []
    ensures ChildEntries(n, startAngle, endAngle, innerRadius, outerRadius, level, totalSize, maxLevel) == []
    ensures NonEmpty(SortBySizeDesc(n.children)) == []
  {
    var r := Layout(n, startAngle, endAngle, innerRadius, outerRadius, level, totalSize, maxLevel);
    assert r[1..] == [];
  }

  /** The child entries are those of the loop over the sorted children. */
  lemma ChildEntriesUnfold(n: Node, startAngle: real, endAngle: real, innerRadius: real,
                           outerRadius: real, level: nat, totalSize: real, maxLevel: nat)
    requires Divisible(n, level, maxLevel) && level <= maxLevel && n.children != []
    ensures ChildrenDivisible(SortBySizeDesc(n.children), n.size, level + 1, maxLevel)
    ensures ChildEntries(n, startAngle, endAngle, innerRadius, outerRadius, level, totalSize, maxLevel) ==
            AtLevel(LayoutChildren(SortBySizeDesc(n.children), n.size, startAngle, AngleRange(startAngle, endAngle),
                                   outerRadius, ChildOuterRadius(outerRadius, maxLevel), level + 1,
                                   totalSize, maxLevel), level + 1)
  {
    var r := Layout(n, startAngle, endAngle, innerRadius, outerRadius, level, totalSize, maxLevel);
    LayoutUnfold(n, startAngle, endAngle, innerRadius, outerRadius, level, totalSize, maxLevel);
    assert r[1..] == LayoutChildren(SortBySizeDesc(n.children), n.size, startAngle, AngleRange(startAngle, endAngle),
                                    outerRadius, ChildOuterRadius(outerRadius, maxLevel), level + 1,
                                    totalSize, maxLevel);
  }

  /** Each direct child lies in the band from the node's outer radius to the
      next ring, with a slice of the node's span proportional to its size. */
  lemma ChildrenInBands(n: Node, startAngle: real, endAngle: real, innerRadius: real,
                        outerRadius: real, level: nat, totalSize: real, maxLevel: nat)
    requires Divisible(n, level, maxLevel) && level <= maxLevel
    ensures Spans(ChildEntries(n, startAngle, endAngle, innerRadius, outerRadius, level, totalSize, maxLevel),
                  n.size, outerRadius, ChildOuterRadius(outerRadius, maxLevel), AngleRange(startAngle, endAngle))
  {
    var r := Layout(n, startAngle, endAngle, innerRadius, outerRadius, level, totalSize, maxLevel);
    if n.children == [] {
      assert r[1..] == [];
    } else {
      LayoutUnfold(n, startAngle, endAngle, innerRadius, outerRadius, level, totalSize, maxLevel);
      var sorted := SortBySizeDesc(n.children);
      assert r[1..] == LayoutChildren(sorted, n.size, startAngle, AngleRange(startAngle, endAngle), outerRadius,
                                      ChildOuterRadius(outerRadius, maxLevel), level + 1, totalSize, maxLevel);
      ChildBands(sorted, n.size, startAngle, AngleRange(startAngle, endAngle), outerRadius,
                 ChildOuterRadius(outerRadius, maxLevel), level + 1, totalSize, maxLevel);
    }
  }

  /** The children's slices are laid edge to edge from `startAngle` to the
      angle of their summed size, and so to `endAngle` exactly when the
      children's sizes add up to the node's. */
  lemma ChildrenTileLayout(n: Node, startAngle: real, endAngle: real, innerRadius: real,
                           outerRadius: real, level: nat, totalSize: real, maxLevel: nat)
    requires Divisible(n, level, maxLevel) && level <= maxLevel && n.size > 0
    ensures var s := ChildEntries(n, startAngle, endAngle, innerRadius, outerRadius, level,
                                  totalSize, maxLevel);
            Tiles(s, startAngle, startAngle + Width(SumOfSizes(n.children), n.size, AngleRange(startAngle, endAngle))) &&
            (SumOfSizes(n.children) == n.size ==> Tiles(s, startAngle, endAngle))
  {
    var r := Layout(n, startAngle, endAngle, innerRadius, outerRadius, level, totalSize, maxLevel);
    var range := AngleRange(startAngle, endAngle);
    var total := SumOfSizes(n.children);
    if n.children == [] {
      assert r[1..] == [];
      assert Width(0, n.size, range) == 0.0;
    } else {
      LayoutUnfold(n, startAngle, endAngle, innerRadius, outerRadius, level, totalSize, maxLevel);
      var sorted := SortBySizeDesc(n.children);
      assert r[1..] == LayoutChildren(sorted, n.size, startAngle, range, outerRadius,
                                      ChildOuterRadius(outerRadius, maxLevel), level + 1, totalSize, maxLevel);
      ChildTiles(sorted, n.size, startAngle, range, outerRadius, ChildOuterRadius(outerRadius, maxLevel),
                 level + 1, totalSize, maxLevel);
      AngleAfterSum(sorted, n.size, startAngle, range);
      SortKeepsSum(n.children);
    }
    if total == n.size {
      WidthWhole(n.size, range);
    }
  }

  /** When the children's sizes add up to no more than the node's, every
      child's slice lies inside the node's span. */
  lemma ChildrenInsideLayout(n: Node, startAngle: real, endAngle: real, innerRadius: real,
                             outerRadius: real, level: nat, totalSize: real, maxLevel: nat)
    requires Divisible(n, level, maxLevel) && level <= maxLevel
    requires 0 < n.size && SumOfSizes(n.children) <= n.size && startAngle <= endAngle
    ensures var s := ChildEntries(n, startAngle, endAngle, innerRadius, outerRadius, level,
                                  totalSize, maxLevel);
            forall i :: 0 <= i < |s| ==> startAngle <= s[i].startAngle <= s[i].endAngle <= endAngle
  {
    var s := ChildEntries(n, startAngle, endAngle, innerRadius, outerRadius, level,
                          totalSize, maxLevel);
    var w := Width(SumOfSizes(n.children), n.size, AngleRange(startAngle, endAngle));
    ChildrenTileLayout(n, startAngle, endAngle, innerRadius, outerRadius, level, totalSize, maxLevel);
    ChildrenForward(n, startAngle, endAngle, innerRadius, outerRadius, level, totalSize, maxLevel);
    WidthBounds(SumOfSizes(n.children), n.size, AngleRange(startAngle, endAngle));
    TilesInside(s, startAngle, startAngle + w, endAngle);
  }

  /** No child's slice is reversed when the node's span is not. */
  lemma ChildrenForward(n: Node, startAngle: real, endAngle: real, innerRadius: real,
                        outerRadius: real, level: nat, totalSize: real, maxLevel: nat)
    requires Divisible(n, level, maxLevel) && level <= maxLevel && startAngle <= endAngle
    ensures var s := ChildEntries(n, startAngle, endAngle, innerRadius, outerRadius, level,
                                  totalSize, maxLevel);
            forall i :: 0 <= i < |s| ==> s[i].startAngle <= s[i].endAngle
  {
    var s := ChildEntries(n, startAngle, endAngle, innerRadius, outerRadius, level,
                          totalSize, maxLevel);
    ChildrenInBands(n, startAngle, endAngle, innerRadius, outerRadius, level, totalSize, maxLevel);
    SpansForward(s, n.size, outerRadius, ChildOuterRadius(outerRadius, maxLevel), AngleRange(startAngle, endAngle));
  }

  /** Spans that tile `[from, to]`, are not reversed and end no later than
      `bound` lie inside `[from, bound]`. */
  lemma TilesInside(s: seq<Entry>, from: real, to: real, bound: real)
    requires Tiles(s, from, to) && to <= bound
    requires forall i :: 0 <= i < |s| ==> s[i].startAngle <= s[i].endAngle
    ensures forall i :: 0 <= i < |s| ==> from <= s[i].startAngle <= s[i].endAngle <= bound
  {
    TilesWithin(s, from, to);
  }

  /** Spans over a non-negative range are not reversed. */
  lemma SpansForward(s: seq<Entry>, parentSize: nat, inner: real, outer: real, range: real)
    requires Spans(s, parentSize, inner, outer, range) && 0.0 <= range
    ensures forall i :: 0 <= i < |s| ==> s[i].startAngle <= s[i].endAngle
  {
    forall i | 0 <= i < |s|
      ensures s[i].startAngle <= s[i].endAngle
    {
      WidthNonNegative(s[i].node.size, parentSize, range);
    }
  }

  /** A slice of a non-negative range is not negative. */
  lemma WidthNonNegative(a: nat, parentSize: nat, range: real)
    requires 0 < parentSize && 0.0 <= range
    ensures 0.0 <= Width(a, parentSize, range)
  {
    var x := a as real / parentSize as real;
    assert x * parentSize as real == a as real;
    assert 0.0 <= x;
  }

  // ---------------------------------------------------------------------------
  // Rings of the chart as drawn

  /** Radius of ring edge `k` with the chart's default four levels: the first
      ring starts at `minRadius`, each ring is `(maxRadius - minRadius) / 4`
      = 57.5 wide, and the edges stop growing at `maxRadius`. */
  function RingEdge(k: nat): real
  {
    Min(MaxRadius, MinRadius + k as real * 57.5)
  }

  /** Each entry lies on the ring of its level. */
  predicate OnRings(r: seq<Entry>)
  {
    forall i :: 0 <= i < |r| ==>
      r[i].innerRadius == RingEdge(r[i].level) && r[i].outerRadius == RingEdge(r[i].level + 1)
  }

  lemma OnRingsConcat(a: seq<Entry>, b: seq<Entry>)
    requires OnRings(a) && OnRings(b)
    ensures OnRings(a + b)
  {
    forall i | 0 <= i < |a + b|
      ensures (a + b)[i].innerRadius == RingEdge((a + b)[i].level)
      ensures (a + b)[i].outerRadius == RingEdge((a + b)[i].level + 1)
    {
      if i >= |a| {
        assert (a + b)[i] == b[i - |a|];
      }
    }
  }

  /** The child band computed from a ring's outer edge is the next ring. */
  lemma NextRing(k: nat)
    ensures ChildOuterRadius(RingEdge(k + 1), DefaultMaxLevel) == RingEdge(k + 2)
  {
    assert (MaxRadius - MinRadius) / DefaultMaxLevel as real == 57.5;
  }

  /** Laid out from the ring of its level, every entry of a subtree lies on
      the ring of its own level. */
  lemma {:induction false} LayoutOnRings(n: Node, startAngle: real, endAngle: real, level: nat, totalSize: real)
    requires Divisible(n, level, DefaultMaxLevel)
    decreases DefaultMaxLevel + 1 - level, 1
    ensures OnRings(Layout(n, startAngle, endAngle, RingEdge(level), RingEdge(level + 1), level,
                           totalSize, DefaultMaxLevel))
  {
    var r := Layout(n, startAngle, endAngle, RingEdge(level), RingEdge(level + 1), level,
                    totalSize, DefaultMaxLevel);
    if level <= DefaultMaxLevel && n.children != [] {
      LayoutUnfold(n, startAngle, endAngle, RingEdge(level), RingEdge(level + 1), level,
                   totalSize, DefaultMaxLevel);
      NextRing(level);
      var rest := LayoutChildren(SortBySizeDesc(n.children), n.size, startAngle, AngleRange(startAngle, endAngle),
                                 RingEdge(level + 1), RingEdge(level + 2), level + 1,
                                 totalSize, DefaultMaxLevel);
      LayoutChildrenOnRings(SortBySizeDesc(n.children), n.size, startAngle, AngleRange(startAngle, endAngle),
                            level + 1, totalSize);
      assert r == [r[0]] + rest;
      OnRingsConcat([r[0]], rest);
    }
  }

  lemma {:induction false} LayoutChildrenOnRings(cs: seq<Node>, parentSize: nat, start: real, range: real,
                                                 level: nat, totalSize: real)
    requires ChildrenDivisible(cs, parentSize, level, DefaultMaxLevel)
    decreases DefaultMaxLevel + 1 - level, 2, |cs|
    ensures OnRings(LayoutChildren(cs, parentSize, start, range, RingEdge(level), RingEdge(level + 1),
                                   level, totalSize, DefaultMaxLevel))
  {
    if cs != [] {
      var init, c := cs[..|cs| - 1], cs[|cs| - 1];
      LayoutChildrenOnRings(init, parentSize, start, range, level, totalSize);
      if c.size > 0 {
        DivisibleSum(init, parentSize, level, DefaultMaxLevel);
        var a := AngleAfter(init, parentSize, start, range);
        var before := LayoutChildren(init, parentSize, start, range, RingEdge(level), RingEdge(level + 1),
                                     level, totalSize, DefaultMaxLevel);
        var own := Layout(c, a, a + Width(c.size, parentSize, range), RingEdge(level), RingEdge(level + 1),
                          level, totalSize, DefaultMaxLevel);
        LayoutOnRings(c, a, a + Width(c.size, parentSize, range), level, totalSize);
        OnRingsConcat(before, own);
      }
    }
  }

  /** `calculateSunburstNodes` as the chart calls it: nothing to draw for a
      missing tree or one of size 0, otherwise the whole circle from level 0,
      with the first ring from `minRadius` to `minRadius + (maxRadius -
      minRadius) / 4` and the tree's size as `totalSize`. */
  method SunburstNodes(data: Option<Node>) returns (nodes: Option<seq<Entry>>)
    requires data.Some? ==> Divisible(data.value, 0, DefaultMaxLevel)
    ensures nodes.None? <==> data.None? || data.value.size == 0
    ensures nodes.Some? ==>
              nodes.value == Layout(data.value, 0.0, 360.0, RingEdge(0), RingEdge(1), 0,
                                    data.value.size as real, DefaultMaxLevel)
  {
    if data.None? || data.value.size == 0 {
      return None;
    }
    var n := data.value;
    var layout := CalculateSunburstNodes(n, 0.0, 360.0, MinRadius, MinRadius + (MaxRadius - MinRadius) / 4.0,
                                         0, n.size as real, DefaultMaxLevel);
    return Some(layout);
  }

  /** What the chart draws for a tree: the root's entry covering the whole
      circle on the first ring, every entry on the ring of its level, levels
      0 to 5, the entries past level 3 squeezed to zero width at `maxRadius`,
      and the root's non-empty children, largest first, filling the circle
      when their sizes add up to the root's. */
  lemma ChartShape(n: Node)
    requires Divisible(n, 0, DefaultMaxLevel) && n.size > 0
    ensures var r := Layout(n, 0.0, 360.0, RingEdge(0), RingEdge(1), 0, n.size as real, DefaultMaxLevel);
            r[0] == Entry(n, 0.0, 360.0, MinRadius, 107.5, 0) &&
            OnRings(r) &&
            (forall i :: 0 <= i < |r| ==> r[i].level <= DefaultMaxLevel + 1) &&
            (forall i :: 0 <= i < |r| && r[i].level >= DefaultMaxLevel ==>
               r[i].innerRadius == r[i].outerRadius == MaxRadius) &&
            NodesOf(ChildEntries(n, 0.0, 360.0, RingEdge(0), RingEdge(1), 0, n.size as real, DefaultMaxLevel)) ==
              NonEmpty(SortBySizeDesc(n.children)) &&
            (SumOfSizes(n.children) == n.size ==>
               Tiles(ChildEntries(n, 0.0, 360.0, RingEdge(0), RingEdge(1), 0, n.size as real, DefaultMaxLevel),
                     0.0, 360.0))
  {
    var r := Layout(n, 0.0, 360.0, RingEdge(0), RingEdge(1), 0, n.size as real, DefaultMaxLevel);
    LayoutOnRings(n, 0.0, 360.0, 0, n.size as real);
    LayoutBounds(n, 0.0, 360.0, RingEdge(0), RingEdge(1), 0, n.size as real, DefaultMaxLevel);
    forall i | 0 <= i < |r|
      ensures r[i].level <= DefaultMaxLevel + 1
    {
      if i > 0 {
        assert r[1..][i - 1] == r[i];
      }
    }
    ChildrenOfLayout(n, 0.0, 360.0, RingEdge(0), RingEdge(1), 0, n.size as real, DefaultMaxLevel);
    ChildrenTileLayout(n, 0.0, 360.0, RingEdge(0), RingEdge(1), 0, n.size as real, DefaultMaxLevel);
  }
}
