/** The ordering both charts apply to a copy of a node's children,
    `sort((a, b) => b.size - a.size)`: largest first, and, because
    `Array.prototype.sort` is stable, children of equal size keep their
    original relative order. */
module SizeOrder {
  import opened FileTree

  /** Sizes never increase along the sequence. */
  predicate Descending(s: seq<Node>)
  {
    forall i, j :: 0 <= i < j < |s| ==> s[i].size >= s[j].size
  }

  /** Puts `x` in front of the first entry that is not larger than it. */
  function InsertBySize(x: Node, s: seq<Node>): (r: seq<Node>)
    ensures |r| == |s| + 1
  {
    if s == [] || s[0].size <= x.size then [x] + s
    else [s[0]] + InsertBySize(x, s[1..])
  }

  /** A stable insertion sort, largest size first. */
  function SortBySizeDesc(s: seq<Node>): (r: seq<Node>)
    ensures |r| == |s|
  {
    if s == [] then [] else InsertBySize(s[0], SortBySizeDesc(s[1..]))
  }

  /** Inserting adds exactly the inserted node. */
  lemma {:induction false} InsertIsPermutation(x: Node, s: seq<Node>)
    ensures multiset(InsertBySize(x, s)) == multiset(s) + multiset{x}
    decreases |s|
  {
    if s != [] && s[0].size > x.size {
      InsertIsPermutation(x, s[1..]);
      assert s == [s[0]] + s[1..];
    }
  }

  /** Sorting is a permutation: the same nodes, each as often. */
  lemma {:induction false} SortIsPermutation(s: seq<Node>)
    ensures multiset(SortBySizeDesc(s)) == multiset(s)
    decreases |s|
  {
    if s != [] {
      SortIsPermutation(s[1..]);
      InsertIsPermutation(s[0], SortBySizeDesc(s[1..]));
      assert s == [s[0]] + s[1..];
    }
  }

  /** Every node of the sorted sequence comes from the input and back. */
  lemma SortKeepsMembers(s: seq<Node>)
    ensures forall y :: y in SortBySizeDesc(s) <==> y in s
  {
    SortIsPermutation(s);
    forall y
      ensures y in SortBySizeDesc(s) <==> y in s
    {
      assert y in SortBySizeDesc(s) <==> y in multiset(SortBySizeDesc(s));
    }
  }

  /** The result is ordered largest first. */
  lemma {:induction false} SortIsDescending(s: seq<Node>)
    ensures Descending(SortBySizeDesc(s))
    decreases |s|
  {
    if s != [] {
      SortIsDescending(s[1..]);
      InsertKeepsDescending(s[0], SortBySizeDesc(s[1..]));
    }
  }

  lemma {:induction false} InsertKeepsDescending(x: Node, s: seq<Node>)
    requires Descending(s)
    ensures Descending(InsertBySize(x, s))
    decreases |s|
  {
    if s != [] && s[0].size > x.size {
      var rest := InsertBySize(x, s[1..]);
      InsertKeepsDescending(x, s[1..]);
      var r := [s[0]] + rest;
      assert r == InsertBySize(x, s);
      forall i, j | 0 <= i < j < |r|
        ensures r[i].size >= r[j].size
      {
        if i == 0 {
          assert r[j] in rest;
          InsertIsPermutation(x, s[1..]);
          assert r[j] in multiset(rest);
          if r[j] != x {
            var k :| 0 <= k < |s[1..]| && s[1..][k] == r[j];
            assert s[k + 1] == r[j];
          }
        } else {
          assert r[i] == rest[i - 1] && r[j] == rest[j - 1];
        }
      }
    }
  }

  /** Inserting adds exactly the inserted node's size to the total. */
  lemma {:induction false} InsertAddsSize(x: Node, s: seq<Node>)
    ensures SumOfSizes(InsertBySize(x, s)) == x.size + SumOfSizes(s)
    decreases |s|
  {
    if s == [] || s[0].size <= x.size {
      SumOfSizesAppend([x], s);
      assert SumOfSizes([x]) == x.size by {
        assert [x][..0] == [];
      }
    } else {
      InsertAddsSize(x, s[1..]);
      SumOfSizesAppend([s[0]], InsertBySize(x, s[1..]));
      SumOfSizesAppend([s[0]], s[1..]);
      assert [s[0]] + s[1..] == s;
      assert SumOfSizes([s[0]]) == s[0].size by {
        assert [s[0]][..0] == [];
      }
    }
  }

  /** Sorting does not change the total size. */
  lemma {:induction false} SortKeepsSum(s: seq<Node>)
    ensures SumOfSizes(SortBySizeDesc(s)) == SumOfSizes(s)
    decreases |s|
  {
    if s != [] {
      SortKeepsSum(s[1..]);
      InsertAddsSize(s[0], SortBySizeDesc(s[1..]));
      SumOfSizesAppend([s[0]], s[1..]);
      assert [s[0]] + s[1..] == s;
      assert SumOfSizes([s[0]]) == s[0].size by {
        assert [s[0]][..0] == [];
      }
    }
  }

  /** The entries of size `k`, in order. */
  function WithSize(s: seq<Node>, k: nat): seq<Node>
  {
    if s == [] then []
    else if s[0].size == k then [s[0]] + WithSize(s[1..], k)
    else WithSize(s[1..], k)
  }

  lemma {:induction false} InsertKeepsTies(x: Node, s: seq<Node>, k: nat)
    ensures WithSize(InsertBySize(x, s), k) ==
            if x.size == k then [x] + WithSize(s, k) else WithSize(s, k)
    decreases |s|
  {
    if s == [] || s[0].size <= x.size {
      assert ([x] + s)[1..] == s;
      if s != [] && s[0].size < x.size && x.size == k {
        // nothing before x has size k
      }
    } else {
      var r := InsertBySize(x, s);
      assert r[1..] == InsertBySize(x, s[1..]);
      InsertKeepsTies(x, s[1..], k);
    }
  }

  /** Stability: for every size, the entries of that size appear in the
      sorted sequence in exactly their original order. */
  lemma {:induction false} SortIsStable(s: seq<Node>, k: nat)
    ensures WithSize(SortBySizeDesc(s), k) == WithSize(s, k)
    decreases |s|
  {
    if s != [] {
      SortIsStable(s[1..], k);
      InsertKeepsTies(s[0], SortBySizeDesc(s[1..]), k);
    }
  }

  /** The entries of one size in a prefix are a prefix of that size's entries. */
  lemma {:induction false} WithSizeOfPrefix(s: seq<Node>, m: nat, k: nat)
    requires m <= |s|
    ensures |WithSize(s[..m], k)| <= |WithSize(s, k)|
    ensures WithSize(s[..m], k) == WithSize(s, k)[..|WithSize(s[..m], k)|]
    decreases m
  {
    if m > 0 {
      assert s[..m][1..] == s[1..][..m - 1];
      WithSizeOfPrefix(s[1..], m - 1, k);
    }
  }
}
