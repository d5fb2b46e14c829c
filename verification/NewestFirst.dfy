/**
 The bounded max-heap ClaimBatch keeps: a slice ordered by container/heap, whose root is
 the newest of the messages held.
 */
module NewestFirstHeap {
  import opened Types

  function Parent(k: int): int
    requires 0 < k
  {
    (k - 1) / 2
  }

  ghost predicate Newer(a: Meta, b: Meta) {
    a.envelope.received > b.envelope.received
  }

  /** The element at k is no newer than the one at position p. */
  ghost predicate Under(s: seq<Meta>, k: int, p: int)
    requires 0 <= k < |s| && 0 <= p < |s|
  {
    !Newer(s[k], s[p])
  }

  /** No element is newer than its parent. */
  ghost predicate HeapOrdered(s: seq<Meta>) {
    forall k :: 0 < k < |s| ==> Under(s, k, Parent(k))
  }

  /** Ordered everywhere except between position hole and its parent. */
  ghost predicate OrderedButUp(s: seq<Meta>, hole: int)
    requires 0 <= hole < |s|
  {
    && (forall k :: 0 < k < |s| && k != hole ==> Under(s, k, Parent(k)))
    && (forall k :: 0 < hole && 0 < k < |s| && Parent(k) == hole ==> Under(s, k, Parent(hole)))
  }

  /** The first n elements are ordered except between position hole and its children. */
  ghost predicate OrderedButDown(s: seq<Meta>, n: int, hole: int)
    requires n <= |s| && 0 <= hole
  {
    && (forall k :: 0 < k < n && Parent(k) != hole ==> Under(s, k, Parent(k)))
    && (forall k :: 0 < hole && 0 < k < n && Parent(k) == hole ==> Under(s, k, Parent(hole)))
  }

  /** The root of a heap is its newest element. */
  lemma {:induction false} RootIsNewest(s: seq<Meta>, k: int)
    requires HeapOrdered(s) && 0 <= k < |s|
    ensures !Newer(s[k], s[0])
    decreases k
  {
    if k > 0 {
      RootIsNewest(s, Parent(k));
      assert Under(s, k, Parent(k));
    }
  }

  ghost function Swapped(s: seq<Meta>, i: int, j: int): seq<Meta>
    requires 0 <= i < |s| && 0 <= j < |s|
  {
    s[i := s[j]][j := s[i]]
  }

  /** Swapping the hole with its newer child moves the hole to that child. */
  lemma SinkStep(s: seq<Meta>, n: int, i: int, j: int)
    requires 0 <= i < j < n <= |s| && Parent(j) == i
    requires OrderedButDown(s, n, i)
    requires Newer(s[j], s[i])
    requires forall k :: 0 < k < n && Parent(k) == i ==> Under(s, k, j)
    ensures OrderedButDown(Swapped(s, i, j), n, j)
    ensures Swapped(s, i, j)[n..] == s[n..]
    ensures multiset(Swapped(s, i, j)[..n]) == multiset(s[..n])
  {
    var t := Swapped(s, i, j);
    assert t[..n] == s[..n][i := s[..n][j]][j := s[..n][i]];
    forall k | 0 < k < n && Parent(k) != j
      ensures Under(t, k, Parent(k))
    {
      if Parent(k) == i {
        assert Under(s, k, j);
      } else if k == i {
        assert Under(s, j, Parent(i));
      } else {
        assert Under(s, k, Parent(k));
      }
    }
    forall k | 0 < k < n && Parent(k) == j
      ensures Under(t, k, Parent(j))
    {
      assert Under(s, k, Parent(k));
    }
  }

  /** Swapping the hole with its older parent moves the hole to that parent. */
  lemma LiftStep(s: seq<Meta>, j: int)
    requires 0 < j < |s|
    requires OrderedButUp(s, j)
    requires Newer(s[j], s[Parent(j)])
    ensures OrderedButUp(Swapped(s, Parent(j), j), Parent(j))
  {
    var i := Parent(j);
    var t := Swapped(s, i, j);
    forall k | 0 < k < |s| && k != i
      ensures Under(t, k, Parent(k))
    {
      if Parent(k) == j {
        assert Under(s, k, i);
      } else if k != j {
        assert Under(s, k, Parent(k));
      }
    }
    forall k | 0 < i && 0 < k < |s| && Parent(k) == i
      ensures Under(t, k, Parent(i))
    {
      assert Under(s, i, Parent(i));
      if k != j {
        assert Under(s, k, Parent(k));
      }
    }
  }

  lemma NoneNewerThanRoot(items: seq<Meta>)
    requires HeapOrdered(items) && items != []
    ensures forall o :: o in items ==> !Newer(o, items[0])
  {
    forall o | o in items
      ensures !Newer(o, items[0])
    {
      var k :| 0 <= k < |items| && items[k] == o;
      RootIsNewest(items, k);
    }
  }

  class NewestFirst {
    var items: seq<Meta>

    constructor ()
      ensures items == []
    {
      items := [];
    }

    method Swap(i: int, j: int)
      requires 0 <= i < |items| && 0 <= j < |items|
      modifies this
      ensures items == Swapped(old(items), i, j)
      ensures multiset(items) == multiset(old(items))
    {
      items := items[i := items[j]][j := items[i]];
    }

    /** heap.up: lift the element at start until its parent is at least as new. */
    method Up(start: int)
      requires 0 <= start < |items| && OrderedButUp(items, start)
      modifies this
      ensures HeapOrdered(items) && multiset(items) == multiset(old(items))
    {
      var j := start;
      while true
        invariant 0 <= j < |items|
        invariant OrderedButUp(items, j)
        invariant multiset(items) == multiset(old(items))
        decreases j
      {
        if j == 0 || !(items[j].envelope.received > items[Parent(j)].envelope.received) {
          break;
        }
        var i := Parent(j);
        LiftStep(items, j);
        Swap(i, j);
        j := i;
      }
    }

    /** heap.down over the first n elements: sink the root until no child is newer. */
    method Down(n: int)
      requires 0 <= n <= |items| && OrderedButDown(items, n, 0)
      modifies this
      ensures |items| == |old(items)| && items[n..] == old(items)[n..]
      ensures HeapOrdered(items[..n])
      ensures multiset(items[..n]) == multiset(old(items)[..n])
    {
      var i := 0;
      while true
        invariant |items| == |old(items)| && items[n..] == old(items)[n..]
        invariant 0 <= i && (i < n || n == 0)
        invariant OrderedButDown(items, n, i)
        invariant multiset(items[..n]) == multiset(old(items)[..n])
        decreases n - i
      {
        var j := 2 * i + 1;
        if j >= n {
          break;
        }
        if j + 1 < n && items[j + 1].envelope.received > items[j].envelope.received {
          j := j + 1;
        }
        if !(items[j].envelope.received > items[i].envelope.received) {
          break;
        }
        SinkStep(items, n, i, j);
        Swap(i, j);
        i := j;
      }
    }

    /** heap.Push. */
    method Push(m: Meta)
      requires HeapOrdered(items)
      modifies this
      ensures HeapOrdered(items)
      ensures multiset(items) == multiset(old(items)) + multiset{m}
    {
      items := items + [m];
      Up(|items| - 1);
    }

    /** heap.Fix at the root after its element was replaced. */
    method ReplaceRoot(m: Meta)
      requires HeapOrdered(items) && items != []
      modifies this
      ensures HeapOrdered(items)
      ensures multiset(items) == multiset(old(items)) - multiset{old(items)[0]} + multiset{m}
    {
      items := items[0 := m];
      ghost var replaced := items;
      assert replaced[..|replaced|] == replaced;
      Down(|items|);
      assert items[..|items|] == items;
    }

    /** heap.Pop: the newest element leaves. */
    method Pop() returns (m: Meta)
      requires HeapOrdered(items) && items != []
      modifies this
      ensures HeapOrdered(items)
      ensures multiset(old(items)) == multiset(items) + multiset{m}
      ensures forall o :: o in old(items) ==> !Newer(o, m)
    {
      ghost var start := items;
      var n := |items| - 1;
      NoneNewerThanRoot(start);
      Swap(0, n);
      ghost var swapped := items;
      assert swapped == swapped[..n] + swapped[n..] && swapped[n..] == [start[0]];
      Down(n);
      m := items[n];
      assert items[n] == items[n..][0];
      items := items[..n];
    }
  }
}
