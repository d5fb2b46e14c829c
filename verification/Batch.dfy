/** What a claimed batch has to be, and why the bounded heap produces one. */
module Batch {
  import opened Types
  import opened NewestFirstHeap

  /** Whether a message could be claimed at all. */
  predicate Due(index: map<QueueId, Meta>, leased: set<QueueId>, id: QueueId, now: Time) {
    id in index && id !in leased && index[id].nextAttempt <= now
  }

  predicate Eligible(
    index: map<QueueId, Meta>, leased: set<QueueId>, now: Time, skip: string -> bool, id: QueueId)
  {
    Due(index, leased, id, now) && !skip(index[id].envelope.route)
  }

  ghost function EligibleIds(
    index: map<QueueId, Meta>, leased: set<QueueId>, now: Time, skip: string -> bool): set<QueueId>
  {
    set id | id in index && Eligible(index, leased, now, skip, id)
  }

  function IdsOf(batch: seq<Meta>): set<QueueId> {
    set m | m in batch :: m.id
  }

  ghost predicate SortedByReceived(batch: seq<Meta>) {
    forall i, j :: 0 <= i < j < |batch| ==> !Newer(batch[i], batch[j])
  }

  /** Sort the eligible messages by age and take the first max: what a batch has to be. */
  ghost predicate IsBatch(index: map<QueueId, Meta>, eligible: set<QueueId>, max: int, out: seq<Meta>) {
    && |out| == Min(Max(max, 0), |eligible|)
    && (forall i :: 0 <= i < |out| ==> out[i].id in eligible && out[i].id in index && index[out[i].id] == out[i])
    && (forall i, j :: 0 <= i < j < |out| ==> out[i].id != out[j].id)
    && SortedByReceived(out)
    && (forall id, m :: id in eligible && id in index && id !in IdsOf(out) && m in out ==> !Newer(m, index[id]))
  }

  /** kept are the max oldest of the eligible messages seen so far. */
  ghost predicate Oldest(index: map<QueueId, Meta>, eligible: set<QueueId>, max: int, kept: set<Meta>) {
    && eligible <= index.Keys
    && |kept| == Min(max, |eligible|)
    && (forall m :: m in kept ==> m.id in eligible && index[m.id] == m)
    && (forall id, m :: id in eligible && index[id] !in kept && m in kept ==> !Newer(m, index[id]))
  }

  lemma RootAmongKept(items: seq<Meta>, kept: set<Meta>)
    requires HeapOrdered(items) && multiset(items) == multiset(kept)
    ensures forall m :: m in kept ==> m in items
    ensures items != [] ==> items[0] in kept && forall m :: m in kept ==> !Newer(m, items[0])
  {
    forall m | m in kept
      ensures m in items
      ensures !Newer(m, items[0])
    {
      assert m in multiset(items);
      var k :| 0 <= k < |items| && items[k] == m;
      RootIsNewest(items, k);
    }
    if items != [] {
      assert items[0] in multiset(items);
    }
  }

  /** What is kept after one more eligible message is offered against the newest kept. */
  ghost function KeptWith(max: int, kept: set<Meta>, m: Meta, root: Meta): set<Meta> {
    if |kept| < max then kept + {m}
    else if m.envelope.received < root.envelope.received then kept - {root} + {m}
    else kept
  }

  lemma OldestGrows(index: map<QueueId, Meta>, eligible: set<QueueId>, max: int, kept: set<Meta>, m: Meta)
    requires Oldest(index, eligible, max, kept) && |kept| < max
    requires m.id in index && index[m.id] == m && m.id !in eligible
    requires forall id :: id in index ==> index[id].id == id
    ensures Oldest(index, eligible + {m.id}, max, kept + {m})
    ensures multiset(kept + {m}) == multiset(kept) + multiset{m}
  {
    assert m !in kept;
    AllKept(index, eligible, kept);
  }

  lemma OldestReplaces(index: map<QueueId, Meta>, eligible: set<QueueId>, max: int, kept: set<Meta>, m: Meta, root: Meta)
    requires Oldest(index, eligible, max, kept) && 0 < max <= |kept|
    requires m.id in index && index[m.id] == m && m.id !in eligible
    requires root in kept && forall k :: k in kept ==> !Newer(k, root)
    requires Newer(root, m)
    ensures Oldest(index, eligible + {m.id}, max, kept - {root} + {m})
    ensures multiset(kept - {root} + {m}) == multiset(kept) - multiset{root} + multiset{m}
  {
    assert m !in kept;
    assert |kept - {root} + {m}| == |kept|;
    forall id, k | id in eligible + {m.id} && index[id] !in kept - {root} + {m} && k in kept - {root} + {m}
      ensures !Newer(k, index[id])
    {
      if index[id] != root {
        assert !Newer(root, index[id]);
      }
    }
  }

  lemma OldestStays(index: map<QueueId, Meta>, eligible: set<QueueId>, max: int, kept: set<Meta>, m: Meta, root: Meta)
    requires Oldest(index, eligible, max, kept) && 0 < max <= |kept|
    requires m.id in index && index[m.id] == m && m.id !in eligible
    requires forall k :: k in kept ==> !Newer(k, root)
    requires !Newer(root, m)
    ensures Oldest(index, eligible + {m.id}, max, kept)
  {
  }

  lemma PoppedFrom(before: seq<Meta>, after: seq<Meta>, m: Meta)
    requires multiset(before) == multiset(after) + multiset{m}
    ensures m in before && forall o :: o in after ==> o in before
    ensures |before| == |after| + 1
  {
    assert |before| == |multiset(before)| && |after| == |multiset(after)|;
    assert m in multiset(before);
    forall o | o in after
      ensures o in before
    {
      assert o in multiset(after);
      assert o in multiset(before);
    }
  }

  lemma {:induction false} AllKept(index: map<QueueId, Meta>, eligible: set<QueueId>, kept: set<Meta>)
    requires eligible <= index.Keys && |kept| == |eligible|
    requires forall id :: id in index ==> index[id].id == id
    requires forall m :: m in kept ==> m.id in eligible && index[m.id] == m
    ensures kept == set id | id in eligible :: index[id]
    decreases |kept|
  {
    if kept != {} {
      var m :| m in kept;
      AllKept(index, eligible - {m.id}, kept - {m});
    }
  }

  /** Draining the heap of the oldest messages yields a batch. */
  lemma KeptIsBatch(index: map<QueueId, Meta>, eligible: set<QueueId>, max: int, kept: set<Meta>, out: seq<Meta>)
    requires Oldest(index, eligible, max, kept) && 0 < max
    requires forall id :: id in index ==> index[id].id == id
    requires multiset(out) == multiset(kept) && SortedByReceived(out)
    ensures IsBatch(index, eligible, max, out)
  {
    assert |out| == |multiset(out)| == |multiset(kept)|;
    DrainedOnce(out, kept);
  }

  /** A sequence with the elements of a set, each as often as the set has it: once. */
  lemma {:induction false} DrainedOnce(out: seq<Meta>, kept: set<Meta>)
    requires multiset(out) == multiset(kept)
    ensures forall m :: m in out <==> m in kept
    ensures forall i, j :: 0 <= i < j < |out| ==> out[i] != out[j]
  {
    SameMembers(out, kept);
    if out != [] {
      assert out == [out[0]] + out[1..];
      assert multiset(kept - {out[0]}) == multiset(kept) - multiset{out[0]};
      DrainedOnce(out[1..], kept - {out[0]});
    }
  }

  lemma SameMembers(out: seq<Meta>, kept: set<Meta>)
    requires multiset(out) == multiset(kept)
    ensures forall m :: m in out <==> m in kept
  {
    forall m
      ensures m in out <==> m in kept
    {
      assert m in multiset(out) <==> m in multiset(kept);
    }
  }

  /** A batch shorter than asked for has emptied what it was taken from. */
  lemma BatchIds(index: map<QueueId, Meta>, eligible: set<QueueId>, max: int, batch: seq<Meta>)
    requires IsBatch(index, eligible, max, batch)
    ensures forall m :: m in batch ==> m.id in eligible && m.id in index && index[m.id] == m
    ensures IdsOf(batch) <= eligible
    ensures |batch| < max ==> IdsOf(batch) == eligible
  {
    forall m | m in batch
      ensures m.id in eligible && m.id in index && index[m.id] == m
    {
      var i :| 0 <= i < |batch| && batch[i] == m;
    }
    if |batch| < max {
      DistinctIds(batch);
      SubsetOfSameSize(IdsOf(batch), eligible);
    }
  }

  lemma {:induction false} DistinctIds(batch: seq<Meta>)
    requires forall i, j :: 0 <= i < j < |batch| ==> batch[i].id != batch[j].id
    ensures |IdsOf(batch)| == |batch|
  {
    if batch == [] {
    } else {
      var last := batch[|batch| - 1];
      DistinctIds(batch[..|batch| - 1]);
      assert batch == batch[..|batch| - 1] + [last];
      assert IdsOf(batch) == IdsOf(batch[..|batch| - 1]) + {last.id};
    }
  }

  lemma {:induction false} SubsetOfSameSize(a: set<QueueId>, b: set<QueueId>)
    requires a <= b && |a| == |b|
    ensures a == b
  {
    if x :| x in b && x !in a {
      assert a <= b - {x};
      Cardinality(a, b - {x});
    }
  }

  lemma {:induction false} Cardinality(a: set<QueueId>, b: set<QueueId>)
    requires a <= b
    ensures |a| <= |b|
  {
    if x :| x in a {
      Cardinality(a - {x}, b - {x});
    }
  }

  /**
   What a claim is worth to whoever made it: nothing that is leased, not yet due or on a route left
   out, and, short of the limit, everything else there is.
   */
  lemma BatchIsDue(index: map<QueueId, Meta>, leased: set<QueueId>, now: Time, skip: string -> bool, max: int, out: seq<Meta>)
    requires IsBatch(index, EligibleIds(index, leased, now, skip), max, out)
    ensures forall m :: m in out ==>
              && m.id in index && index[m.id] == m
              && m.id !in leased && m.nextAttempt <= now && !skip(m.envelope.route)
    ensures forall i, j :: 0 <= i < j < |out| ==> out[i].id != out[j].id && out[i].envelope.received <= out[j].envelope.received
    ensures forall m, id :: m in out && id in index && id !in IdsOf(out) ==>
              || id in leased || now < index[id].nextAttempt || skip(index[id].envelope.route)
              || m.envelope.received <= index[id].envelope.received
    ensures |out| < max ==> forall id :: id in index && id !in IdsOf(out) ==>
              id in leased || now < index[id].nextAttempt || skip(index[id].envelope.route)
  {
    BatchIds(index, EligibleIds(index, leased, now, skip), max, out);
  }
}
