/**
 The end of one SMTP transaction: reading DATA, rewriting, staging, and queueing one copy per
 route, all of them or none.
 */
module Session {
  import opened Types
  import opened SpoolDisk
  import opened SpoolState
  import opened Spool
  import opened Quota
  import H = History
  import R = Router
  import W = Wire
  import S = HeaderScan
  import RW = Rewrite
  import Hd = Header
  import MA = MailAddr

  // What all copies of one message share.
  datatype Order = Order(st: Staged, env: Envelope, lifetime: Time, head: Octets, now: Time)

  /** The metadata of the copy for one group. */
  function CopyFor(o: Order, g: R.Group, id: QueueId): Meta {
    NewMeta(id, o.env.(to := g.recipients, route := g.route), |o.head| + o.st.size, o.now, o.lifetime)
  }

  /** The recipients of these messages, each as often as it is named. */
  ghost function AddressedBy(ids: seq<QueueId>, index: map<QueueId, Meta>): multiset<string>
    requires forall k :: 0 <= k < |ids| ==> ids[k] in index
  {
    if ids == [] then multiset{}
    else AddressedBy(ids[..|ids| - 1], index) + multiset(index[ids[|ids| - 1]].envelope.to)
  }

  lemma {:induction false} AddressedTogether(ids: seq<QueueId>, groups: seq<R.Group>, index: map<QueueId, Meta>)
    requires |ids| == |groups|
    requires forall k :: 0 <= k < |ids| ==> ids[k] in index && index[ids[k]].envelope.to == groups[k].recipients
    ensures AddressedBy(ids, index) == R.Together(groups)
  {
    if ids != [] {
      AddressedTogether(ids[..|ids| - 1], groups[..|groups| - 1], index);
    }
  }

  /** What the copies are, in their own fields. */
  lemma CopiesInFull(o: Order, groups: seq<R.Group>, ids: seq<QueueId>, index: map<QueueId, Meta>, index': map<QueueId, Meta>)
    requires |groups| == |ids| && CopiesMade(o, groups, ids, |groups|, index, index')
    ensures forall k :: 0 <= k < |ids| ==>
              && ids[k] in index' && index'[ids[k]].id == ids[k]
              && index'[ids[k]].envelope.to == groups[k].recipients && index'[ids[k]].envelope.route == groups[k].route
              && index'[ids[k]].envelope == o.env.(to := groups[k].recipients, route := groups[k].route,
                                                   size := |o.head| + o.st.size)
              && index'[ids[k]].attempts == 0 && index'[ids[k]].lastError == ""
              && index'[ids[k]].nextAttempt == o.now && index'[ids[k]].expires == o.now + o.lifetime
  {
  }

  /**
   Nobody who was accepted as a recipient is left out or served twice: these messages together go to
   the recipients, each of whom stands in the one message whose route is the one it resolves to. All
   of them are due at once and live as long as configured.
   */
  ghost predicate Served(cfg: Config, rcpts: seq<string>, src: R.Addr, clientRoute: string, clientBits: int, now: Time,
                         ids: seq<QueueId>, index: map<QueueId, Meta>)
  {
    && (forall k :: 0 <= k < |ids| ==> ids[k] in index)
    && AddressedBy(ids, index) == multiset(rcpts)
    && (forall r :: r in rcpts ==> exists k :: 0 <= k < |ids| && r in index[ids[k]].envelope.to)
    && (forall r, k :: r in rcpts && 0 <= k < |ids| ==>
          var d := R.Resolve(cfg.tables, r, src, clientRoute, clientBits);
          d.Some? && (r in index[ids[k]].envelope.to <==> index[ids[k]].envelope.route == d.value.route))
    && (forall k :: 0 <= k < |ids| ==>
          && index[ids[k]].nextAttempt == now && index[ids[k]].expires == now + cfg.lifetime
          && index[ids[k]].attempts == 0)
  }

  lemma EverybodyIsServed(cfg: Config, rcpts: seq<string>, src: R.Addr, clientRoute: string, clientBits: int, o: Order,
                          groups: seq<R.Group>, ids: seq<QueueId>, index: map<QueueId, Meta>, index': map<QueueId, Meta>)
    requires R.AllRoutable(cfg.tables, rcpts, src, clientRoute, clientBits)
    requires R.IsSplit(cfg.tables, rcpts, src, clientRoute, clientBits, groups) && |ids| == |groups|
    requires CopiesMade(o, groups, ids, |groups|, index, index') && o.lifetime == cfg.lifetime
    ensures Served(cfg, rcpts, src, clientRoute, clientBits, o.now, ids, index')
  {
    CopiesInFull(o, groups, ids, index, index');
    AddressedTogether(ids, groups, index');
    R.NobodyIsLost(cfg.tables, rcpts, src, clientRoute, clientBits, groups);
    forall r | r in rcpts
      ensures exists k :: 0 <= k < |ids| && r in index'[ids[k]].envelope.to
      ensures forall k :: 0 <= k < |ids| ==>
                (r in index'[ids[k]].envelope.to <==>
                 index'[ids[k]].envelope.route == R.Resolve(cfg.tables, r, src, clientRoute, clientBits).value.route)
    {
      R.InItsGroup(cfg.tables, rcpts, src, clientRoute, clientBits, groups, r);
      var k :| 0 <= k < |groups| && r in groups[k].recipients;
      assert r in index'[ids[k]].envelope.to;
    }
  }

  ghost predicate DistinctIds(ids: seq<QueueId>) {
    forall i, j :: 0 <= i < j < |ids| ==> ids[i] != ids[j]
  }

  /** Ids drawn for this message: nobody else's, on the disk or in the index. */
  ghost predicate Fresh(ids: seq<QueueId>, from: nat, o: Order, index: map<QueueId, Meta>, files: Files) {
    DistinctIds(ids) && forall k :: from <= k < |ids| ==> Unused(files, ids[k]) && ids[k] !in index && ids[k] != o.st.id
  }

  ghost predicate StagedIntact(o: Order, files: Files) {
    StagedPath(o.st.id) in files ==> o.st.size == |OctetsAt(files, StagedPath(o.st.id))|
  }

  /** Exactly the copies of the first n groups have been added. */
  ghost predicate CopiesMade(o: Order, groups: seq<R.Group>, ids: seq<QueueId>, n: nat,
                             index: map<QueueId, Meta>, index': map<QueueId, Meta>)
    requires n <= |groups| == |ids|
  {
    && (forall k :: 0 <= k < n ==> ids[k] in index' && index'[ids[k]] == CopyFor(o, groups[k], ids[k]))
    && (forall id :: id !in ids[..n] ==> (id in index' <==> id in index) && (id in index ==> index'[id] == index[id]))
  }

  /** Each of the first n copies has the relay's own header lines and the staged octets as its body. */
  ghost predicate BodiesWritten(o: Order, ids: seq<QueueId>, n: nat, staged: Octets, files: Files)
    requires n <= |ids|
  {
    && OctetsAt(files, StagedPath(o.st.id)) == staged
    && forall k :: 0 <= k < n ==> OctetsAt(files, BodyPath(ids[k])) == o.head + staged
  }

  lemma OneBodyMore(o: Order, ids: seq<QueueId>, n: nat, staged: Octets, files: Files, files': Files)
    requires n < |ids| && DistinctIds(ids) && ids[n] != o.st.id
    requires BodiesWritten(o, ids, n, staged, files) && OthersUntouched(files, files', ids[n])
    ensures OctetsAt(files', BodyPath(ids[n])) == o.head + staged ==> BodiesWritten(o, ids, n + 1, staged, files')
  {
    assert SameAt(files, files', StagedPath(o.st.id));
    forall k | 0 <= k < n
      ensures OctetsAt(files', BodyPath(ids[k])) == o.head + staged
    {
      assert SameAt(files, files', BodyPath(ids[k]));
    }
  }

  /**
   Every one of these messages is erased, or a worker has claimed it, or the disk refused to unlink
   whatever is left of it; no other message is touched.
   */
  ghost predicate Withdrawn(ids: seq<QueueId>, before: View, now: View, was: seq<Fault>, faults: seq<Fault>) {
    && was <= faults
    && (forall id :: id in now.index ==> id in before.index && now.index[id] == before.index[id])
    && (forall id :: id in before.index && id !in ids ==> id in now.index)
    && (forall id :: id in ids && id in before.index ==> Undone(id, now, was, faults))
    && (forall p: Path :: p.id !in ids ==> SameAt(before.files, now.files, p))
  }

  ghost predicate Undone(id: QueueId, now: View, was: seq<Fault>, faults: seq<Fault>) {
    if id in now.index
    then id in now.leased || (!Erased(now.files, id) && LeftRefused(now.files, was, faults, id))
    else Erased(now.files, id)
  }

  /**
   None, as far as the disk and the workers let it: the copies made before number n are withdrawn,
   number n was never queued and can only come back if the disk would unlink neither of its files,
   and nothing was ever done for the rest.
   */
  ghost predicate NoneQueued(ids: seq<QueueId>, n: nat, before: map<QueueId, Meta>, now: View, was: seq<Fault>,
                             faults: seq<Fault>)
    requires n <= |ids|
  {
    && was <= faults
    && (forall k :: 0 <= k < n ==> Undone(ids[k], now, was, faults))
    && (forall k :: n <= k < |ids| ==> ids[k] !in now.index)
    && (n < |ids| && Survives(now.files, ids[n]) ==> PairRefused(was, faults, ids[n]))
    && (forall k :: n < k < |ids| ==> Unused(now.files, ids[k]))
    && (forall id :: id !in ids ==> (id in now.index <==> id in before) && (id in before ==> now.index[id] == before[id]))
  }

  ghost predicate AllWithdrawn(ids: seq<QueueId>, before: map<QueueId, Meta>, now: View, was: seq<Fault>, faults: seq<Fault>) {
    exists n: nat :: n <= |ids| && NoneQueued(ids, n, before, now, was, faults)
  }

  /** Before the first copy there is nothing to withdraw. */
  lemma NothingQueuedYet(ids: seq<QueueId>, now: View, was: seq<Fault>, faults: seq<Fault>)
    requires was <= faults && forall k :: 0 <= k < |ids| ==> Unused(now.files, ids[k]) && ids[k] !in now.index
    ensures AllWithdrawn(ids, now.index, now, was, faults)
  {
    assert 0 < |ids| ==> BodyPath(ids[0]).id == ids[0] && Unused(now.files, ids[0]);
    assert NoneQueued(ids, 0, now.index, now, was, faults);
  }

  /** What is occupied before each of n copies, every one of which adds a step. */
  function Charges(occupied: int, step: int, n: nat): (cs: seq<int>)
    ensures |cs| == n
    decreases n
  {
    if n == 0 then [] else [occupied] + Charges(occupied + step, step, n - 1)
  }

  lemma {:induction false} NextCharge(occupied: int, step: int, n: nat, k: nat)
    requires k + 1 < n
    ensures Charges(occupied, step, n)[k + 1] == Charges(occupied, step, n)[k] + step
    decreases n
  {
    if k > 0 {
      NextCharge(occupied + step, step, n - 1, k - 1);
    }
  }

  ghost predicate AreCharges(charges: seq<int>, occupied: int, step: int) {
    charges == Charges(occupied, step, |charges|)
  }

  lemma ChargeAfter(charges: seq<int>, occupied: int, step: int, k: nat)
    requires AreCharges(charges, occupied, step) && k + 1 < |charges|
    ensures charges[k + 1] == charges[k] + step
  {
    NextCharge(occupied, step, |charges|, k);
  }

  lemma FirstCharge(charges: seq<int>, occupied: int, step: int)
    requires AreCharges(charges, occupied, step) && charges != []
    ensures charges[0] == occupied
  {
  }

  /** The quota has room for every copy, each charged before the next is asked for. */
  ghost predicate RoomFor(maxBytes: int, charges: seq<int>, reserved: int, size: int) {
    forall k :: 0 <= k < |charges| ==> Admits(maxBytes, charges[k], reserved, size)
  }

  // What commitCopies started from: the spool, the faults so far, the staged body and whether it is
  // there, and the quota and what is occupied before each copy.
  datatype Start = Start(view: View, faults: seq<Fault>, body: Octets, isStaged: bool, max: int, reserved: int, charges: seq<int>)

  /** The first n copies were admitted; a commit that failed had no room, or met a fault. */
  ghost predicate RoomSoFar(s: Start, size: int, n: nat, faults: seq<Fault>, ok: bool) {
    && n <= |s.charges| && (ok || n < |s.charges|)
    && (s.isStaged ==>
          if ok then faults == s.faults && RoomFor(s.max, s.charges[..n], s.reserved, size)
          else faults != s.faults || !Admits(s.max, s.charges[n], s.reserved, size))
  }

  lemma RoomOnward(s: Start, size: int, n: nat, faults: seq<Fault>, faults': seq<Fault>, ok: bool)
    requires n < |s.charges| && RoomSoFar(s, size, n, faults, true) && s.faults <= faults <= faults'
    requires ok <==> s.isStaged && faults' == faults && Admits(s.max, s.charges[n], s.reserved, size)
    ensures RoomSoFar(s, size, if ok then n + 1 else n, faults', ok)
  {
  }

  /** In the end: all copies are committed exactly when there was room for all and no fault. */
  lemma RoomInTheEnd(s: Start, size: int, n: nat, faults: seq<Fault>, faults': seq<Fault>, ok: bool)
    requires RoomSoFar(s, size, n, faults, ok) && (ok ==> n == |s.charges| && faults' == faults)
    requires s.isStaged && s.faults <= faults <= faults'
    ensures ok <==> faults' == s.faults && RoomFor(s.max, s.charges, s.reserved, size)
  {
    assert ok ==> s.charges[..n] == s.charges;
  }

  lemma OneCopyMore(o: Order, groups: seq<R.Group>, ids: seq<QueueId>, n: nat,
                    index: map<QueueId, Meta>, index': map<QueueId, Meta>)
    requires n < |groups| == |ids| && DistinctIds(ids) && CopiesMade(o, groups, ids, n, index, index')
    ensures CopiesMade(o, groups, ids, n + 1, index, index'[ids[n] := CopyFor(o, groups[n], ids[n])])
  {
    assert ids[..n + 1] == ids[..n] + [ids[n]];
  }

  lemma FreshOnward(ids: seq<QueueId>, n: nat, o: Order, index: map<QueueId, Meta>, index': map<QueueId, Meta>,
                    files: Files, files': Files)
    requires n < |ids| && Fresh(ids, n, o, index, files) && StagedIntact(o, files)
    requires OthersUntouched(files, files', ids[n]) && index'.Keys <= index.Keys + {ids[n]}
    ensures Fresh(ids, n + 1, o, index', files') && StagedIntact(o, files')
    ensures StagedPath(o.st.id) in files' <==> StagedPath(o.st.id) in files
  {
    assert SameAt(files, files', StagedPath(o.st.id));
    forall k | n + 1 <= k < |ids|
      ensures Unused(files', ids[k])
    {
      assert ids[n] != ids[k] && Unused(files, ids[k]);
      forall p: Path | p.id == ids[k]
        ensures p !in files'
      {
        assert SameAt(files, files', p);
      }
    }
  }

  class Copies {
    const spool: Spool
    const store: H.Store

    constructor (spool: Spool, store: H.Store)
      ensures this.spool == spool && this.store == store
    {
      this.spool, this.store := spool, store;
    }

    ghost predicate Valid()
      reads this, spool, spool.disk, spool.failed, store
    {
      spool.Valid() && store.Valid()
    }

    /** What the spool charges for: everything in queue and in failed. */
    ghost function Occupied(): int
      reads spool`indexBytes, spool.failed`bytes
    {
      spool.indexBytes + spool.failed.bytes
    }

    /** Room for this many copies of the message, as things stand. */
    ghost predicate HasRoom(size: int, head: nat, n: nat)
      reads spool`indexBytes, spool.failed`bytes, spool.quota
    {
      RoomFor(spool.quota.maxBytes, Charges(Occupied(), head + size, n), spool.quota.reserved, size)
    }

    /** What the dispatcher may do between two steps of this session: claim what is due. */
    method Meanwhile(now: Time)
      requires spool.Valid()
      modifies spool`leased
      ensures spool.Valid() && old(spool.leased) <= spool.leased
    {
      var claims: bool := *;
      if claims {
        var batch := spool.ClaimBatch(now, 1000, route => false);
      }
    }

    /**
     commitCopies: exactly one queued copy per group, or none but what a worker has already claimed
     or the disk refused to unlink. It fails only for want of room or by a fault of the disk.
     */
    method CommitCopies(o: Order, groups: seq<R.Group>, drawn: seq<QueueId>, at: int) returns (ok: bool)
      requires Valid() && |drawn| == |groups|
      requires Fresh(drawn, 0, o, spool.index, spool.disk.files) && StagedIntact(o, spool.disk.files)
      requires NoneLeased(drawn, spool.leased)
      modifies spool`index, spool`indexBytes, spool`leased, spool`ended, spool`wake, spool.disk, spool.quota`reserved,
               spool.failed`index, spool.failed`bytes, store
      ensures Valid() && old(spool.leased) <= spool.leased
      ensures ok ==> CopiesMade(o, groups, drawn, |groups|, old(spool.index), spool.index)
      ensures ok ==> forall k :: 0 <= k < |groups| ==>
                && drawn[k] in spool.index
                && spool.index[drawn[k]].envelope.to == groups[k].recipients
                && spool.index[drawn[k]].envelope.route == groups[k].route
                && spool.index[drawn[k]].envelope == o.env.(to := groups[k].recipients, route := groups[k].route,
                                                            size := |o.head| + o.st.size)
                && spool.index[drawn[k]].nextAttempt == o.now && spool.index[drawn[k]].expires == o.now + o.lifetime
      ensures ok ==> BodiesWritten(o, drawn, |groups|, OctetsAt(old(spool.disk.files), StagedPath(o.st.id)), spool.disk.files)
      ensures !ok ==> AllWithdrawn(drawn, old(spool.index), spool.View(), old(spool.disk.faults), spool.disk.faults)
      ensures StagedPath(o.st.id) in old(spool.disk.files) ==>
                (ok <==> spool.disk.faults == old(spool.disk.faults) && old(HasRoom(o.st.size, |o.head|, |groups|)))
    {
      ghost var s := Start(spool.View(), spool.disk.faults, OctetsAt(spool.disk.files, StagedPath(o.st.id)),
                           StagedPath(o.st.id) in spool.disk.files, spool.quota.maxBytes, spool.quota.reserved,
                           Charges(Occupied(), |o.head| + o.st.size, |groups|));
      var n;
      ok, n := CommitAll(o, groups, drawn, at, s);
      ghost var faults := spool.disk.faults;
      if ok {
        CopiesInFull(o, groups, drawn, s.view.index, spool.index);
      } else {
        WithdrawMade(o, groups, drawn, n, at, s.view.index, s.faults);
      }
      if s.isStaged {
        RoomInTheEnd(s, o.st.size, n, faults, spool.disk.faults, ok);
      }
    }

    /** The loop of commitCopies, up to the first commit that fails. */
    method CommitAll(o: Order, groups: seq<R.Group>, drawn: seq<QueueId>, at: int, ghost s: Start) returns (ok: bool, n: nat)
      requires |drawn| == |groups| && Making(o, groups, drawn, 0, true, s)
      requires s.faults == spool.disk.faults && s.max == spool.quota.maxBytes && s.reserved == spool.quota.reserved
      requires |s.charges| == |groups| && AreCharges(s.charges, Occupied(), |o.head| + o.st.size)
      modifies spool`index, spool`indexBytes, spool`leased, spool`wake, spool.disk, spool.quota`reserved, store
      ensures n <= |groups| && if ok then n == |groups| else n < |groups|
      ensures Making(o, groups, drawn, n, ok, s)
      ensures RoomSoFar(s, o.st.size, n, spool.disk.faults, ok)
    {
      ok, n := true, 0;
      ghost var occupied, step := Occupied(), |o.head| + o.st.size;
      if groups != [] {
        FirstCharge(s.charges, occupied, step);
      }
      while n < |groups| && ok
        invariant 0 <= n <= |groups| && (ok || n < |groups|)
        invariant Making(o, groups, drawn, n, ok, s)
        invariant spool.quota.reserved == s.reserved && (ok && n < |groups| ==> Occupied() == s.charges[n])
        invariant RoomSoFar(s, o.st.size, n, spool.disk.faults, ok)
        decreases |groups| - n, ok
      {
        ghost var k, faults, before := n, spool.disk.faults, Occupied();
        ok, n := CommitNext(o, groups, drawn, n, at, s);
        RoomOnward(s, o.st.size, k, faults, spool.disk.faults, ok);
        if ok && k + 1 < |groups| {
          ChargeAfter(s.charges, occupied, step, k);
          assert Occupied() == before + step;
        }
      }
    }

    /** In the middle of it: n copies are made, and the next commit has failed if one has. */
    ghost predicate Making(o: Order, groups: seq<R.Group>, drawn: seq<QueueId>, n: nat, ok: bool, s: Start)
      requires n <= |groups| == |drawn| && (ok || n < |groups|)
      reads this, spool, spool.disk, spool.failed, store
    {
      && Valid() && s.view.leased <= spool.leased && s.faults <= spool.disk.faults
      && Fresh(drawn, if ok then n else n + 1, o, spool.index, spool.disk.files) && StagedIntact(o, spool.disk.files)
      && CopiesMade(o, groups, drawn, n, s.view.index, spool.index)
      && s.isStaged == (StagedPath(o.st.id) in spool.disk.files)
      && (if ok then BodiesWritten(o, drawn, n, s.body, spool.disk.files)
          else Survives(spool.disk.files, drawn[n]) ==> PairRefused(s.faults, spool.disk.faults, drawn[n]))
    }

    /** The failure half: the first n copies are withdrawn, the next one is what its failed commit left. */
    method WithdrawMade(o: Order, groups: seq<R.Group>, drawn: seq<QueueId>, n: nat, at: int,
                        ghost before: map<QueueId, Meta>, ghost was: seq<Fault>)
      requires Valid() && n < |groups| == |drawn| && was <= spool.disk.faults
      requires Fresh(drawn, n + 1, o, spool.index, spool.disk.files) && (forall k :: n <= k < |drawn| ==> drawn[k] !in before)
      requires CopiesMade(o, groups, drawn, n, before, spool.index)
      requires Survives(spool.disk.files, drawn[n]) ==> PairRefused(was, spool.disk.faults, drawn[n])
      modifies spool`index, spool`indexBytes, spool`leased, spool`ended, spool.disk, spool.failed`index, spool.failed`bytes, store
      ensures Valid() && old(spool.leased) <= spool.leased && old(spool.disk.faults) <= spool.disk.faults
      ensures AllWithdrawn(drawn, before, spool.View(), was, spool.disk.faults)
    {
      ghost var mid, faults := spool.View(), spool.disk.faults;
      Withdraw(drawn[..n], o.now, at);
      OnlyMadeOnesLeft(o, groups, drawn, n, before, mid, spool.View(), was, faults, spool.disk.faults);
    }

    method CommitNext(o: Order, groups: seq<R.Group>, drawn: seq<QueueId>, n: nat, at: int, ghost s: Start)
        returns (ok: bool, n': nat)
      requires n < |groups| == |drawn| && Making(o, groups, drawn, n, true, s)
      modifies spool`index, spool`indexBytes, spool`leased, spool`wake, spool.disk, spool.quota`reserved, store
      ensures n' == (if ok then n + 1 else n) && Making(o, groups, drawn, n', ok, s)
      ensures old(spool.disk.faults) <= spool.disk.faults
      ensures ok <==> && s.isStaged && spool.disk.faults == old(spool.disk.faults)
                      && Admits(spool.quota.maxBytes, old(Occupied()), old(spool.quota.reserved), o.st.size)
      ensures Occupied() == old(Occupied()) + (if ok then |o.head| + o.st.size else 0)
      ensures spool.quota.reserved == old(spool.quota.reserved)
    {
      Meanwhile(o.now);
      ghost var index, files, faults := spool.index, spool.disk.files, spool.disk.faults;
      ok := CommitCopy(o.st, o.env.(to := groups[n].recipients, route := groups[n].route), o.lifetime, o.head, drawn[n], o.now,
                      CopyFor(o, groups[n], drawn[n]));
      FreshOnward(drawn, n, o, index, spool.index, files, spool.disk.files);
      PairRefusedSince(s.faults, faults, spool.disk.faults, drawn[n]);
      n' := if ok then n + 1 else n;
      if ok {
        OneCopyMore(o, groups, drawn, n, s.view.index, index);
        OneBodyMore(o, drawn, n, s.body, files, spool.disk.files);
        var written := store.RecordMessage(drawn[n]);
      }
    }

    method CommitCopy(st: Staged, env: Envelope, lifetime: Time, head: Octets, id: QueueId, now: Time, ghost m: Meta)
      returns (ok: bool)
      requires spool.Valid() && Unused(spool.disk.files, id) && id !in spool.index
      requires m == NewMeta(id, env, |head| + st.size, now, lifetime)
      requires StagedPath(st.id) in spool.disk.files ==> st.size == |OctetsAt(spool.disk.files, StagedPath(st.id))|
      modifies spool`index, spool`indexBytes, spool`wake, spool.disk, spool.quota`reserved
      ensures spool.Valid() && OthersUntouched(old(spool.disk.files), spool.disk.files, id)
      ensures spool.index == if ok then old(spool.index)[id := m] else old(spool.index)
      ensures ok ==> OctetsAt(spool.disk.files, BodyPath(id)) == head + OctetsAt(old(spool.disk.files), StagedPath(st.id))
      ensures old(spool.disk.faults) <= spool.disk.faults
      ensures !ok && Survives(spool.disk.files, id) ==> PairRefused(old(spool.disk.faults), spool.disk.faults, id)
      ensures ok <==> && StagedPath(st.id) in old(spool.disk.files) && spool.disk.faults == old(spool.disk.faults)
                      && Admits(spool.quota.maxBytes, old(Occupied()), old(spool.quota.reserved), st.size)
      ensures Occupied() == old(Occupied()) + (if ok then |head| + st.size else 0)
      ensures spool.quota.reserved == old(spool.quota.reserved)
    {
      var r := spool.Commit(st, env, lifetime, head, id, now);
      ok := r.Ok?;
    }

    /** withdraw: discard each of these messages, whatever the others come to. */
    method Withdraw(committed: seq<QueueId>, now: Time, at: int)
      requires Valid()
      modifies spool`index, spool`indexBytes, spool`leased, spool`ended, spool.disk, spool.failed`index, spool.failed`bytes, store
      ensures Valid() && old(spool.leased) <= spool.leased
      ensures Withdrawn(committed, old(spool.View()), spool.View(), old(spool.disk.faults), spool.disk.faults)
      ensures LiveRowsKept(spool.index, old(store.messages), store.messages)
    {
      ghost var before, was := spool.View(), spool.disk.faults;
      for i := 0 to |committed|
        invariant Valid() && before.leased <= spool.leased
        invariant LiveRowsKept(spool.index, old(store.messages), store.messages)
        invariant Withdrawn(committed[..i], before, spool.View(), was, spool.disk.faults)
      {
        WithdrawOne(committed, i, now, at, before, was);
      }
      assert committed[..|committed|] == committed;
    }

    method WithdrawOne(committed: seq<QueueId>, i: nat, now: Time, at: int, ghost before: View, ghost was: seq<Fault>)
      requires Valid() && i < |committed|
      requires Withdrawn(committed[..i], before, spool.View(), was, spool.disk.faults)
      modifies spool`index, spool`indexBytes, spool`leased, spool`ended, spool.disk, spool.failed`index, spool.failed`bytes, store
      ensures Valid() && old(spool.leased) <= spool.leased
      ensures Withdrawn(committed[..i + 1], before, spool.View(), was, spool.disk.faults)
      ensures spool.index.Keys <= old(spool.index).Keys && LiveRowsKept(spool.index, old(store.messages), store.messages)
    {
      ghost var v0 := spool.View();
      Meanwhile(now);
      ghost var v1, faults := spool.View(), spool.disk.faults;
      var err := spool.Discard(committed[i]);
      StillWithdrawn(committed, i, before, v0, v1, spool.View(), was, faults, spool.disk.faults);
      if err.None? {
        var written := store.RecordRemoval(committed[i], at);
      }
    }
  }

  datatype Client = Client(name: string, route: string, bits: int, maxRecipients: int, rules: Option<RW.Rules>)

  // What the server is configured with, as far as a session needs it.
  datatype Config = Config(tables: R.Tables, limits: S.Limits, maxHops: int, maxBytes: int, lifetime: Time)

  /** The session's transaction state and the end of DATA. */
  class Session {
    const copies: Copies
    const cfg: Config
    const remote: R.Addr
    var client: Option<Client>
    var fromSet: bool
    var from: string
    var rcpts: seq<string>

    constructor (copies: Copies, cfg: Config, remote: R.Addr, client: Option<Client>)
      ensures InTransaction() && this.copies == copies && !fromSet
    {
      this.copies, this.cfg, this.remote, this.client := copies, cfg, remote, client;
      fromSet, from, rcpts := false, "", [];
    }

    /** Only a matched client has a transaction, and only one with a sender has recipients. */
    ghost predicate InTransaction()
      reads this
    {
      && (fromSet ==> client.Some?)
      && (!fromSet ==> from == "" && rcpts == [])
      && (client.Some? ==> |rcpts| <= Max(client.value.maxRecipients, 0))
    }

    /** doMail, its argument parsed, its limits asked. */
    method Mail(addr: Option<string>, allowed: bool)
      requires InTransaction()
      modifies this`fromSet, this`from
      ensures InTransaction()
      ensures fromSet <==> old(fromSet) || (client.Some? && addr.Some? && allowed)
      ensures from == if !old(fromSet) && fromSet then addr.value else old(from)
    {
      if client.None? || fromSet || addr.None? || !allowed {
        return;
      }
      from, fromSet := addr.value, true;
    }

    method Rcpt(addr: Option<string>)
      requires InTransaction()
      modifies this`rcpts
      ensures InTransaction()
      ensures rcpts == if fromSet && |old(rcpts)| < client.value.maxRecipients && addr.Some? && addr.value != ""
                       then old(rcpts) + [addr.value] else old(rcpts)
    {
      if !fromSet || client.None? || |rcpts| >= client.value.maxRecipients || addr.None? || addr.value == "" {
        return;
      }
      rcpts := rcpts + [addr.value];
    }

    method ResetTransaction()
      modifies this`fromSet, this`from, this`rcpts
      ensures InTransaction() && !fromSet && rcpts == []
    {
      from, fromSet, rcpts := "", false, [];
    }

    ghost predicate Valid()
      reads this, copies, copies.spool, copies.spool.disk, copies.spool.failed, copies.store
    {
      InTransaction() && copies.Valid()
    }

    ghost function Routes(): seq<string>
      requires client.Some?
      reads this
    {
      R.RoutesOf(cfg.tables, rcpts, remote, client.value.route, client.value.bits)
    }

    /** These are the groups of the recipients accepted so far, all of whom have a route. */
    ghost predicate SplitFor(groups: seq<R.Group>)
      requires client.Some?
      reads this
    {
      && R.AllRoutable(cfg.tables, rcpts, remote, client.value.route, client.value.bits)
      && R.IsSplit(cfg.tables, rcpts, remote, client.value.route, client.value.bits, groups)
    }

    /** There is a sender, there are recipients and each has a route: 354 is said. */
    ghost predicate Routed()
      requires InTransaction()
      reads this
    {
      && fromSet && rcpts != []
      && R.AllRoutable(cfg.tables, rcpts, remote, client.value.route, client.value.bits)
    }

    /** There is a sender, there are recipients, each has a route, and the stream holds a message to relay. */
    ghost predicate WouldTake(stream: Octets, after: W.ReadError)
      requires InTransaction()
      reads this
    {
      && Routed()
      && Takes(client.value.rules, from, stream, after, cfg)
    }

    /** What every copy has in common beside its sender: where its body is staged, its own header lines, its times and its origin. */
    ghost predicate Ordered(o: Order, staging: QueueId, head: Octets, now: Time)
      reads this
    {
      && client.Some? && o.st.id == staging && o.head == head
      && o.now == o.env.received == now && o.lifetime == cfg.lifetime
      && o.env.origin == client.value.name && o.env.kind == FromClient
    }

    /** The quota has room for n copies of the message in this stream, as it will be relayed, under a header of this length. */
    ghost predicate HasRoomFor(stream: Octets, after: W.ReadError, head: nat, n: nat)
      requires client.Some? && Takes(client.value.rules, from, stream, after, cfg)
      reads this, copies.spool`indexBytes, copies.spool.failed`bytes, copies.spool.quota
    {
      copies.HasRoom(|Relayed(client.value.rules, from, W.BodyOf(stream, after, true).text, cfg)|, head, n)
    }

    /**
     doData: the message is acknowledged only when the stream ended without an error, and then there
     is exactly one copy per route; otherwise no other message is touched. The stream goes back to
     the command loop only after a proper end of data, or when there is nothing left of it.
     */
    method DoData(br: W.Reader, drawn: seq<QueueId>, staging: QueueId, head: Octets, now: Time, at: int)
      returns (open: bool, acked: bool, ghost groups: seq<R.Group>, ghost o: Order)
      requires Valid() && 0 < br.size
      requires client.Some? ==> |drawn| == |Routes()|
      requires Drawn(drawn, staging, copies.spool.index, copies.spool.disk.files) && NoneLeased(drawn, copies.spool.leased)
      modifies this`fromSet, this`from, this`rcpts, br, copies.spool`index, copies.spool`indexBytes, copies.spool`leased,
               copies.spool`ended, copies.spool`wake, copies.spool.disk, copies.spool.quota`reserved,
               copies.spool.failed`index, copies.spool.failed`bytes, copies.store
      ensures Valid() && (acked ==> old(fromSet) && client.Some?)
      ensures acked ==> IsTaken(o, groups, drawn, staging, head, now, old(from), old(rcpts), old(br.rest), br.after,
                                old(copies.spool.index))
      ensures acked ==> Served(cfg, old(rcpts), remote, client.value.route, client.value.bits, now, drawn, copies.spool.index)
      ensures !acked ==> AllWithdrawn(drawn, old(copies.spool.index), copies.spool.View(),
                                      old(copies.spool.disk.faults), copies.spool.disk.faults)
      ensures open ==> GoesOn(acked, old(br.rest), br.after, br.rest)
      ensures acked <==> && old(WouldTake(br.rest, br.after)) && old(HasRoomFor(br.rest, br.after, |head|, |drawn|))
                         && copies.spool.disk.faults == old(copies.spool.disk.faults)
      ensures acked && br.after != W.Eof ==> W.BodyOf(old(br.rest), br.after, true).Ended?
      ensures open <==> !old(Routed()) || (acked && !Smuggled(W.BodyOf(old(br.rest), br.after, true)))
      ensures if acked then !fromSet && rcpts == []
              else fromSet == old(fromSet) && from == old(from) && rcpts == old(rcpts)
    {
      groups, o := [], Order(Staged(staging, 0), Envelope("", [], "", "", 0, 0, "", FromClient), 0, "", 0);
      acked := false;
      // Routing comes before 354: a configuration fault costs a command, not a transfer.
      var split := RouteAll();
      if split.None? {
        NothingQueuedYet(drawn, copies.spool.View(), copies.spool.disk.faults, copies.spool.disk.faults);
        return true, false, groups, o;
      }
      groups := split.value;
      open, acked, o := Receive(br, split.value, drawn, staging, head, now, at);
    }

    /**
     What an acknowledged message has become: a copy for each route and none besides, with its body
     as it was to be relayed, so that nobody it was accepted for is left out.
     */
    ghost predicate IsTaken(o: Order, groups: seq<R.Group>, drawn: seq<QueueId>, staging: QueueId, head: Octets, now: Time,
                            sender: string, to: seq<string>, stream: Octets, after: W.ReadError, before: map<QueueId, Meta>)
      reads this, copies, copies.spool, copies.spool.disk
    {
      && client.Some? && |groups| == |drawn| && Ordered(o, staging, head, now)
      && R.IsSplit(cfg.tables, to, remote, client.value.route, client.value.bits, groups)
      && CopiesMade(o, groups, drawn, |groups|, before, copies.spool.index)
      && Served(cfg, to, remote, client.value.route, client.value.bits, now, drawn, copies.spool.index)
      && IsQueued(client.value.rules, sender, stream, after, cfg, o, drawn, copies.spool.disk.files)
    }

    /** The checks before 354: a sender, recipients, and a route for every one of them. */
    method RouteAll() returns (split: Option<seq<R.Group>>)
      requires InTransaction()
      ensures split.Some? <==> Routed()
      ensures split.Some? ==> SplitFor(split.value) && |split.value| == |Routes()|
    {
      if !fromSet || |rcpts| == 0 {
        return None;
      }
      split := R.Split(cfg.tables, rcpts, remote, client.value.route, client.value.bits);
    }

    method Receive(br: W.Reader, groups: seq<R.Group>, drawn: seq<QueueId>, staging: QueueId, head: Octets, now: Time, at: int)
      returns (open: bool, acked: bool, ghost o: Order)
      requires Valid() && 0 < br.size && client.Some? && |drawn| == |groups| && SplitFor(groups)
      requires Drawn(drawn, staging, copies.spool.index, copies.spool.disk.files) && NoneLeased(drawn, copies.spool.leased)
      modifies this`fromSet, this`from, this`rcpts, br, copies.spool`index, copies.spool`indexBytes, copies.spool`leased,
               copies.spool`ended, copies.spool`wake, copies.spool.disk, copies.spool.quota`reserved,
               copies.spool.failed`index, copies.spool.failed`bytes, copies.store
      ensures Valid()
      ensures acked ==> IsTaken(o, groups, drawn, staging, head, now, old(from), old(rcpts), old(br.rest), br.after,
                                old(copies.spool.index))
      ensures !acked ==> AllWithdrawn(drawn, old(copies.spool.index), copies.spool.View(),
                                      old(copies.spool.disk.faults), copies.spool.disk.faults)
      ensures open ==> acked && GoesOn(acked, old(br.rest), br.after, br.rest)
      ensures acked <==> && Takes(client.value.rules, old(from), old(br.rest), br.after, cfg)
                         && old(HasRoomFor(br.rest, br.after, |head|, |groups|))
                         && copies.spool.disk.faults == old(copies.spool.disk.faults)
      ensures open <==> acked && !Smuggled(W.BodyOf(old(br.rest), br.after, true))
      ensures if acked then !fromSet && rcpts == []
              else fromSet == old(fromSet) && from == old(from) && rcpts == old(rcpts)
    {
      ghost var stream, files, was := br.rest, copies.spool.disk.files, copies.spool.disk.faults;
      ghost var takes := Takes(client.value.rules, from, br.rest, br.after, cfg);
      ghost var size := if takes then |Relayed(client.value.rules, from, W.BodyOf(br.rest, br.after, true).text, cfg)| else 0;
      ghost var room := copies.HasRoom(size, |head|, |groups|);
      o := Order(Staged(staging, 0), Envelope("", [], "", "", 0, 0, "", FromClient), 0, "", 0);
      var staged, smuggled := ReadMessage(br, staging);
      StillFresh(drawn, staging, copies.spool.index, files, copies.spool.disk.files);
      if staged.None? {
        NothingQueuedYet(drawn, copies.spool.View(), was, copies.spool.disk.faults);
        return false, false, o;
      }
      var order := Order(staged.value.0, staged.value.1.(received := now), cfg.lifetime, head, now);
      o := order;
      assert takes && o.st.size == size;
      assert room == copies.HasRoom(size, |head|, |groups|);
      acked := QueueCopies(order, groups, drawn, at, was, stream, br.after);
      open := acked && !smuggled;
    }

    /** The staged octets are the message in this stream, as it is to be relayed. */
    ghost predicate StagedFrom(o: Order, stream: Octets, after: W.ReadError, files: Files)
      requires client.Some?
      reads this
    {
      && Ended(W.BodyOf(stream, after, true), after)
      && IsStaged(client.value.rules, from, W.BodyOf(stream, after, true).text, cfg, o.env, OctetsAt(files, StagedPath(o.st.id)))
    }

    method QueueCopies(o: Order, groups: seq<R.Group>, drawn: seq<QueueId>, at: int, ghost was: seq<Fault>,
                       ghost stream: Octets, ghost after: W.ReadError) returns (ok: bool)
      requires Valid() && |drawn| == |groups| && was <= copies.spool.disk.faults
      requires Fresh(drawn, 0, o, copies.spool.index, copies.spool.disk.files) && NoneLeased(drawn, copies.spool.leased)
      requires StagedIntact(o, copies.spool.disk.files) && StagedPath(o.st.id) in copies.spool.disk.files
      requires client.Some? && SplitFor(groups) && Ordered(o, o.st.id, o.head, o.now)
      requires StagedFrom(o, stream, after, copies.spool.disk.files)
      modifies this`fromSet, this`from, this`rcpts, copies.spool`index, copies.spool`indexBytes, copies.spool`leased,
               copies.spool`ended, copies.spool`wake, copies.spool.disk, copies.spool.quota`reserved,
               copies.spool.failed`index, copies.spool.failed`bytes, copies.store
      ensures Valid()
      ensures if ok then !fromSet && rcpts == [] else fromSet == old(fromSet) && from == old(from) && rcpts == old(rcpts)
      ensures ok ==> IsTaken(o, groups, drawn, o.st.id, o.head, o.now, old(from), old(rcpts), stream, after,
                             old(copies.spool.index))
      ensures !ok ==> AllWithdrawn(drawn, old(copies.spool.index), copies.spool.View(), was, copies.spool.disk.faults)
      ensures ok <==> && copies.spool.disk.faults == old(copies.spool.disk.faults)
                      && old(copies.HasRoom(o.st.size, |o.head|, |groups|))
      ensures old(copies.spool.disk.faults) <= copies.spool.disk.faults
    {
      ghost var index, mid := copies.spool.index, copies.spool.disk.faults;
      ok := copies.CommitCopies(o, groups, drawn, at);
      if ok {
        EverybodyIsServed(cfg, rcpts, remote, client.value.route, client.value.bits, o, groups, drawn, index, copies.spool.index);
        ResetTransaction();
      } else {
        AllWithdrawnSince(drawn, index, copies.spool.View(), was, mid, copies.spool.disk.faults);
      }
    }

    method ReadMessage(br: W.Reader, staging: QueueId) returns (r: Option<(Staged, Envelope)>, smuggled: bool)
      requires Valid() && 0 < br.size && client.Some?
      modifies br, copies.spool.disk
      ensures Valid() && SameVisible(old(copies.spool.disk.files), copies.spool.disk.files)
      ensures OthersUntouched(old(copies.spool.disk.files), copies.spool.disk.files, staging)
      ensures old(copies.spool.disk.faults) <= copies.spool.disk.faults
      ensures var b := W.BodyOf(old(br.rest), br.after, true);
              && (r.Some? <==> && Takes(client.value.rules, from, old(br.rest), br.after, cfg)
                               && copies.spool.disk.faults == old(copies.spool.disk.faults))
              && (r.Some? ==> && smuggled == Smuggled(b) && br.rest == (if b.Ended? then b.rest else "")
                              && r.value.0.size == |Relayed(client.value.rules, from, b.text, cfg)|
                              && StagedPath(staging) in copies.spool.disk.files
                              && MessageStaged(old(copies.spool.disk.files), copies.spool.disk.files, b.text, staging,
                                               r.value.0, r.value.1))
    {
      EndOfMessage(br.rest, br.after);
      var dr := new W.DotReader(br);
      var text, err := W.ReadToEnd(dr);
      smuggled := dr.smuggled;
      r := StageMessage(text, err, staging);
      if r.Some? {
        StagedIsRelayed(client.value.rules, from, text, cfg, r.value.1, OctetsAt(copies.spool.disk.files, StagedPath(staging)));
      }
    }

    ghost predicate MessageStaged(files: Files, files': Files, text: Octets, staging: QueueId, st: Staged, env: Envelope)
      requires client.Some?
      reads this
    {
      && st.id == staging && OthersUntouched(files, files', staging)
      && st.size == |OctetsAt(files', StagedPath(staging))|
      && env.origin == client.value.name && env.kind == FromClient
      && IsStaged(client.value.rules, from, text, cfg, env, OctetsAt(files', StagedPath(staging)))
    }

    /** stageMessage: scan, count hops, rewrite, and stage what the rewriting left with the body behind it. */
    method StageMessage(text: Octets, err: W.ReadError, staging: QueueId) returns (r: Option<(Staged, Envelope)>)
      requires Valid() && client.Some?
      modifies copies.spool.disk
      ensures Valid() && SameVisible(old(copies.spool.disk.files), copies.spool.disk.files)
      ensures OthersUntouched(old(copies.spool.disk.files), copies.spool.disk.files, staging)
      ensures old(copies.spool.disk.faults) <= copies.spool.disk.faults
      ensures r.Some? <==> && err == W.Eof && Relayable(client.value.rules, from, text, cfg)
                           && copies.spool.disk.faults == old(copies.spool.disk.faults)
      ensures r.Some? ==> && StagedPath(staging) in copies.spool.disk.files
                          && MessageStaged(old(copies.spool.disk.files), copies.spool.disk.files, text, staging,
                                           r.value.0, r.value.1)
    {
      var hr := new W.Reader(text, err, 4096);
      var scan := S.ScanHeaders(hr, cfg.limits);
      if scan.Err? {
        return None;
      }
      if scan.value.received >= cfg.maxHops {
        return None;
      }
      var res := RW.Apply(client.value.rules, RW.Input(from, scan.value.headers));
      if err == W.Eof {
        StagesOneWay(client.value.rules, from, text, cfg, res);
      }
      if res.Err? || err != W.Eof {
        return None;
      }
      var st := copies.spool.Stage(res.value.headers + scan.value.rest, cfg.maxBytes, staging);
      if st.Err? {
        return None;
      }
      r := Some((st.value, Envelope(res.value.envelopeFrom, [], client.value.name, "", 0, 0, res.value.originalFrom, FromClient)));
    }
  }

  /**
   Every message that goes out rewritten: its header block parses, has exactly one From, whose
   domain is the envelope sender's, an X-Original-From only when this relay wrote it, no
   Return-Path, and every field the relay does not own as the client sent it.
   */
  lemma RelayedHeaders(r: RW.Rules, i: RW.Input, res: RW.Rewriting, stream: Octets, after: W.ReadError, lim: S.Limits)
    requires S.Scan(stream, after, lim).Ok? && i.headers == S.Scan(stream, after, lim).value.headers
    requires RW.Sound(r) && RW.Concerns(Some(r), i) && RW.IsApplied(Some(r), i, Ok(res))
    ensures Hd.Parse(res.headers).Some? && Hd.Parse(i.headers).Some?
    ensures var p, sent := Hd.Parse(i.headers).value.fields, Hd.Parse(res.headers).value.fields;
            && Hd.CountOf(sent, "from") == 1
            && MA.DomainOf(RW.AddrOfMailbox(Hd.ValueOf(sent, "from"))) == MA.DomainOf(res.envelopeFrom)
            && Hd.CountOf(sent, "return-path") == 0 && Hd.CountOf(sent, "x-original-from") <= 1
            && (Hd.CountOf(sent, "x-original-from") == 1 ==>
                  Hd.ValueOf(sent, "x-original-from") == RW.Original(p) != "")
            && Hd.Except(sent, RW.OWNED) == Hd.Except(p, RW.OWNED)
  {
    S.ScannedIsClean(stream, after, lim);
    var p := Hd.Parse(i.headers).value;
    if RW.KeepsFrom(r, RW.Original(p.fields)) {
      RW.KeptFromIsAligned(r, p, i.headers);
      Hd.ParsePrint(p);
    } else {
      EditedHeaders(r, p, i.headers, i.envelopeFrom);
    }
  }

  lemma EditedHeaders(r: RW.Rules, p: Hd.Parsed, headers: Octets, envelope: string)
    requires RW.Sound(r) && r.mode != RW.MODE_OFF && Hd.Parse(headers) == Some(p) && RW.Refused(p.fields).None?
    requires Hd.CountOf(p.fields, "return-path") == 0 && Hd.CountOf(p.fields, "x-original-from") == 0
    ensures var out := RW.Edited(r, p.fields, envelope);
            && Hd.Parse(Hd.Print(Hd.Parsed(out, p.blank))) == Some(Hd.Parsed(out, p.blank))
            && Hd.CountOf(out, "from") == 1
            && MA.DomainOf(RW.AddrOfMailbox(Hd.ValueOf(out, "from"))) == MA.DomainOf(r.envFrom)
            && Hd.CountOf(out, "return-path") == 0 && Hd.CountOf(out, "x-original-from") <= 1
            && (Hd.CountOf(out, "x-original-from") == 1 ==> Hd.ValueOf(out, "x-original-from") == RW.Original(p.fields) != "")
            && Hd.Except(out, RW.OWNED) == Hd.Except(p.fields, RW.OWNED)
  {
    RW.RewriteIsExact(r, p, headers, envelope);
    RW.ReturnPathKept(p.fields, RW.Edited(r, p.fields, envelope));
  }

  /** Ids drawn for this message, and one for its staged body: nobody else's and all different. */
  ghost predicate Drawn(drawn: seq<QueueId>, staging: QueueId, index: map<QueueId, Meta>, files: Files) {
    && DistinctIds(drawn)
    && forall k :: 0 <= k < |drawn| ==> Unused(files, drawn[k]) && drawn[k] !in index && drawn[k] != staging
  }

  /** No worker holds a message that does not exist yet. */
  ghost predicate NoneLeased(drawn: seq<QueueId>, leased: set<QueueId>) {
    forall k :: 0 <= k < |drawn| ==> drawn[k] !in leased
  }

  lemma StillFresh(drawn: seq<QueueId>, staging: QueueId, index: map<QueueId, Meta>, files: Files, files': Files)
    requires Drawn(drawn, staging, index, files) && OthersUntouched(files, files', staging)
    ensures Drawn(drawn, staging, index, files')
    ensures forall o: Order :: o.st.id == staging ==> Fresh(drawn, 0, o, index, files')
  {
    forall k | 0 <= k < |drawn|
      ensures Unused(files', drawn[k])
    {
      forall p: Path | p.id == drawn[k]
        ensures p !in files'
      {
        assert SameAt(files, files', p) && Unused(files, drawn[k]);
      }
    }
  }

  /** Every copy holds the relay's own lines and what was staged of the body the client sent. */
  ghost predicate IsQueued(rules: Option<RW.Rules>, from: string, stream: Octets, after: W.ReadError, cfg: Config, o: Order,
                           drawn: seq<QueueId>, files: Files)
  {
    && Ended(W.BodyOf(stream, after, true), after)
    && var staged := OctetsAt(files, StagedPath(o.st.id));
    && IsStaged(rules, from, W.BodyOf(stream, after, true).text, cfg, o.env, staged)
    && BodiesWritten(o, drawn, |drawn|, staged, files)
  }

  /** When the command loop goes on, and with what: nothing of the message's stream is left to be read as commands. */
  ghost predicate GoesOn(acked: bool, stream: Octets, after: W.ReadError, left: Octets) {
    if !acked then left == stream
    else
      var b := W.BodyOf(stream, after, true);
      !Smuggled(b) && left == (if b.Ended? then b.rest else "")
  }

  /** The stream ended the way a message may end: at its dot line, or with the connection. */
  predicate Ended(b: W.Body, after: W.ReadError) {
    b.Ended? || (after == W.Eof && b.error == W.Eof)
  }

  predicate Smuggled(b: W.Body) {
    b.Ended? && b.smuggled
  }

  /** The message scans, is under the hop limit, is rewritten to this, and is within the size limit so rewritten. */
  ghost predicate StagesAs(rules: Option<RW.Rules>, from: string, text: Octets, cfg: Config, res: RW.Rewriting) {
    var sc := S.Scan(text, W.Eof, cfg.limits);
    && sc.Ok? && sc.value.received < cfg.maxHops
    && RW.IsApplied(rules, RW.Input(from, sc.value.headers), Ok(res))
    && (0 < cfg.maxBytes ==> |res.headers + sc.value.rest| <= cfg.maxBytes)
  }

  /** What it takes to be relayed: fewer hops and no more octets than allowed, and a policy that can be applied. */
  lemma RelayedWithinLimits(rules: Option<RW.Rules>, from: string, text: Octets, cfg: Config)
    ensures var sc := S.Scan(text, W.Eof, cfg.limits);
            Relayable(rules, from, text, cfg) <==>
            && sc.Ok? && sc.value.received < cfg.maxHops
            && exists res :: RW.IsApplied(rules, RW.Input(from, sc.value.headers), Ok(res))
                             && (cfg.maxBytes <= 0 || |res.headers| + |sc.value.rest| <= cfg.maxBytes)
  {
    var sc := S.Scan(text, W.Eof, cfg.limits);
    if sc.Ok? {
      forall res: RW.Rewriting
        ensures |res.headers + sc.value.rest| == |res.headers| + |sc.value.rest|
        ensures StagesAs(rules, from, text, cfg, res) <==>
                sc.value.received < cfg.maxHops && RW.IsApplied(rules, RW.Input(from, sc.value.headers), Ok(res))
                && (cfg.maxBytes <= 0 || |res.headers| + |sc.value.rest| <= cfg.maxBytes)
      {
      }
    }
  }

  ghost predicate Relayable(rules: Option<RW.Rules>, from: string, text: Octets, cfg: Config) {
    exists res :: StagesAs(rules, from, text, cfg, res)
  }

  /** The reader's end of file is one of these two ends. */
  lemma EndOfMessage(stream: Octets, after: W.ReadError)
    ensures var b := W.BodyOf(stream, after, true);
            b.Ended? || b.error == W.Eof <==> Ended(b, after)
  {
    W.EndOfFileIff(stream, after, true);
  }

  /** The stream ended as a message may, and what it holds can be relayed. */
  ghost predicate Takes(rules: Option<RW.Rules>, from: string, stream: Octets, after: W.ReadError, cfg: Config) {
    var b := W.BodyOf(stream, after, true);
    Ended(b, after) && Relayable(rules, from, b.text, cfg)
  }

  /** What a message that can be relayed becomes: its rewritten header block and its body. */
  ghost function Relayed(rules: Option<RW.Rules>, from: string, text: Octets, cfg: Config): Octets
    requires Relayable(rules, from, text, cfg)
  {
    var res :| StagesAs(rules, from, text, cfg, res);
    res.headers + S.Scan(text, W.Eof, cfg.limits).value.rest
  }

  lemma StagedIsRelayed(rules: Option<RW.Rules>, from: string, text: Octets, cfg: Config, env: Envelope, staged: Octets)
    requires IsStaged(rules, from, text, cfg, env, staged)
    ensures Relayable(rules, from, text, cfg) && staged == Relayed(rules, from, text, cfg)
  {
    var res :| StagesAs(rules, from, text, cfg, res) && staged == res.headers + S.Scan(text, W.Eof, cfg.limits).value.rest;
    StagesOneWay(rules, from, text, cfg, Ok(res));
    forall other | StagesAs(rules, from, text, cfg, other)
      ensures other == res
    {
    }
  }

  /** What was staged: the rewritten header block, and the body as it came. */
  ghost predicate IsStaged(rules: Option<RW.Rules>, from: string, text: Octets, cfg: Config, env: Envelope, staged: Octets) {
    exists res :: StagesAs(rules, from, text, cfg, res)
                  && env.from == res.envelopeFrom && env.originalFrom == res.originalFrom
                  && staged == res.headers + S.Scan(text, W.Eof, cfg.limits).value.rest
  }

  /** What a message becomes is settled by the message. */
  lemma StagesOneWay(rules: Option<RW.Rules>, from: string, text: Octets, cfg: Config, res: Result<RW.Rewriting, RW.Refusal>)
    requires S.Scan(text, W.Eof, cfg.limits).Ok?
    requires RW.IsApplied(rules, RW.Input(from, S.Scan(text, W.Eof, cfg.limits).value.headers), res)
    ensures Relayable(rules, from, text, cfg) <==> res.Ok? && StagesAs(rules, from, text, cfg, res.value)
  {
  }

  /** No message still in the queue has had its history row rewritten. */
  ghost predicate LiveRowsKept(index: map<QueueId, Meta>, messages: map<QueueId, H.Summary>,
                               messages': map<QueueId, H.Summary>)
  {
    forall id :: id in index ==> (id in messages' <==> id in messages) && (id in messages ==> messages'[id] == messages[id])
  }

  lemma PairRefusedSince(was: seq<Fault>, mid: seq<Fault>, now: seq<Fault>, id: QueueId)
    requires was <= mid <= now
    ensures PairRefused(mid, now, id) ==> PairRefused(was, now, id)
  {
    if PairRefused(mid, now, id) {
      RefusedLonger(was, mid, now, now, BodyPath(id));
      RefusedLonger(was, mid, now, now, MetaPath(id));
    }
  }

  lemma StillUndone(id: QueueId, now: View, later: View, r0: seq<Fault>, was: seq<Fault>, faults: seq<Fault>,
                    faults': seq<Fault>)
    requires Undone(id, now, was, faults) && r0 <= was <= faults <= faults' && now.leased <= later.leased
    requires (id in later.index <==> id in now.index) && forall p: Path :: p.id == id ==> SameAt(now.files, later.files, p)
    ensures Undone(id, later, r0, faults')
  {
    assert SameAt(now.files, later.files, BodyPath(id)) && SameAt(now.files, later.files, MetaPath(id));
    assert SameAt(now.files, later.files, FailedBody(id)) && SameAt(now.files, later.files, FailedMeta(id));
    if id in now.index && id !in now.leased {
      LeftRefusedLater(now.files, later.files, r0, was, faults, faults', id);
    }
  }

  lemma StillWithdrawn(committed: seq<QueueId>, i: nat, before: View, v0: View, v1: View, v2: View,
                       was: seq<Fault>, faults: seq<Fault>, faults': seq<Fault>)
    requires i < |committed| && Withdrawn(committed[..i], before, v0, was, faults) && faults <= faults'
    requires v1.index == v0.index && v1.files == v0.files && v0.leased <= v1.leased && v2.leased == v1.leased
    requires OnlyShrinks(v1.files, v2.files, committed[i])
    requires v2.index == if committed[i] !in v1.leased && Erased(v2.files, committed[i]) then v1.index - {committed[i]} else v1.index
    requires committed[i] !in v1.leased ==> LeftRefused(v2.files, faults, faults', committed[i])
    ensures Withdrawn(committed[..i + 1], before, v2, was, faults')
  {
    var d := committed[i];
    assert committed[..i + 1] == committed[..i] + [d];
    forall p: Path | p.id != d
      ensures SameAt(v0.files, v2.files, p)
    {
      assert SameAt(v1.files, v2.files, p);
    }
    forall p: Path | p.id !in committed[..i + 1]
      ensures SameAt(before.files, v2.files, p)
    {
      assert SameAt(before.files, v0.files, p) && SameAt(v0.files, v2.files, p);
    }
    forall id | id in committed[..i + 1] && id in before.index
      ensures Undone(id, v2, was, faults')
    {
      if id != d {
        assert id in committed[..i];
        StillUndone(id, v0, v2, was, was, faults, faults');
      } else if d !in v1.leased {
        LeftRefusedLater(v2.files, v2.files, was, faults, faults', faults', d);
      }
    }
  }

  lemma OnlyMadeOnesLeft(o: Order, groups: seq<R.Group>, drawn: seq<QueueId>, n: nat, before: map<QueueId, Meta>,
                         mid: View, now: View, r0: seq<Fault>, was: seq<Fault>, faults: seq<Fault>)
    requires n < |groups| == |drawn| && r0 <= was
    requires Fresh(drawn, n + 1, o, mid.index, mid.files) && forall k :: n <= k < |drawn| ==> drawn[k] !in before
    requires CopiesMade(o, groups, drawn, n, before, mid.index) && Withdrawn(drawn[..n], mid, now, was, faults)
    requires Survives(mid.files, drawn[n]) ==> PairRefused(r0, was, drawn[n])
    ensures AllWithdrawn(drawn, before, now, r0, faults)
  {
    forall k | n <= k < |drawn|
      ensures drawn[k] !in drawn[..n] && drawn[k] !in now.index
      ensures SameAt(mid.files, now.files, BodyPath(drawn[k])) && SameAt(mid.files, now.files, MetaPath(drawn[k]))
      ensures n < k ==> Unused(now.files, drawn[k])
    {
      NotAmongFirst(drawn, n, k);
      assert n < k ==> Unused(mid.files, drawn[k]);
      forall p: Path | p.id == drawn[k]
        ensures SameAt(mid.files, now.files, p)
      {
      }
    }
    forall k | 0 <= k < n
      ensures Undone(drawn[k], now, r0, faults)
    {
      assert drawn[k] in drawn[..n] && drawn[k] in mid.index;
      UndoneSince(drawn[k], now, r0, was, faults);
    }
    if Survives(mid.files, drawn[n]) {
      PairRefusedLonger(r0, was, faults, drawn[n]);
    }
    OthersLeftAlone(drawn, n, before, mid, now, was, faults);
    assert NoneQueued(drawn, n, before, now, r0, faults);
  }

  lemma NotAmongFirst(ids: seq<QueueId>, n: nat, k: nat)
    requires DistinctIds(ids) && n <= k < |ids|
    ensures ids[k] !in ids[..n]
  {
  }

  lemma OthersLeftAlone(drawn: seq<QueueId>, n: nat, before: map<QueueId, Meta>, mid: View, now: View, was: seq<Fault>,
                        faults: seq<Fault>)
    requires n <= |drawn| && Withdrawn(drawn[..n], mid, now, was, faults)
    requires forall id :: id !in drawn[..n] ==> (id in mid.index <==> id in before) && (id in before ==> mid.index[id] == before[id])
    ensures forall id :: id !in drawn ==> (id in now.index <==> id in before) && (id in before ==> now.index[id] == before[id])
  {
    forall id | id !in drawn
      ensures id !in drawn[..n]
    {
    }
  }

  lemma UndoneSince(id: QueueId, now: View, r0: seq<Fault>, was: seq<Fault>, faults: seq<Fault>)
    requires Undone(id, now, was, faults) && r0 <= was <= faults
    ensures Undone(id, now, r0, faults)
  {
    StillUndone(id, now, now, r0, was, faults, faults);
  }

  lemma PairRefusedLonger(r0: seq<Fault>, was: seq<Fault>, faults: seq<Fault>, id: QueueId)
    requires PairRefused(r0, was, id) && r0 <= was <= faults
    ensures PairRefused(r0, faults, id)
  {
    RefusedLonger(r0, r0, was, faults, BodyPath(id));
    RefusedLonger(r0, r0, was, faults, MetaPath(id));
  }

  lemma AllWithdrawnSince(ids: seq<QueueId>, before: map<QueueId, Meta>, now: View, r0: seq<Fault>, was: seq<Fault>,
                          faults: seq<Fault>)
    requires AllWithdrawn(ids, before, now, was, faults) && r0 <= was
    ensures AllWithdrawn(ids, before, now, r0, faults)
  {
    var n: nat :| n <= |ids| && NoneQueued(ids, n, before, now, was, faults);
    forall k | 0 <= k < n
      ensures Undone(ids[k], now, r0, faults)
    {
      UndoneSince(ids[k], now, r0, was, faults);
    }
    if n < |ids| {
      PairRefusedSince(r0, was, faults, ids[n]);
    }
    assert NoneQueued(ids, n, before, now, r0, faults);
  }
}
