/**
 The durable queue. Bodies and metadata live in files, the index of live messages and the
 leases live in memory, and every method is written as its sequence of file operations and
 critical sections. The contracts say what the new state is, and what a crash at any of the
 recorded file states would leave for a restart.
 */
module Spool {
  import opened Types
  import opened Totals
  import opened SpoolDisk
  import opened Crash
  import opened FailedMirror
  import opened Quota
  import opened NewestFirstHeap
  import opened Batch
  import opened SpoolState

  class Spool {
    const disk: Disk
    const failed: FailedStore
    const quota: QuotaLedger

    var index: map<QueueId, Meta>
    var leased: set<QueueId>
    var indexBytes: int
    var wake: bool

    // Messages an operator began to delete without finishing: their files are half gone.
    ghost var ended: set<QueueId>

    ghost predicate Valid()
      reads this, disk, failed
    {
      && disk.Valid() && failed.Valid()
      && indexBytes == Total(Sizes(index))
      && IndexInv(index, ended, disk.files)
      && MirrorInv(failed.index, disk.files)
    }

    ghost function View(): View
      reads this, disk
    {
      SpoolState.View.View(index, leased, disk.files)
    }

    /** Open: recover the state an earlier run left, however it ended. */
    constructor Open(found: Disk, retention: Time)
      requires found.Valid() && DiskInv(found.files)
      modifies found
      ensures Valid() && disk == found && fresh(failed) && fresh(quota)
      ensures index == Recovered(old(found.files)) == Recovered(found.files)
      ensures leased == {} && ended == {} && !wake
      ensures failed.index == Reindexed(found.files)
      ensures OnlyOrphansRemoved(old(found.files), found.files)
      ensures CleanupSteps(old(found.files), old(found.history), found.history)
      ensures CleanedUp(old(found.files), index, found.files, old(found.faults), found.faults)
    {
      disk := found;
      failed := new FailedStore(retention);
      quota := new QuotaLedger();
      index, leased, indexBytes, wake, ended := map[], {}, 0, false, {};
      new;
      assert Sizes(index) == map[];
      Recover();
      failed.Reindex(disk);
    }

    /** recover and scanQueue: drop partial enqueues, then rebuild the index. */
    method Recover()
      requires disk.Valid() && DiskInv(disk.files)
      requires index == map[] && indexBytes == Total(Sizes(index)) && ended == {}
      modifies this`index, this`indexBytes, disk
      ensures disk.Valid() && indexBytes == Total(Sizes(index))
      ensures index == Recovered(old(disk.files)) == Recovered(disk.files)
      ensures IndexInv(index, ended, disk.files)
      ensures OnlyOrphansRemoved(old(disk.files), disk.files)
      ensures CleanupSteps(old(disk.files), old(disk.history), disk.history)
      ensures CleanedUp(old(disk.files), index, disk.files, old(disk.faults), disk.faults)
    {
      ghost var found, t0 := disk.files, disk.faults;
      SweepTmp();
      ghost var f1, t1 := disk.files, disk.faults;
      var bodies := set p | p in disk.files && p.dir == Queue && p.ext == Eml :: p.id;
      BodiesScanned(found, disk.files, bodies);
      IndexSurvivors(found, bodies);
      ghost var f2, t2 := disk.files, disk.faults;
      DropOrphanBodies(found, bodies);
      AllCleanedUp(found, index, f1, f2, disk.files, t0, t1, t2, disk.faults);
      CleanupIsInvisible(found, disk.files);
      RecoveredIsIndexInv(disk.files);
    }

    method SweepTmp()
      requires disk.Valid()
      modifies disk
      ensures disk.Valid() && SameVisible(old(disk.files), disk.files)
      ensures CleanupSteps(old(disk.files), old(disk.history), disk.history)
      ensures old(disk.faults) <= disk.faults && NoTmpLeft(disk.files, old(disk.faults), disk.faults)
    {
      var partial := set p | p in disk.files && p.dir == Tmp;
      while partial != {}
        invariant disk.Valid()
        invariant forall p :: p in partial ==> p.dir == Tmp
        invariant SameVisible(old(disk.files), disk.files)
        invariant CleanupSteps(old(disk.files), old(disk.history), disk.history)
        invariant old(disk.faults) <= disk.faults
        invariant forall p: Path :: p.dir == Tmp && p in disk.files && p !in partial ==>
                                      RefusedSince(old(disk.faults), disk.faults, p)
        decreases |partial|
      {
        var p :| p in partial;
        ghost var mid := disk.faults;
        var ignored := disk.Unlink(p);
        StillRefused(old(disk.faults), mid, disk.faults);
        partial := partial - {p};
      }
    }

    /** Index every message whose metadata reads back and whose body was listed. */
    method IndexSurvivors(ghost found: Files, bodies: set<QueueId>)
      requires disk.Valid() && SameVisible(found, disk.files)
      requires index == map[] && indexBytes == Total(Sizes(index))
      requires forall id :: id in bodies <==> BodyPath(id) in found
      modifies this`index, this`indexBytes, disk
      ensures disk.Valid() && indexBytes == Total(Sizes(index))
      ensures index == Recovered(found)
      ensures OnlyOrphansRemoved(found, disk.files)
      ensures CleanupSteps(found, old(disk.history), disk.history)
      ensures old(disk.faults) <= disk.faults && NoMetaAlone(found, disk.files, old(disk.faults), disk.faults)
      ensures disk.files.Keys <= old(disk.files).Keys
    {
      var metas := set p | p in disk.files && p.dir == Queue && p.ext == Json :: p.id;
      forall id
        ensures MetaPath(id) in found ==> id in metas
      {
        assert SameAt(found, disk.files, MetaPath(id)) && MetaPath(id).id == id;
      }
      IndexListed(found, bodies, metas);
      assert metas - {} == metas;
      SurvivorsAreScanned(found, index, metas);
    }

    method IndexListed(ghost found: Files, bodies: set<QueueId>, metas: set<QueueId>)
      requires disk.Valid() && SameVisible(found, disk.files)
      requires index == map[] && indexBytes == Total(Sizes(index))
      requires forall id :: id in bodies <==> BodyPath(id) in found
      requires forall id :: MetaPath(id) in found ==> id in metas
      modifies this`index, this`indexBytes, disk
      ensures Scanning(found, bodies, {}, metas, old(disk.history), old(disk.faults), old(disk.files).Keys)
    {
      var todo := metas;
      ghost var h0, t0, keys := disk.history, disk.faults, disk.files.Keys;
      assert metas - todo == {};
      while todo != {}
        invariant todo <= metas && Scanning(found, bodies, todo, metas, h0, t0, keys)
        decreases |todo|
      {
        var id :| id in todo;
        IndexNext(found, bodies, id, todo, metas, h0, t0, keys);
        todo := todo - {id};
      }
    }

    /** In the middle of the scan: of all the listed messages these are still to be looked at. */
    ghost predicate Scanning(found: Files, bodies: set<QueueId>, todo: set<QueueId>, all: set<QueueId>,
                             h0: seq<Files>, t0: seq<Fault>, keys: set<Path>)
      reads this, disk
    {
      && disk.Valid() && indexBytes == Total(Sizes(index))
      && OnlyOrphansRemoved(found, disk.files) && disk.files.Keys <= keys
      && (forall id :: id in todo ==> SameAt(found, disk.files, MetaPath(id)))
      && IndexedSoFar(found, index, all - todo)
      && CleanupSteps(found, h0, disk.history) && t0 <= disk.faults
      && (forall id :: MetaPath(id) in disk.files && id !in todo && id !in bodies ==> RefusedSince(t0, disk.faults, MetaPath(id)))
    }

    method IndexNext(ghost found: Files, bodies: set<QueueId>, id: QueueId, ghost todo: set<QueueId>,
                     ghost all: set<QueueId>, ghost h0: seq<Files>, ghost t0: seq<Fault>, ghost keys: set<Path>)
      requires Scanning(found, bodies, todo, all, h0, t0, keys) && id in todo && id in all
      requires forall other :: other in bodies <==> BodyPath(other) in found
      modifies this`index, this`indexBytes, disk
      ensures Scanning(found, bodies, todo - {id}, all, h0, t0, keys)
    {
      ghost var f0, mid := disk.files, disk.faults;
      IndexOne(found, bodies, id, all - todo, h0);
      assert all - (todo - {id}) == (all - todo) + {id};
      StillRefused(t0, mid, disk.faults);
      forall other | other in todo - {id}
        ensures SameAt(found, disk.files, MetaPath(other))
      {
        assert SameAt(found, f0, MetaPath(other)) && SameAt(f0, disk.files, MetaPath(other));
      }
    }

    method IndexOne(ghost found: Files, bodies: set<QueueId>, id: QueueId, ghost scanned: set<QueueId>, ghost h0: seq<Files>)
      requires disk.Valid() && indexBytes == Total(Sizes(index))
      requires OnlyOrphansRemoved(found, disk.files) && SameAt(found, disk.files, MetaPath(id))
      requires IndexedSoFar(found, index, scanned) && CleanupSteps(found, h0, disk.history)
      requires forall other :: other in bodies <==> BodyPath(other) in found
      modifies this`index, this`indexBytes, disk
      ensures disk.Valid() && indexBytes == Total(Sizes(index))
      ensures index == if Survives(found, id)
                       then old(index)[id := ReadMetaAt(found, MetaPath(id)).value]
                       else old(index)
      ensures OnlyOrphansRemoved(found, disk.files)
      ensures IndexedSoFar(found, index, scanned + {id}) && CleanupSteps(found, h0, disk.history)
      ensures disk.files.Keys <= old(disk.files).Keys
      ensures forall p :: p != MetaPath(id) ==> SameAt(old(disk.files), disk.files, p)
      ensures old(disk.faults) <= disk.faults
      ensures id !in bodies && MetaPath(id) in disk.files ==> RefusedSince(old(disk.faults), disk.faults, MetaPath(id))
    {
      if id !in bodies {
        // There would be nothing to send.
        var ignored := disk.Unlink(MetaPath(id));
      } else {
        var m := ReadMetaAt(disk.files, MetaPath(id));
        if m.Some? {
          PutLocked(m.value);
        }
      }
    }

    /** A body nothing was indexed for belongs to an enqueue nobody was told of. */
    method DropOrphanBodies(ghost found: Files, listed: set<QueueId>)
      requires disk.Valid() && OnlyOrphansRemoved(found, disk.files) && index == Recovered(found)
      requires forall id :: id in listed <==> BodyPath(id) in found
      modifies disk
      ensures disk.Valid() && OnlyOrphansRemoved(found, disk.files)
      ensures CleanupSteps(found, old(disk.history), disk.history)
      ensures old(disk.faults) <= disk.faults && NoOrphanLeft(index, disk.files, old(disk.faults), disk.faults)
      ensures disk.files.Keys <= old(disk.files).Keys
    {
      var bodies := listed;
      while bodies != {}
        invariant disk.Valid()
        invariant OnlyOrphansRemoved(found, disk.files)
        invariant CleanupSteps(found, old(disk.history), disk.history)
        invariant old(disk.faults) <= disk.faults && disk.files.Keys <= old(disk.files).Keys
        invariant forall id :: BodyPath(id) in disk.files && id !in index && id !in bodies ==>
                                 RefusedSince(old(disk.faults), disk.faults, BodyPath(id))
        decreases |bodies|
      {
        var id :| id in bodies;
        ghost var mid := disk.faults;
        if id !in index {
          assert !Survives(found, id) by {
            assert Survives(found, id) ==> BodyPath(id) in found && BodyPath(id).id == id;
          }
          var ignored := disk.Unlink(BodyPath(id));
        }
        StillRefused(old(disk.faults), mid, disk.faults);
        bodies := bodies - {id};
      }
    }

    method PutLocked(m: Meta)
      requires indexBytes == Total(Sizes(index))
      modifies this`index, this`indexBytes
      ensures index == old(index)[m.id := m]
      ensures indexBytes == Total(Sizes(index))
      ensures indexBytes == old(indexBytes) + m.envelope.size
                            - (if m.id in old(index) then old(index)[m.id].envelope.size else 0)
    {
      TotalPut(Sizes(index), m.id, m.envelope.size);
      if m.id in index {
        indexBytes := indexBytes - index[m.id].envelope.size;
      }
      index := index[m.id := m];
      indexBytes := indexBytes + m.envelope.size;
      assert Sizes(index) == Sizes(old(index))[m.id := m.envelope.size];
    }

    method DropLocked(id: QueueId)
      requires indexBytes == Total(Sizes(index))
      modifies this`index, this`indexBytes
      ensures index == old(index) - {id}
      ensures indexBytes == Total(Sizes(index))
      ensures indexBytes == old(indexBytes) - (if id in old(index) then old(index)[id].envelope.size else 0)
    {
      TotalDrop(Sizes(index), id);
      if id in index {
        indexBytes := indexBytes - index[id].envelope.size;
        index := index - {id};
      }
      assert index == old(index) - {id};
      assert Sizes(index) == Sizes(old(index)) - {id};
    }

    /** writeMeta: write to tmp, then rename over the old metadata. */
    method WriteMeta(m: Meta, now: Time) returns (err: IoError)
      requires disk.Valid()
      modifies disk
      ensures disk.Valid() && err != Missing
      ensures SameVisible(if err == Fine then WithMeta(old(disk.files), m, now) else old(disk.files), disk.files)
      ensures old(disk.history) <= disk.history
      ensures forall k :: |old(disk.history)| <= k < |disk.history| ==>
                            || SameVisible(old(disk.files), disk.history[k])
                            || SameVisible(WithMeta(old(disk.files), m, now), disk.history[k])
      ensures OthersUntouched(old(disk.files), disk.files, m.id)
      ensures old(disk.faults) <= disk.faults && (err == Fine <==> disk.faults == old(disk.faults))
    {
      err := disk.WriteSynced(TmpMeta(m.id), MetaFile(Some(m), now), MetaFile(None, now));
      if err != Fine {
        return;
      }
      err := disk.Rename(TmpMeta(m.id), MetaPath(m.id));
      if err != Fine {
        var cleanup := disk.Unlink(TmpMeta(m.id));
      }
    }

    /** Stage: write a body to tmp once, refusing one that is over the limit. */
    method Stage(body: Octets, maxBytes: int, id: QueueId) returns (r: Result<Staged, SpoolError>)
      requires Valid()
      modifies disk
      ensures Valid() && SameVisible(old(disk.files), disk.files) && old(disk.faults) <= disk.faults
      ensures OthersUntouched(old(disk.files), disk.files, id)
      ensures r.Ok? ==> && r.value == Staged(id, |body|)
                        && disk.files == old(disk.files)[StagedPath(id) := Body(body)]
      ensures r.Ok? <==> !(0 < maxBytes < |body|) && disk.faults == old(disk.faults)
      ensures r.Err? ==> if r == Err(ErrIo) then disk.faults != old(disk.faults) else r == Err(ErrTooLarge) && 0 < maxBytes < |body|
    {
      r := WriteStaged(body, maxBytes, id);
      OnlyInTmp(old(disk.files), disk.files, StagedPath(id));
      IndexInvSame(index, ended, old(disk.files), disk.files);
      MirrorInvSame(failed.index, old(disk.files), disk.files);
    }

    method WriteStaged(body: Octets, maxBytes: int, id: QueueId) returns (r: Result<Staged, SpoolError>)
      requires disk.Valid()
      modifies disk
      ensures disk.Valid() && old(disk.faults) <= disk.faults
      ensures forall p :: p != StagedPath(id) ==> SameAt(old(disk.files), disk.files, p)
      ensures r.Ok? ==> && r.value == Staged(id, |body|)
                        && disk.files == old(disk.files)[StagedPath(id) := Body(body)]
      ensures r.Ok? <==> !(0 < maxBytes < |body|) && disk.faults == old(disk.faults)
      ensures r.Err? ==> if r == Err(ErrIo) then disk.faults != old(disk.faults) else r == Err(ErrTooLarge) && 0 < maxBytes < |body|
    {
      var tooLarge := 0 < maxBytes < |body|;
      var octets := if tooLarge then body[..maxBytes + 1] else body;
      var err := disk.WriteSynced(StagedPath(id), Body(octets), Body(""));
      if err != Fine {
        return Err(ErrIo);
      }
      if tooLarge {
        var cleanup := disk.Unlink(StagedPath(id));
        return Err(ErrTooLarge);
      }
      r := Ok(Staged(id, |body|));
    }

    /**
     Commit: the copy is written, renamed into queue and given its metadata. Either the message
     is acknowledged, indexed and durable, or it is refused; a refused one can only survive
     when the disk would unlink neither of its two files.
     */
    method Commit(st: Staged, env: Envelope, lifetime: Time, head: Octets, id: QueueId, now: Time)
      returns (r: Result<QueueId, SpoolError>)
      requires Valid() && Unused(disk.files, id) && id !in index
      requires StagedPath(st.id) in disk.files ==> st.size == |OctetsAt(disk.files, StagedPath(st.id))|
      modifies this`index, this`indexBytes, this`wake, disk, quota`reserved
      ensures Valid() && quota.reserved == old(quota.reserved)
      ensures r == Err(ErrQuotaExceeded) <==>
              !Admits(quota.maxBytes, old(indexBytes) + failed.bytes, old(quota.reserved), st.size)
      ensures r.Ok? ==> && r.value == id
                        && index == old(index)[id := NewMeta(id, env, |head| + st.size, now, lifetime)]
                        && indexBytes == old(indexBytes) + |head| + st.size
                        && Recovered(disk.files) == Recovered(old(disk.files))[id := index[id]]
                        && OctetsAt(disk.files, BodyPath(id)) == head + OctetsAt(old(disk.files), StagedPath(st.id))
                        && wake
      ensures r.Ok? ==> && id in index && index - {id} == old(index) && index[id].id == id
                        && index[id].envelope == env.(size := |head| + st.size)
                        && index[id].nextAttempt == now && index[id].expires == now + lifetime
                        && index[id].attempts == 0 && index[id].lastError == ""
      ensures r.Err? ==> && index == old(index) && wake == old(wake)
                         && (Survives(disk.files, id) ==> PairRefused(old(disk.faults), disk.faults, id))
      ensures r.Ok? <==> && r != Err(ErrQuotaExceeded) && StagedPath(st.id) in old(disk.files)
                         && disk.faults == old(disk.faults)
      ensures old(disk.faults) <= disk.faults
      ensures CommitStep(old(View()), View(), id, r.Ok?)
      ensures OthersUntouched(old(disk.files), disk.files, id)
      ensures OpSteps(old(disk.files), old(disk.history), disk.history, id,
                      {NewMeta(id, env, |head| + st.size, now, lifetime)})
    {
      var admitted := quota.Reserve(st.size, indexBytes + failed.bytes);
      if !admitted {
        return Err(ErrQuotaExceeded);
      }
      r := CommitAdmitted(st, env, lifetime, head, id, now);
      quota.Release(st.size);
    }

    /** Commit once its bytes are reserved. */
    method CommitAdmitted(st: Staged, env: Envelope, lifetime: Time, head: Octets, id: QueueId, now: Time)
      returns (r: Result<QueueId, SpoolError>)
      requires Valid() && Unused(disk.files, id) && id !in index
      requires StagedPath(st.id) in disk.files ==> st.size == |OctetsAt(disk.files, StagedPath(st.id))|
      modifies this`index, this`indexBytes, this`wake, disk
      ensures Valid()
      ensures r.Ok? ==> && r.value == id
                        && index == old(index)[id := NewMeta(id, env, |head| + st.size, now, lifetime)]
                        && indexBytes == old(indexBytes) + |head| + st.size
                        && Recovered(disk.files) == Recovered(old(disk.files))[id := index[id]]
                        && OctetsAt(disk.files, BodyPath(id)) == head + OctetsAt(old(disk.files), StagedPath(st.id))
                        && wake
      ensures r.Err? ==> && r.error == ErrIo && index == old(index) && wake == old(wake)
                         && indexBytes == old(indexBytes)
                         && (Survives(disk.files, id) ==> PairRefused(old(disk.faults), disk.faults, id))
      ensures r.Ok? <==> StagedPath(st.id) in old(disk.files) && disk.faults == old(disk.faults)
      ensures old(disk.faults) <= disk.faults
      ensures OpSteps(old(disk.files), old(disk.history), disk.history, id,
                      {NewMeta(id, env, |head| + st.size, now, lifetime)})
      ensures NoOtherSetAside(old(disk.files), disk.files, id) && FailedBody(id) !in disk.files
      ensures OthersUntouched(old(disk.files), disk.files, id)
    {
      var err := WriteCopy(st, env, lifetime, head, id, now);
      var m := NewMeta(id, env, |head| + st.size, now, lifetime);
      MirrorInvExcept(failed.index, old(disk.files), disk.files, id);
      SetAsideFrame(old(disk.files), disk.files, id);
      if err == Fine {
        IndexCopy(m, old(disk.files));
        wake := true;
        r := Ok(id);
      } else {
        IndexInvExcept(index, ended, old(disk.files), disk.files, id);
        assert index - {id} == index;
        r := Err(ErrIo);
      }
    }

    method IndexCopy(m: Meta, ghost before: Files)
      requires disk.Valid() && failed.Valid() && indexBytes == Total(Sizes(index))
      requires IndexInv(index, ended, before) && m.id !in index
      requires CrashPoint(before, disk.files, m.id, {m}) && Survives(disk.files, m.id)
      requires MirrorInv(failed.index, disk.files)
      modifies this`index, this`indexBytes
      ensures Valid()
      ensures index == old(index)[m.id := m] && indexBytes == old(indexBytes) + m.envelope.size
      ensures Recovered(disk.files) == Recovered(before)[m.id := m]
    {
      CommitDone(index, ended, before, disk.files, m);
      PutLocked(m);
    }

    /** Unlink one file in the course of an operation on message id. */
    method StepUnlink(path: Path, id: QueueId, ghost f0: Files, ghost h0: seq<Files>, ghost versions: set<Meta>)
      returns (err: IoError)
      requires disk.Valid() && (path.id == id || path.dir == Tmp)
      requires CrashPoint(f0, disk.files, id, versions) && OpSteps(f0, h0, disk.history, id, versions)
      modifies disk
      ensures disk.Valid() && disk.history == old(disk.history) + [disk.files]
      ensures CrashPoint(f0, disk.files, id, versions) && OpSteps(f0, h0, disk.history, id, versions)
      ensures err == Missing <==> path !in old(disk.files)
      ensures disk.files == if err == Fine then old(disk.files) - {path} else old(disk.files)
      ensures disk.faults == if err == Refused then old(disk.faults) + [On(path)] else old(disk.faults)
      ensures path in {BodyPath(id), MetaPath(id)} && Survives(disk.files, id) ==> err == Refused
    {
      UnlinkKeeps(f0, disk.files, path, id, versions);
      err := disk.Unlink(path);
      OneMoreStep(f0, h0, old(disk.history), disk.files, id, versions);
    }

    /** Write metadata in the course of an operation on its message. */
    method StepWriteMeta(m: Meta, now: Time, ghost f0: Files, ghost h0: seq<Files>, ghost versions: set<Meta>)
      returns (err: IoError)
      requires disk.Valid()
      requires CrashPoint(f0, disk.files, m.id, versions) && OpSteps(f0, h0, disk.history, m.id, versions)
      requires CrashPoint(f0, WithMeta(disk.files, m, now), m.id, versions)
      modifies disk
      ensures disk.Valid() && err != Missing
      ensures SameVisible(if err == Fine then WithMeta(old(disk.files), m, now) else old(disk.files), disk.files)
      ensures CrashPoint(f0, disk.files, m.id, versions) && OpSteps(f0, h0, disk.history, m.id, versions)
      ensures old(disk.history) <= disk.history
      ensures forall k :: |old(disk.history)| <= k < |disk.history| ==>
                            || SameVisible(old(disk.files), disk.history[k])
                            || SameVisible(WithMeta(old(disk.files), m, now), disk.history[k])
      ensures OthersUntouched(old(disk.files), disk.files, m.id)
      ensures old(disk.faults) <= disk.faults && (err == Fine <==> disk.faults == old(disk.faults))
    {
      ghost var found, mid := disk.files, disk.history;
      err := WriteMeta(m, now);
      MetaWriteSteps(f0, h0, mid, disk.history, found, WithMeta(found, m, now), m.id, versions);
      SameVisibleCrashPoint(f0, if err == Fine then WithMeta(found, m, now) else found, disk.files, m.id, versions);
    }

    /** The file operations of Commit. */
    method WriteCopy(st: Staged, env: Envelope, lifetime: Time, head: Octets, id: QueueId, now: Time)
      returns (err: IoError)
      requires disk.Valid() && Unused(disk.files, id)
      requires StagedPath(st.id) in disk.files ==> st.size == |OctetsAt(disk.files, StagedPath(st.id))|
      modifies disk
      ensures disk.Valid()
      ensures err == Fine ==> && Survives(disk.files, id)
                              && OctetsAt(disk.files, BodyPath(id)) ==
                                 head + OctetsAt(old(disk.files), StagedPath(st.id))
      ensures err != Fine && Survives(disk.files, id) ==> PairRefused(old(disk.faults), disk.faults, id)
      ensures old(disk.faults) <= disk.faults
      ensures err == Fine <==> StagedPath(st.id) in old(disk.files) && disk.faults == old(disk.faults)
      ensures FailedBody(id) !in disk.files && OthersUntouched(old(disk.files), disk.files, id)
      ensures CrashPoint(old(disk.files), disk.files, id, {NewMeta(id, env, |head| + st.size, now, lifetime)})
      ensures OpSteps(old(disk.files), old(disk.history), disk.history, id,
                      {NewMeta(id, env, |head| + st.size, now, lifetime)})
    {
      ghost var f0, h0 := disk.files, disk.history;
      var m := NewMeta(id, env, |head| + st.size, now, lifetime);
      ghost var versions := {m};
      assert CrashPoint(f0, f0, id, versions);
      if StagedPath(st.id) !in disk.files {
        return Missing;
      }
      var copy := Body(head + OctetsAt(disk.files, StagedPath(st.id)));
      err := disk.WriteSynced(TmpBody(id), copy, Body(""));
      MetaWriteSteps(f0, h0, h0, disk.history, f0, f0, id, versions);
      SameVisibleCrashPoint(f0, f0, disk.files, id, versions);
      assert SameAt(f0, disk.files, FailedBody(id));
      if err != Fine {
        return;
      }
      CopyArrives(f0, disk.files, m, copy.octets, now);
      ghost var mid := disk.history;
      err := disk.Rename(TmpBody(id), BodyPath(id));
      OneMoreStep(f0, h0, mid, disk.files, id, versions);
      if err != Fine {
        var cleanup := StepUnlink(TmpBody(id), id, f0, h0, versions);
        return;
      }
      err := FinishCopy(m, now, f0, h0);
    }

    /** The rest of Commit's file work: the metadata that makes the renamed body a message. */
    method FinishCopy(m: Meta, now: Time, ghost f0: Files, ghost h0: seq<Files>) returns (err: IoError)
      requires disk.Valid() && FailedBody(m.id) !in disk.files && !Survives(disk.files, m.id)
      requires CrashPoint(f0, disk.files, m.id, {m}) && OpSteps(f0, h0, disk.history, m.id, {m})
      requires CrashPoint(f0, WithMeta(disk.files, m, now), m.id, {m}) && Survives(WithMeta(disk.files, m, now), m.id)
      modifies disk
      ensures disk.Valid()
      ensures err == Fine ==> && Survives(disk.files, m.id)
                              && OctetsAt(disk.files, BodyPath(m.id)) == OctetsAt(old(disk.files), BodyPath(m.id))
      ensures err != Fine && Survives(disk.files, m.id) ==> PairRefused(old(disk.faults), disk.faults, m.id)
      ensures old(disk.faults) <= disk.faults && (err == Fine <==> disk.faults == old(disk.faults))
      ensures FailedBody(m.id) !in disk.files && OthersUntouched(old(disk.files), disk.files, m.id)
      ensures CrashPoint(f0, disk.files, m.id, {m}) && OpSteps(f0, h0, disk.history, m.id, {m})
    {
      ghost var arrived := disk.files;
      err := StepWriteMeta(m, now, f0, h0, {m});
      ghost var target := if err == Fine then WithMeta(arrived, m, now) else arrived;
      assert SameAt(target, disk.files, FailedBody(m.id)) && SameAt(target, disk.files, BodyPath(m.id));
      assert SameAt(target, disk.files, MetaPath(m.id));
      if err != Fine {
        var cleanup := StepUnlink(BodyPath(m.id), m.id, f0, h0, {m});
        return;
      }
      err := disk.SyncDir();
      if err != Fine {
        ghost var faults := disk.faults;
        UndoCopy(m, f0, h0);
        if Survives(disk.files, m.id) {
          StillRefused(old(disk.faults), faults, disk.faults);
        }
      }
    }

    /** A copy nobody will be told of must not be found by a restart: both files are tried, body first. */
    method UndoCopy(m: Meta, ghost f0: Files, ghost h0: seq<Files>)
      requires disk.Valid() && CrashPoint(f0, disk.files, m.id, {m}) && OpSteps(f0, h0, disk.history, m.id, {m})
      modifies disk
      ensures disk.Valid() && CrashPoint(f0, disk.files, m.id, {m}) && OpSteps(f0, h0, disk.history, m.id, {m})
      ensures old(disk.faults) <= disk.faults
      ensures Survives(disk.files, m.id) ==> PairRefused(old(disk.faults), disk.faults, m.id)
      ensures OthersUntouched(old(disk.files), disk.files, m.id) && SameAt(old(disk.files), disk.files, FailedBody(m.id))
    {
      ghost var was := disk.faults;
      var bodyErr := StepUnlink(BodyPath(m.id), m.id, f0, h0, {m});
      ghost var mid := disk.faults;
      var metaErr := StepUnlink(MetaPath(m.id), m.id, f0, h0, {m});
      if Survives(disk.files, m.id) {
        assert disk.faults[|was|] == On(BodyPath(m.id)) && disk.faults[|mid|] == On(MetaPath(m.id));
      }
    }

    /** Offer one message to the heap of the max oldest seen so far. */
    method Offer(h: NewestFirst, m: Meta, max: int)
      requires HeapOrdered(h.items) && |h.items| <= max && 0 < max
      modifies h
      ensures HeapOrdered(h.items)
      ensures var was := old(h.items);
              multiset(h.items) ==
              if |was| < max then multiset(was) + multiset{m}
              else if m.envelope.received < was[0].envelope.received
                then multiset(was) - multiset{was[0]} + multiset{m}
              else multiset(was)
    {
      if |h.items| < max {
        h.Push(m);
      } else if m.envelope.received < h.items[0].envelope.received {
        h.ReplaceRoot(m);
      }
    }

    /** The body of the scan: skip what cannot be claimed now, offer the rest to the heap. */
    method Consider(h: NewestFirst, id: QueueId, now: Time, max: int, skip: string -> bool,
                    ghost eligible: set<QueueId>, ghost kept: set<Meta>) returns (ghost still: set<Meta>)
      requires Valid() && 0 < max && id in index && id !in eligible
      requires HeapOrdered(h.items) && multiset(h.items) == multiset(kept)
      requires Oldest(index, eligible, max, kept)
      modifies h
      ensures HeapOrdered(h.items) && multiset(h.items) == multiset(still)
      ensures Oldest(index, if Eligible(index, leased, now, skip, id) then eligible + {id} else eligible, max, still)
    {
      still := kept;
      if id in leased || index[id].nextAttempt > now || skip(index[id].envelope.route) {
        return;
      }
      var m := index[id];
      assert |h.items| == |multiset(h.items)| == |multiset(kept)| == |kept|;
      ghost var root := if h.items == [] then m else h.items[0];
      RootAmongKept(h.items, kept);
      Offer(h, m, max);
      still := KeptWith(max, kept, m, root);
      if |kept| < max {
        OldestGrows(index, eligible, max, kept, m);
      } else if m.envelope.received < root.envelope.received {
        OldestReplaces(index, eligible, max, kept, m, root);
      } else {
        OldestStays(index, eligible, max, kept, m, root);
      }
    }

    /** One pass over the index, in whatever order the map yields it. */
    method CollectOldest(now: Time, max: int, skip: string -> bool) returns (h: NewestFirst, ghost kept: set<Meta>)
      requires Valid() && 0 < max
      ensures fresh(h) && HeapOrdered(h.items) && multiset(h.items) == multiset(kept)
      ensures Oldest(index, EligibleIds(index, leased, now, skip), max, kept)
    {
      h := new NewestFirst();
      kept := {};
      var todo := index.Keys;
      ghost var eligible: set<QueueId> := {};
      while todo != {}
        invariant todo <= index.Keys && fresh(h)
        invariant forall id :: id in eligible <==>
                                 id in index && id !in todo && Eligible(index, leased, now, skip, id)
        invariant HeapOrdered(h.items) && multiset(h.items) == multiset(kept)
        invariant Oldest(index, eligible, max, kept)
        decreases |todo|
      {
        var id :| id in todo;
        todo := todo - {id};
        kept := Consider(h, id, now, max, skip, eligible, kept);
        eligible := if Eligible(index, leased, now, skip, id) then eligible + {id} else eligible;
      }
      assert eligible == EligibleIds(index, leased, now, skip);
    }

    /** Empty the heap from the newest down, leasing each message as it leaves. */
    method Drain(h: NewestFirst, ghost kept: set<Meta>) returns (out: seq<Meta>)
      requires HeapOrdered(h.items) && multiset(h.items) == multiset(kept)
      modifies this`leased, h
      ensures multiset(out) == multiset(kept) && SortedByReceived(out)
      ensures leased == old(leased) + IdsOf(out)
    {
      out := [];
      while h.items != []
        invariant HeapOrdered(h.items)
        invariant multiset(h.items) + multiset(out) == multiset(kept)
        invariant SortedByReceived(out)
        invariant forall m, o :: m in h.items && o in out ==> !Newer(m, o)
        invariant leased == old(leased) + IdsOf(out)
        decreases |h.items|
      {
        ghost var before := h.items;
        var m := h.Pop();
        PoppedFrom(before, h.items, m);
        assert IdsOf([m] + out) == IdsOf(out) + {m.id};
        leased := leased + {m.id};
        out := [m] + out;
      }
    }

    /**
     The sorted prefix, of length max, of what is due, unleased and not skipped; all of it leased.
     */
    method ClaimBatch(now: Time, max: int, skip: string -> bool) returns (out: seq<Meta>)
      requires Valid()
      modifies this`leased
      ensures Valid()
      ensures IsBatch(index, EligibleIds(index, old(leased), now, skip), max, out)
      ensures forall m :: m in out ==>
                && m.id in index && index[m.id] == m
                && m.id !in old(leased) && m.nextAttempt <= now && !skip(m.envelope.route)
      ensures forall i, j :: 0 <= i < j < |out| ==> out[i].id != out[j].id && out[i].envelope.received <= out[j].envelope.received
      ensures forall m, id :: m in out && id in index && id !in IdsOf(out) ==>
                || id in old(leased) || now < index[id].nextAttempt || skip(index[id].envelope.route)
                || m.envelope.received <= index[id].envelope.received
      ensures |out| < max ==> forall id :: id in index && id !in IdsOf(out) ==>
                id in old(leased) || now < index[id].nextAttempt || skip(index[id].envelope.route)
      ensures leased == old(leased) + IdsOf(out)
      ensures ClaimStep(old(View()), View(), out)
    {
      if max <= 0 {
        out := [];
        BatchIsDue(index, leased, now, skip, max, out);
        return;
      }
      var h, kept := CollectOldest(now, max, skip);
      out := Drain(h, kept);
      KeptIsBatch(index, EligibleIds(index, old(leased), now, skip), max, kept, out);
      BatchIsDue(index, old(leased), now, skip, max, out);
    }

    /** Put a leased message back without touching the disk. */
    method Defer(id: QueueId, until: Time)
      requires Valid()
      modifies this`index, this`leased
      ensures Valid()
      ensures index == if id in old(index) then old(index)[id := old(index)[id].(nextAttempt := until)] else old(index)
      ensures leased == old(leased) - {id}
      ensures DeferStep(old(View()), View(), id)
    {
      if id in index {
        var cur := index[id].(nextAttempt := until);
        assert Sizes(index[id := cur]) == Sizes(index);
        assert EntryInv(id, index[id], id in ended, disk.files);
        index := index[id := cur];
      }
      leased := leased - {id};
    }

    /**
     Release: return a leased message with an updated retry state. If the metadata cannot be
     written the state is kept in memory only and the next attempt is floored.
     */
    method Release(m: Meta, now: Time) returns (err: Option<SpoolError>)
      requires Valid() && CopyOf(m, index)
      modifies this`index, this`indexBytes, this`leased, disk
      ensures Valid() && indexBytes == old(indexBytes)
      ensures leased == old(leased) - {m.id}
      ensures err.None? ==> index == old(index)[m.id := m] && ReadMetaAt(disk.files, MetaPath(m.id)) == Some(m)
      ensures err.Some? ==> index == old(index)[m.id := m.(nextAttempt := Max(m.nextAttempt, now + RELEASE_RETRY_DELAY))]
                            && SameVisible(old(disk.files), disk.files)
      ensures OpSteps(old(disk.files), old(disk.history), disk.history, m.id,
                      VersionOnDisk(old(disk.files), m.id) + {m})
      ensures err.None? <==> disk.faults == old(disk.faults)
      ensures ReleaseStep(old(View()), View(), m.id)
      ensures Survives(old(disk.files), m.id) ==> SurvivesSince(old(disk.history), disk.history, m.id)
    {
      ghost var f0, versions := disk.files, VersionOnDisk(disk.files, m.id) + {m};
      var io := RewriteMeta(m, now, versions);
      var c := m;
      if io != Fine {
        if c.nextAttempt < now + RELEASE_RETRY_DELAY {
          c := c.(nextAttempt := now + RELEASE_RETRY_DELAY);
        }
      }
      PutBack(m, c, f0, now, io == Fine);
      err := if io == Fine then None else Some(ErrIo);
    }

    /** The critical section of Release: the index takes the retry state and the lease ends. */
    method PutBack(m: Meta, c: Meta, ghost before: Files, ghost at: Time, ghost written: bool)
      requires disk.Valid() && failed.Valid() && indexBytes == Total(Sizes(index))
      requires IndexInv(index, ended, before) && MirrorInv(failed.index, before) && CopyOf(m, index)
      requires c.id == m.id && c.envelope == m.envelope && c.expires == m.expires
      requires SameVisible(if written then WithMeta(before, m, at) else before, disk.files)
      modifies this`index, this`indexBytes, this`leased
      ensures Valid() && indexBytes == old(indexBytes)
      ensures index == old(index)[m.id := c] && leased == old(leased) - {m.id}
    {
      StillBacked(index, ended, before, disk.files, m, c, at, written);
      RewriteKeepsMirror(failed.index, before, disk.files, m, at, written);
      PutLocked(c);
      leased := leased - {m.id};
    }

    /** The metadata write of Release and Fail: the message stays on the disk throughout. */
    method RewriteMeta(m: Meta, now: Time, ghost versions: set<Meta>) returns (io: IoError)
      requires disk.Valid() && IndexInv(index, ended, disk.files) && CopyOf(m, index)
      requires versions == VersionOnDisk(disk.files, m.id) + {m}
      modifies disk
      ensures disk.Valid() && io != Missing
      ensures SameVisible(if io == Fine then WithMeta(old(disk.files), m, now) else old(disk.files), disk.files)
      ensures CrashPoint(old(disk.files), disk.files, m.id, versions)
      ensures OpSteps(old(disk.files), old(disk.history), disk.history, m.id, versions)
      ensures Survives(old(disk.files), m.id) ==> SurvivesSince(old(disk.history), disk.history, m.id)
      ensures SameAt(old(disk.files), disk.files, BodyPath(m.id)) && SameAt(old(disk.files), disk.files, FailedBody(m.id))
      ensures MetaPath(m.id) in old(disk.files) ==> MetaPath(m.id) in disk.files
      ensures io == Fine ==> ReadMetaAt(disk.files, MetaPath(m.id)) == Some(m)
      ensures old(disk.faults) <= disk.faults && (io == Fine <==> disk.faults == old(disk.faults))
      ensures forall other :: FailedBody(other) in disk.files ==> FailedBody(other) in old(disk.files)
    {
      ghost var f0, h0 := disk.files, disk.history;
      MetaRewritten(index, ended, f0, m, now);
      io := StepWriteMeta(m, now, f0, h0, versions);
      RewriteFrame(f0, disk.files, m, now, io == Fine);
      SetAsideFrame(f0, disk.files, m.id);
      forall k | |h0| <= k < |disk.history| && Survives(f0, m.id)
        ensures Survives(disk.history[k], m.id)
      {
        var h := disk.history[k];
        var seen := if SameVisible(f0, h) then f0 else WithMeta(f0, m, now);
        assert SameAt(seen, h, BodyPath(m.id)) && SameAt(seen, h, MetaPath(m.id));
      }
      if io == Fine {
        assert SameAt(WithMeta(f0, m, now), disk.files, MetaPath(m.id));
      }
    }

    /** Remove: a delivered message leaves the index, then its body and its metadata. */
    method Remove(id: QueueId) returns (err: Option<SpoolError>)
      requires Valid()
      modifies this`index, this`indexBytes, this`leased, disk
      ensures Valid()
      ensures index == old(index) - {id} && leased == old(leased) - {id}
      ensures indexBytes == old(indexBytes) - (if id in old(index) then old(index)[id].envelope.size else 0)
      ensures err.None? ==> BodyPath(id) !in disk.files && MetaPath(id) !in disk.files
      ensures err.None? <==> disk.faults == old(disk.faults)
      ensures Survives(disk.files, id) ==> PairRefused(old(disk.faults), disk.faults, id)
      ensures OpSteps(old(disk.files), old(disk.history), disk.history, id, VersionOnDisk(old(disk.files), id))
      ensures Deleting(old(disk.files), old(disk.history), disk.history, id)
      ensures RemoveStep(old(View()), View(), id)
    {
      ghost var f0 := disk.files;
      DropLocked(id);
      leased := leased - {id};
      assert MessageInv(f0, id);
      err := UnlinkQueued(id);
      IndexInvExcept(old(index), ended, f0, disk.files, id);
      MirrorInvExcept(failed.index, f0, disk.files, id);
    }

    /** The two unlinks of Remove, body first. */
    method UnlinkQueued(id: QueueId) returns (err: Option<SpoolError>)
      requires disk.Valid() && MessageInv(disk.files, id)
      modifies disk
      ensures disk.Valid()
      ensures err.None? ==> BodyPath(id) !in disk.files && MetaPath(id) !in disk.files
      ensures err.None? <==> disk.faults == old(disk.faults)
      ensures Survives(disk.files, id) ==> PairRefused(old(disk.faults), disk.faults, id)
      ensures CrashPoint(old(disk.files), disk.files, id, VersionOnDisk(old(disk.files), id))
      ensures OpSteps(old(disk.files), old(disk.history), disk.history, id, VersionOnDisk(old(disk.files), id))
      ensures Deleting(old(disk.files), old(disk.history), disk.history, id)
      ensures forall p :: p in disk.files ==> p in old(disk.files) && disk.files[p] == old(disk.files)[p]
    {
      var removed, refused := UnlinkPair(BodyPath(id), MetaPath(id), id, disk.files, disk.history,
                                         VersionOnDisk(disk.files, id));
      if refused {
        return Some(ErrIo);
      }
      var io := disk.SyncDir();
      err := if io == Fine then None else Some(ErrIo);
    }

    /** Unlink one of the files of a message that is being deleted. */
    method DeleteOne(path: Path, id: QueueId, ghost f0: Files, ghost h0: seq<Files>, ghost versions: set<Meta>)
      returns (err: IoError)
      requires disk.Valid() && path.id == id
      requires CrashPoint(f0, disk.files, id, versions) && OpSteps(f0, h0, disk.history, id, versions)
      requires Deleting(f0, h0, disk.history, id)
      modifies disk
      ensures disk.Valid()
      ensures CrashPoint(f0, disk.files, id, versions) && OpSteps(f0, h0, disk.history, id, versions)
      ensures Deleting(f0, h0, disk.history, id)
      ensures disk.files == old(disk.files) || disk.files == old(disk.files) - {path}
      ensures (err == Fine <==> path in old(disk.files) && path !in disk.files) && (err == Refused <==> path in disk.files)
      ensures disk.faults == if err == Refused then old(disk.faults) + [On(path)] else old(disk.faults)
    {
      DeletingOneMore(f0, h0, disk.history, disk.files, path, id);
      DeletingOneMore(f0, h0, disk.history, disk.files - {path}, path, id);
      err := StepUnlink(path, id, f0, h0, versions);
    }

    /** Unlink a body and its metadata, the second whatever became of the first. */
    method UnlinkPair(body: Path, meta: Path, id: QueueId, ghost f0: Files, ghost h0: seq<Files>, ghost versions: set<Meta>)
      returns (removed: bool, refused: bool)
      requires disk.Valid() && body.id == meta.id == id && body != meta
      requires CrashPoint(f0, disk.files, id, versions) && OpSteps(f0, h0, disk.history, id, versions)
      requires Deleting(f0, h0, disk.history, id)
      modifies disk
      ensures disk.Valid()
      ensures CrashPoint(f0, disk.files, id, versions) && OpSteps(f0, h0, disk.history, id, versions)
      ensures Deleting(f0, h0, disk.history, id)
      ensures old(disk.faults) <= disk.faults && (refused <==> disk.faults != old(disk.faults))
      ensures refused <==> body in disk.files || meta in disk.files
      ensures removed <==> disk.files != old(disk.files)
      ensures body in disk.files ==> RefusedSince(old(disk.faults), disk.faults, body)
      ensures meta in disk.files ==> RefusedSince(old(disk.faults), disk.faults, meta)
      ensures forall p :: p != body && p != meta ==> SameAt(old(disk.files), disk.files, p)
      ensures disk.files.Keys <= old(disk.files).Keys && forall p :: p in disk.files ==> disk.files[p] == old(disk.files)[p]
    {
      ghost var was := disk.faults;
      var e1 := DeleteOne(body, id, f0, h0, versions);
      ghost var mid := disk.faults;
      var e2 := DeleteOne(meta, id, f0, h0, versions);
      removed := e1 == Fine || e2 == Fine;
      refused := e1 == Refused || e2 == Refused;
      assert e1 == Refused ==> disk.faults[|was|] == On(body);
      assert e2 == Refused ==> disk.faults[|mid|] == On(meta);
    }

    /** Rename one of the message's files between queue and failed. */
    method StepRename(src: Path, dst: Path, id: QueueId, ghost f0: Files, ghost h0: seq<Files>, ghost versions: set<Meta>)
      returns (err: IoError)
      requires disk.Valid() && AsideOrBack(src, dst, id)
      requires CrashPoint(f0, disk.files, id, versions) && OpSteps(f0, h0, disk.history, id, versions)
      requires src == FailedBody(id) && MetaPath(id) in disk.files ==>
                 VersionOnDisk(disk.files, id) <= versions
      modifies disk
      ensures disk.Valid() && disk.history == old(disk.history) + [disk.files]
      ensures CrashPoint(f0, disk.files, id, versions) && OpSteps(f0, h0, disk.history, id, versions)
      ensures err == Missing <==> src !in old(disk.files)
      ensures disk.files == if err == Fine then old(disk.files)[dst := old(disk.files)[src]] - {src} else old(disk.files)
      ensures disk.faults == if err == Refused then old(disk.faults) + [On(src)] else old(disk.faults)
      ensures src.dir == Queue && Survives(disk.files, id) ==> err != Fine
    {
      if src in disk.files {
        MovingKeeps(f0, disk.files, src, dst, id, versions);
      }
      err := disk.Rename(src, dst);
      OneMoreStep(f0, h0, old(disk.history), disk.files, id, versions);
    }

    /**
     Fail: set a permanently undeliverable message aside in failed. It leaves the live index
     whatever the disk says, and what is there is charged to the mirror instead.
     */
    method Fail(held: Meta, reason: string, now: Time) returns (err: Option<SpoolError>)
      requires Valid() && CopyOf(held, index)
      modifies this`index, this`indexBytes, this`leased, disk, failed`index, failed`bytes
      ensures Valid()
      ensures index == old(index) - {held.id} && leased == old(leased) - {held.id}
      ensures failed.index == old(failed.index)[held.id :=
                FailedEntry(|OctetsAt(old(disk.files), BodyPath(held.id))|, now)]
      ensures indexBytes + failed.bytes == old(indexBytes + failed.bytes)
                - (if BodyPath(held.id) in old(disk.files) then 0 else old(index)[held.id].envelope.size)
                - (if held.id in old(failed.index) then old(failed.index)[held.id].size else 0)
      ensures err.None? ==> !Survives(disk.files, held.id) && SetAside(old(disk.files), disk.files, held.id)
      ensures OpSteps(old(disk.files), old(disk.history), disk.history, held.id,
                      VersionOnDisk(old(disk.files), held.id) + {held.(lastError := reason)})
      ensures FailStep(old(View()), View(), held.id)
      ensures Survives(old(disk.files), held.id) ==> FadesOut(old(disk.history), disk.history, held.id)
      ensures Survives(disk.files, held.id) ==> PairRefused(old(disk.faults), disk.faults, held.id)
      ensures err.Some? ==> disk.faults != old(disk.faults)
    {
      var m := held.(lastError := reason);
      var id := m.id;
      ghost var f0, h0, was, versions := disk.files, disk.history, disk.faults, VersionOnDisk(disk.files, id) + {m};
      assert EntryInv(id, index[id], id in ended, f0);
      var ignored := RewriteMeta(m, now, versions);

      DropLocked(id);
      leased := leased - {id};

      ghost var mid, faults := disk.history, disk.faults;
      err := SetFilesAside(id, now, f0, h0, versions);
      IndexInvExcept(old(index), ended, f0, disk.files, id);
      AsideAfterRewrite(h0, mid, disk.history, was, faults, disk.faults, disk.files, id);
    }

    /** The file work of Fail after the lease is gone, and the failed copy's place in the mirror. */
    method SetFilesAside(id: QueueId, now: Time, ghost f0: Files, ghost h0: seq<Files>, ghost versions: set<Meta>)
      returns (err: Option<SpoolError>)
      requires disk.Valid() && failed.Valid() && MirrorInv(failed.index, f0)
      requires CrashPoint(f0, disk.files, id, versions) && OpSteps(f0, h0, disk.history, id, versions)
      requires SameAt(f0, disk.files, BodyPath(id)) && SameAt(f0, disk.files, FailedBody(id)) && FailedBody(id) !in f0
      requires MetaPath(id) in f0 ==> MetaPath(id) in disk.files
      modifies disk, failed`index, failed`bytes
      ensures disk.Valid() && failed.Valid() && MirrorInv(failed.index, disk.files)
      ensures failed.index == old(failed.index)[id := FailedEntry(|OctetsAt(f0, BodyPath(id))|, now)]
      ensures failed.bytes == old(failed.bytes) + |OctetsAt(f0, BodyPath(id))|
                - (if id in old(failed.index) then old(failed.index)[id].size else 0)
      ensures CrashPoint(f0, disk.files, id, versions) && OpSteps(f0, h0, disk.history, id, versions)
      ensures NoOtherSetAside(f0, disk.files, id)
      ensures err.None? ==> SetAside(f0, disk.files, id)
      ensures FadesOut(old(disk.history), disk.history, id)
      ensures Survives(disk.files, id) ==> PairRefused(old(disk.faults), disk.faults, id)
      ensures old(disk.faults) <= disk.faults && (err.None? <==> disk.faults == old(disk.faults))
    {
      var onDisk, moveErr := MoveAside(id, f0, h0, versions);
      failed.Put(id, FailedEntry(onDisk, now));
      SetAsideFrame(f0, disk.files, id);
      MirrorInvExcept(failed.index, f0, disk.files, id);
      if moveErr {
        return Some(ErrIo);
      }
      var io := disk.SyncDir();
      err := if io == Fine then None else Some(ErrIo);
    }

    /** The two renames of Fail, metadata first, and the size read between them. */
    method MoveAside(id: QueueId, ghost f0: Files, ghost h0: seq<Files>, ghost versions: set<Meta>)
      returns (onDisk: int, moveErr: bool)
      requires disk.Valid()
      requires CrashPoint(f0, disk.files, id, versions) && OpSteps(f0, h0, disk.history, id, versions)
      modifies disk
      ensures disk.Valid()
      ensures CrashPoint(f0, disk.files, id, versions) && OpSteps(f0, h0, disk.history, id, versions)
      ensures onDisk == |OctetsAt(old(disk.files), BodyPath(id))|
      ensures !moveErr ==> SetAside(old(disk.files), disk.files, id)
      ensures FadesOut(old(disk.history), disk.history, id)
      ensures Survives(disk.files, id) ==> PairRefused(old(disk.faults), disk.faults, id)
      ensures old(disk.faults) <= disk.faults && (moveErr <==> disk.faults != old(disk.faults))
      ensures FailedBody(id) in disk.files && FailedBody(id) !in old(disk.files) ==>
                OctetsAt(disk.files, FailedBody(id)) == OctetsAt(old(disk.files), BodyPath(id))
    {
      ghost var h, was := disk.history, disk.faults;
      var metaErr := StepRename(MetaPath(id), FailedMeta(id), id, f0, h0, versions);
      FadesOneMore(h, h, disk.files, id);
      onDisk := |OctetsAt(disk.files, BodyPath(id))|;
      ghost var h1, mid := disk.history, disk.faults;
      var bodyErr := StepRename(BodyPath(id), FailedBody(id), id, f0, h0, versions);
      FadesOneMore(h, h1, disk.files, id);
      moveErr := metaErr == Refused || bodyErr == Refused;
      if Survives(disk.files, id) {
        assert disk.faults[|was|] == On(MetaPath(id)) && disk.faults[|mid|] == On(BodyPath(id));
      }
    }

    method TryLease(id: QueueId) returns (ok: bool)
      modifies this`leased
      ensures ok <==> id !in old(leased)
      ensures leased == old(leased) + {id}
    {
      ok := id !in leased;
      leased := leased + {id};
    }

    method EndLease(id: QueueId)
      modifies this`leased
      ensures leased == old(leased) - {id}
    {
      leased := leased - {id};
    }

    /**
     Requeue up to the point where the committed hook runs: on success the message is back in
     the index, due and with a fresh budget, and its lease is still held, so that nothing can
     claim it before the caller has journalled the requeue and called EndLease.
     */
    method BeginRequeue(id: QueueId, now: Time) returns (err: Option<SpoolError>)
      requires Valid()
      modifies this`index, this`indexBytes, this`leased, disk, failed`index, failed`bytes
      ensures Valid()
      ensures err == Some(ErrBusy) <==> id in old(leased)
      ensures err == Some(ErrBusy) ==> disk.files == old(disk.files) && disk.history == old(disk.history)
      ensures err == Some(ErrNotFound) <==> id !in old(leased) && id !in old(index) && FailedMeta(id) !in old(disk.files)
      ensures err == Some(ErrNotFound) ==> disk.files == old(disk.files)
      ensures err.Some? ==> && index == old(index) && leased == old(leased)
                            && failed.index == old(failed.index) && indexBytes == old(indexBytes)
      ensures err.None? ==> && leased == old(leased) + {id}
                            && index == old(index)[id := Requeued(RequeueSource(old(index), old(disk.files), id), now)]
                            && failed.index == (if id in old(index) then old(failed.index) else old(failed.index) - {id})
                            && ReadMetaAt(disk.files, MetaPath(id)) == Some(index[id])
                            && (id !in old(index) ==> BodyPath(id) in disk.files)
      ensures err.None? ==>
                && id in index && index[id].id == id
                && index[id].attempts == 0 && index[id].nextAttempt == now && index[id].lastError == ""
                && var was := if id in old(index) then Some(old(index)[id]) else ReadMetaAt(old(disk.files), FailedMeta(id));
                   was.Some? && index[id].envelope == was.value.envelope && index[id].expires == was.value.expires
      ensures err.None? && (id in old(index) || id in old(failed.index)) ==>
                indexBytes + failed.bytes == old(indexBytes + failed.bytes)
      ensures id !in old(leased) ==>
                OpSteps(old(disk.files), old(disk.history), disk.history, id,
                        VersionOnDisk(old(disk.files), id)
                        + {Requeued(RequeueSource(old(index), old(disk.files), id), now)})
      ensures err.None? <==> && id !in old(leased) && disk.faults == old(disk.faults)
                             && (id in old(index) || Requeueable(old(disk.files), id))
      ensures id in old(index) && Survives(old(disk.files), id) ==> SurvivesSince(old(disk.history), disk.history, id)
      ensures id !in old(index) ==>
                NothingLostSince(old(disk.files), old(disk.history), disk.history,
                                 Requeued(RequeueSource(old(index), old(disk.files), id), now))
    {
      var free := TryLease(id);
      if !free {
        assert leased == old(leased);
        return Some(ErrBusy);
      }
      if id in index {
        assert EntryInv(id, index[id], id in ended, disk.files);
        err := RequeueLive(index[id], now);
      } else {
        err := RequeueFailed(id, now);
      }
      if err.Some? {
        EndLease(id);
        assert leased == old(leased);
      }
    }

    /** Requeue of an indexed message: new metadata, or everything as it was. */
    method RequeueLive(cur: Meta, now: Time) returns (err: Option<SpoolError>)
      requires Valid() && cur.id in index && index[cur.id] == cur
      modifies this`index, this`indexBytes, disk
      ensures Valid() && indexBytes == old(indexBytes)
      ensures err.None? || err == Some(ErrIo)
      ensures index == if err.None? then old(index)[cur.id := Requeued(cur, now)] else old(index)
      ensures err.None? ==> ReadMetaAt(disk.files, MetaPath(cur.id)) == Some(Requeued(cur, now))
      ensures OpSteps(old(disk.files), old(disk.history), disk.history, cur.id,
                      VersionOnDisk(old(disk.files), cur.id) + {Requeued(cur, now)})
      ensures Survives(old(disk.files), cur.id) ==> SurvivesSince(old(disk.history), disk.history, cur.id)
      ensures err.None? <==> disk.faults == old(disk.faults)
      ensures RequeueStep(old(View()), View(), cur.id, err.None?)
    {
      var m := Requeued(cur, now);
      ghost var f0, versions := disk.files, VersionOnDisk(disk.files, m.id) + {m};
      var io := RewriteMeta(m, now, versions);
      MirrorInvExcept(failed.index, f0, disk.files, m.id);
      SetAsideFrame(f0, disk.files, m.id);
      assert EntryInv(cur.id, cur, cur.id in ended, f0);
      if io != Fine {
        IndexInvSame(index, ended, f0, disk.files);
        return Some(ErrIo);
      }
      StillBacked(index, ended, f0, disk.files, m, m, now, true);
      assert SameAt(WithMeta(f0, m, now), disk.files, MetaPath(m.id));
      PutLocked(m);
      err := None;
    }

    /** Requeue of a message kept in failed: its body first, then new metadata beside it. */
    method RequeueFailed(id: QueueId, now: Time) returns (err: Option<SpoolError>)
      requires Valid() && id !in index
      modifies this`index, this`indexBytes, disk, failed`index, failed`bytes
      ensures Valid()
      ensures err.None? || err == Some(ErrIo) || err == Some(ErrNotFound)
      ensures err == Some(ErrNotFound) <==> FailedMeta(id) !in old(disk.files)
      ensures err == Some(ErrNotFound) ==> disk.files == old(disk.files)
      ensures err.Some? ==> index == old(index) && failed.index == old(failed.index)
      ensures err.None? ==>
                var m := Requeued(RequeueSource(old(index), old(disk.files), id), now);
                && index == old(index)[id := m] && indexBytes == old(indexBytes) + m.envelope.size
                && failed.index == old(failed.index) - {id}
                && failed.bytes == old(failed.bytes) - (if id in old(failed.index) then m.envelope.size else 0)
                && ReadMetaAt(disk.files, MetaPath(id)) == Some(m)
                && BodyPath(id) in disk.files
                && OctetsAt(disk.files, BodyPath(id)) == OctetsAt(old(disk.files), FailedBody(id))
                && FailedBody(id) in old(disk.files) && m.envelope.size == |OctetsAt(old(disk.files), FailedBody(id))|
      ensures OpSteps(old(disk.files), old(disk.history), disk.history, id,
                      VersionOnDisk(old(disk.files), id)
                      + {Requeued(RequeueSource(old(index), old(disk.files), id), now)})
      ensures err.None? <==> Requeueable(old(disk.files), id) && disk.faults == old(disk.faults)
      ensures NothingLostSince(old(disk.files), old(disk.history), disk.history,
                               Requeued(RequeueSource(old(index), old(disk.files), id), now))
      ensures RequeueStep(old(View()), View(), id, err.None?)
    {
      if FailedMeta(id) !in disk.files {
        return Some(ErrNotFound);
      }
      var stored := ReadMetaAt(disk.files, FailedMeta(id));
      if stored.None? {
        return Some(ErrIo);
      }
      err := RequeueStored(stored.value, id, now);
    }

    /** The same once the metadata kept in failed has been read. */
    method RequeueStored(stored: Meta, id: QueueId, now: Time) returns (err: Option<SpoolError>)
      requires Valid() && id !in index && ReadMetaAt(disk.files, FailedMeta(id)) == Some(stored)
      modifies this`index, this`indexBytes, disk, failed`index, failed`bytes
      ensures Valid()
      ensures err.None? || err == Some(ErrIo)
      ensures err.Some? ==> index == old(index) && failed.index == old(failed.index)
      ensures var m := Requeued(stored, now);
              && (err.None? ==>
                    && index == old(index)[id := m] && indexBytes == old(indexBytes) + m.envelope.size
                    && failed.index == old(failed.index) - {id}
                    && failed.bytes == old(failed.bytes) - (if id in old(failed.index) then m.envelope.size else 0)
                    && ReadMetaAt(disk.files, MetaPath(id)) == Some(m)
                    && BodyPath(id) in disk.files
                    && OctetsAt(disk.files, BodyPath(id)) == OctetsAt(old(disk.files), FailedBody(id))
                    && FailedBody(id) in old(disk.files) && m.envelope.size == |OctetsAt(old(disk.files), FailedBody(id))|)
              && OpSteps(old(disk.files), old(disk.history), disk.history, id, VersionOnDisk(old(disk.files), id) + {m})
              && NothingLostSince(old(disk.files), old(disk.history), disk.history, m)
      ensures err.None? <==> FailedBody(id) in old(disk.files) && disk.faults == old(disk.faults)
      ensures RequeueStep(old(View()), View(), id, err.None?)
    {
      ghost var f0, h0 := disk.files, disk.history;
      var m := Requeued(stored, now);
      ghost var versions := VersionOnDisk(f0, id) + {m};
      assert MessageInv(f0, id);
      var io := StepRename(FailedBody(id), BodyPath(id), id, f0, h0, versions);
      if io != Fine {
        return Some(ErrIo);
      }
      var moved := BringBack(m, f0, h0, versions);
      SetAsideFrame(f0, disk.files, id);
      IndexInvExcept(index, ended, f0, disk.files, id);
      assert index - {id} == index;
      MirrorInvExcept(failed.index, f0, disk.files, id);
      if !moved {
        return Some(ErrIo);
      }
      IndexInvPut(index, ended, f0, disk.files, m);
      PutLocked(m);
      var dropped := failed.Drop(id);
      err := None;
    }

    /** What requeueFailed does to the files once the body is back in queue. */
    method BringBack(m: Meta, ghost f0: Files, ghost h0: seq<Files>, ghost versions: set<Meta>) returns (done: bool)
      requires disk.Valid() && m in versions
      requires CrashPoint(f0, disk.files, m.id, versions) && OpSteps(f0, h0, disk.history, m.id, versions)
      requires BodyPath(m.id) in disk.files && m.envelope.size == |OctetsAt(disk.files, BodyPath(m.id))|
      requires NothingLostSince(f0, h0, disk.history, m) && BodyIsBack(f0, disk.files, m.id)
      modifies disk
      ensures disk.Valid()
      ensures CrashPoint(f0, disk.files, m.id, versions) && OpSteps(f0, h0, disk.history, m.id, versions)
      ensures done ==> && ReadMetaAt(disk.files, MetaPath(m.id)) == Some(m)
                       && SameAt(old(disk.files), disk.files, BodyPath(m.id))
      ensures FailedBody(m.id) in disk.files ==>
                OctetsAt(disk.files, FailedBody(m.id)) == OctetsAt(old(disk.files), BodyPath(m.id))
      ensures old(disk.faults) <= disk.faults && (done <==> disk.faults == old(disk.faults))
      ensures NothingLostSince(f0, h0, disk.history, m)
    {
      var id := m.id;
      ghost var f1 := disk.files;
      assert FailedBody(id) !in f1;
      ghost var mid := disk.history;
      var io := StepWriteMeta(m, m.nextAttempt, f0, h0, versions);
      MetaWriteLosesNothing(f0, f1, h0, mid, disk.history, m, m.nextAttempt);
      RewriteFrame(f1, disk.files, m, m.nextAttempt, io == Fine);
      assert SameAt(if io == Fine then WithMeta(f1, m, m.nextAttempt) else f1, disk.files, FailedMeta(id));
      if io != Fine {
        // No metadata stands beside the body in queue, so a restart would drop it there.
        var back := StepRename(BodyPath(id), FailedBody(id), id, f0, h0, versions);
        return false;
      }
      assert SameAt(WithMeta(f1, m, m.nextAttempt), disk.files, MetaPath(id));
      done := LeaveFailed(m, f0, h0, versions);
    }

    /** The message is whole in queue: its metadata leaves failed and both directories are flushed. */
    method LeaveFailed(m: Meta, ghost f0: Files, ghost h0: seq<Files>, ghost versions: set<Meta>) returns (done: bool)
      requires disk.Valid()
      requires CrashPoint(f0, disk.files, m.id, versions) && OpSteps(f0, h0, disk.history, m.id, versions)
      requires ReadMetaAt(disk.files, MetaPath(m.id)) == Some(m) && NothingLostSince(f0, h0, disk.history, m)
      requires FailedBody(m.id) in f0 && BodyPath(m.id) in disk.files && disk.files[BodyPath(m.id)] == f0[FailedBody(m.id)]
      modifies disk
      ensures disk.Valid()
      ensures CrashPoint(f0, disk.files, m.id, versions) && OpSteps(f0, h0, disk.history, m.id, versions)
      ensures SameAt(old(disk.files), disk.files, BodyPath(m.id)) && SameAt(old(disk.files), disk.files, MetaPath(m.id))
      ensures SameAt(old(disk.files), disk.files, FailedBody(m.id))
      ensures old(disk.faults) <= disk.faults && (done <==> disk.faults == old(disk.faults))
      ensures NothingLostSince(f0, h0, disk.history, m)
    {
      var io := StepUnlink(FailedMeta(m.id), m.id, f0, h0, versions);
      if io == Refused {
        return false;
      }
      io := disk.SyncDir();
      if io != Fine {
        return false;
      }
      io := disk.SyncDir();
      done := io == Fine;
    }

    /** Retention of spool/failed: what goes is only what nobody can notice any more. */
    method SweepFailed(now: Time) returns (removed: nat, freed: int)
      requires Valid()
      modifies disk, failed`index, failed`bytes
      ensures Valid() && SweepStep(old(View()), View())
      ensures var ids := ExpiredIds(old(failed.index), failed.ttl, now);
              && SweptOnly(old(disk.files), disk.files, ids)
              && SweepSteps(old(disk.files), old(disk.history), disk.history, ids)
              && SweptSoFar(ids, old(failed.index), failed.index, disk.files, old(disk.faults), disk.faults)
      ensures forall id :: id in old(failed.index) && id !in failed.index ==> 0 < failed.ttl < now - old(failed.index)[id].at
      ensures disk.faults == old(disk.faults) ==>
                forall id :: id in failed.index ==> failed.ttl <= 0 || now - failed.index[id].at <= failed.ttl
      ensures freed == old(failed.bytes) - failed.bytes && removed == |old(failed.index)| - |failed.index|
      ensures Recovered(disk.files) == Recovered(old(disk.files))
    {
      ghost var ids, f0, mirror := ExpiredIds(failed.index, failed.ttl, now), disk.files, failed.index;
      removed, freed := failed.Sweep(disk, now);
      SweepKeepsPromises(index, ended, mirror, failed.index, f0, disk.files, ids);
      SweepIsInvisible(f0, disk.files, ids);
      OnlyOutstayed(mirror, failed.index, failed.ttl, now, disk.files, old(disk.faults), disk.faults);
    }

    /**
     Discard: unlink every file of a message wherever it sits. The accounting follows only
     once all of them are gone; until then both indexes keep describing the disk.
     */
    method Discard(id: QueueId) returns (err: Option<SpoolError>)
      requires Valid()
      modifies this`index, this`indexBytes, this`leased, this`ended, disk, failed`index, failed`bytes
      ensures Valid() && leased == old(leased)
      ensures err == Some(ErrBusy) <==> id in old(leased)
      ensures err == Some(ErrBusy) ==> && index == old(index) && failed.index == old(failed.index)
                                       && disk.files == old(disk.files) && disk.history == old(disk.history)
      ensures id !in old(leased) && !Erased(disk.files, id) ==>
                && err == Some(ErrIo) && index == old(index) && failed.index == old(failed.index)
                && indexBytes == old(indexBytes) && failed.bytes == old(failed.bytes)
      ensures id !in old(leased) && Erased(disk.files, id) ==>
                && index == old(index) - {id} && failed.index == old(failed.index) - {id}
                && (err == Some(ErrNotFound) <==> Erased(old(disk.files), id))
      ensures err.None? ==> Erased(disk.files, id)
      ensures err.None? <==> id !in old(leased) && disk.faults == old(disk.faults) && !Erased(old(disk.files), id)
      ensures DeletionTrace(old(disk.files), old(disk.history), disk.files, disk.history, id)
      ensures old(disk.faults) <= disk.faults && (err == Some(ErrIo) <==> disk.faults != old(disk.faults))
      ensures err != Some(ErrBusy) ==> LeftRefused(disk.files, old(disk.faults), disk.faults, id)
      ensures ended == if id !in old(leased) && !Erased(disk.files, id) then old(ended) + {id} else old(ended)
    {
      var free := TryLease(id);
      if !free {
        NothingDeleted(disk.files, disk.history, id);
        assert leased == old(leased);
        return Some(ErrBusy);
      }
      err := DiscardLeased(id);
      EndLease(id);
      assert leased == old(leased);
    }

    /** The file work of Discard and the accounting that follows it. The caller holds the lease. */
    method DiscardLeased(id: QueueId) returns (err: Option<SpoolError>)
      requires Valid()
      modifies this`index, this`indexBytes, this`ended, disk, failed`index, failed`bytes
      ensures Valid() && (err.None? || err == Some(ErrIo) || err == Some(ErrNotFound))
      ensures !Erased(disk.files, id) ==>
                && err == Some(ErrIo) && index == old(index) && failed.index == old(failed.index)
                && indexBytes == old(indexBytes) && failed.bytes == old(failed.bytes)
      ensures Erased(disk.files, id) ==>
                && index == old(index) - {id} && failed.index == old(failed.index) - {id}
                && (err == Some(ErrNotFound) <==> Erased(old(disk.files), id))
      ensures DeletionTrace(old(disk.files), old(disk.history), disk.files, disk.history, id)
      ensures old(disk.faults) <= disk.faults && (err == Some(ErrIo) <==> disk.faults != old(disk.faults))
      ensures LeftRefused(disk.files, old(disk.faults), disk.faults, id)
      ensures ended == if !Erased(disk.files, id) then old(ended) + {id} else old(ended)
      ensures DiscardStep(old(View()), View(), id)
    {
      ghost var f0 := disk.files;
      assert MessageInv(f0, id);
      var removed, refused := UnlinkAll(id);
      ShrinkKeeps(index, ended, failed.index, f0, disk.files, id);
      if refused {
        // The entries stay as they are: they describe what could not be unlinked.
        ended := ended + {id};
        return Some(ErrIo);
      }
      err := DropBoth(id, removed);
    }

    /** The accounting of Discard: the message leaves both indexes, and both directories are flushed if anything went. */
    method DropBoth(id: QueueId, removed: bool) returns (err: Option<SpoolError>)
      requires disk.Valid() && failed.Valid() && indexBytes == Total(Sizes(index))
      requires IndexInv(index - {id}, ended, disk.files) && MirrorInv(failed.index, disk.files)
      modifies this`index, this`indexBytes, disk`faults, failed`index, failed`bytes
      ensures Valid() && index == old(index) - {id} && failed.index == old(failed.index) - {id}
      ensures err == Some(ErrNotFound) <==> !removed
      ensures err.None? || err == Some(ErrIo) || err == Some(ErrNotFound)
      ensures old(disk.faults) <= disk.faults && (err == Some(ErrIo) <==> disk.faults != old(disk.faults))
    {
      DropLocked(id);
      var dropped := failed.Drop(id);
      if !removed {
        return Some(ErrNotFound);
      }
      var io := disk.SyncDir();
      if io == Fine {
        io := disk.SyncDir();
      }
      err := if io == Fine then None else Some(ErrIo);
    }

    /** A file that cannot be unlinked does not keep the others in place: all four are tried. */
    method UnlinkAll(id: QueueId) returns (removed: bool, refused: bool)
      requires disk.Valid() && MessageInv(disk.files, id)
      modifies disk
      ensures disk.Valid()
      ensures refused <==> !Erased(disk.files, id)
      ensures !refused ==> (removed <==> !Erased(old(disk.files), id))
      ensures CrashPoint(old(disk.files), disk.files, id, VersionOnDisk(old(disk.files), id))
      ensures DeletionTrace(old(disk.files), old(disk.history), disk.files, disk.history, id)
      ensures old(disk.faults) <= disk.faults && (refused <==> disk.faults != old(disk.faults))
      ensures LeftRefused(disk.files, old(disk.faults), disk.faults, id)
    {
      ghost var f0, h0, was, versions := disk.files, disk.history, disk.faults, VersionOnDisk(disk.files, id);
      var removed1, refused1 := UnlinkPair(BodyPath(id), MetaPath(id), id, f0, h0, versions);
      ghost var f1, mid := disk.files, disk.faults;
      var removed2, refused2 := UnlinkPair(FailedBody(id), FailedMeta(id), id, f0, h0, versions);
      removed, refused := removed1 || removed2, refused1 || refused2;
      PairsRefused(f0, f1, disk.files, was, mid, disk.faults, id);
    }
  }
}
