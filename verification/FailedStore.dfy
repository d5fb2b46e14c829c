/** The mirror of spool/failed: what each message kept there costs and when it landed. */
module FailedMirror {
  import opened Types
  import opened Totals
  import opened SpoolDisk

  datatype FailedEntry = FailedEntry(size: int, at: Time)

  function EntrySizes(index: map<QueueId, FailedEntry>): map<QueueId, int> {
    map id | id in index :: index[id].size
  }

  /** What a restart reads out of spool/failed: one entry per metadata file found there. */
  function Reindexed(files: Files): map<QueueId, FailedEntry> {
    map id | id in (set p | p in files :: p.id) && FailedMeta(id) in files ::
      EntryAt(files, id)
  }

  function EntryAt(files: Files, id: QueueId): FailedEntry
    requires FailedMeta(id) in files
  {
    FailedEntry(|OctetsAt(files, FailedBody(id))|, MTimeAt(files, FailedMeta(id)))
  }

  ghost predicate Expired(e: FailedEntry, ttl: Time, now: Time) {
    now - e.at > ttl
  }

  ghost predicate FilesGone(files: Files, id: QueueId) {
    FailedMeta(id) !in files && FailedBody(id) !in files
  }

  /** Entries may have left; none changed or appeared. */
  ghost predicate OnlyDropped(before: map<QueueId, FailedEntry>, now: map<QueueId, FailedEntry>) {
    now.Keys <= before.Keys && forall id :: id in now ==> now[id] == before[id]
  }

  ghost function ExpiredIds(index: map<QueueId, FailedEntry>, ttl: Time, now: Time): set<QueueId> {
    if ttl <= 0 then {} else set id | id in index && Expired(index[id], ttl, now)
  }

  /** Of the files kept in failed for these messages some may have gone; nothing else differs. */
  ghost predicate SweptOnly(before: Files, now: Files, ids: set<QueueId>) {
    forall p: Path ::
      if p.dir == Failed && p.ext != StagedFile && p.id in ids
      then p in now ==> p in before && now[p] == before[p]
      else SameAt(before, now, p)
  }

  /** Every file state recorded since history was is such a sweep of before. */
  ghost predicate SweepSteps(before: Files, was: seq<Files>, history: seq<Files>, ids: set<QueueId>) {
    && was <= history
    && (forall k :: |was| <= k < |history| ==> SweptOnly(before, history[k], ids))
  }

  /** The disk would not unlink what is left of a message in failed. */
  ghost predicate LeftInFailed(files: Files, was: seq<Fault>, now: seq<Fault>, id: QueueId) {
    && (FailedMeta(id) in files ==> RefusedSince(was, now, FailedMeta(id)))
    && (FailedBody(id) in files ==> RefusedSince(was, now, FailedBody(id)))
  }

  /** What the sweep has made of the messages it has gone through. */
  ghost predicate SweptSoFar(done: set<QueueId>, before: map<QueueId, FailedEntry>, now: map<QueueId, FailedEntry>,
                             files: Files, was: seq<Fault>, faults: seq<Fault>)
  {
    && OnlyDropped(before, now) && was <= faults
    && (forall id :: id in before && id !in now ==> id in done && FilesGone(files, id))
    && (forall id :: id in done && id in now ==> !FilesGone(files, id) && LeftInFailed(files, was, faults, id))
  }

  /** A sweep takes only what has outstayed its retention, and all of it unless the disk refuses. */
  lemma OnlyOutstayed(before: map<QueueId, FailedEntry>, left: map<QueueId, FailedEntry>, ttl: Time, now: Time,
                      files: Files, was: seq<Fault>, faults: seq<Fault>)
    requires SweptSoFar(ExpiredIds(before, ttl, now), before, left, files, was, faults)
    ensures forall id :: id in before && id !in left ==> 0 < ttl < now - before[id].at
    ensures faults == was ==> forall id :: id in left ==> ttl <= 0 || now - left[id].at <= ttl
  {
  }

  lemma LeftInFailedLater(files: Files, files': Files, was: seq<Fault>, faults: seq<Fault>, faults': seq<Fault>, id: QueueId)
    requires LeftInFailed(files, was, faults, id) && was <= faults <= faults'
    requires SameAt(files, files', FailedMeta(id)) && SameAt(files, files', FailedBody(id))
    ensures LeftInFailed(files', was, faults', id)
  {
    if FailedMeta(id) in files {
      RefusedLonger(was, was, faults, faults', FailedMeta(id));
    }
    if FailedBody(id) in files {
      RefusedLonger(was, was, faults, faults', FailedBody(id));
    }
  }

  /** Unlinking the two files of one more message, or failing to. */
  lemma OneMoreSwept(done: set<QueueId>, id: QueueId, before: map<QueueId, FailedEntry>, mid: map<QueueId, FailedEntry>,
                     now: map<QueueId, FailedEntry>, files: Files, files': Files, was: seq<Fault>, faults: seq<Fault>,
                     faults': seq<Fault>)
    requires SweptSoFar(done, before, mid, files, was, faults) && id in mid && id !in done
    requires SweptOnly(files, files', {id}) && faults <= faults' && LeftInFailed(files', faults, faults', id)
    requires now == if FilesGone(files', id) then mid - {id} else mid
    ensures SweptSoFar(done + {id}, before, now, files', was, faults')
  {
    if FailedMeta(id) in files' {
      RefusedLonger(was, faults, faults', faults', FailedMeta(id));
    }
    if FailedBody(id) in files' {
      RefusedLonger(was, faults, faults', faults', FailedBody(id));
    }
    forall other | other != id
      ensures FilesGone(files, other) <==> FilesGone(files', other)
      ensures other in done && other in now ==> LeftInFailed(files', was, faults', other)
    {
      assert SameAt(files, files', FailedMeta(other)) && SameAt(files, files', FailedBody(other));
      if other in done && other in now {
        LeftInFailedLater(files, files', was, faults, faults', other);
      }
    }
  }

  lemma SweptFurther(before: Files, files: Files, files': Files, id: QueueId, ids: set<QueueId>)
    requires SweptOnly(before, files, ids) && id in ids && SweptOnly(files, files', {id})
    ensures SweptOnly(before, files', ids)
  {
    forall p: Path
      ensures if p.dir == Failed && p.ext != StagedFile && p.id in ids
              then p in files' ==> p in before && files'[p] == before[p]
              else SameAt(before, files', p)
    {
      assert p.id != id ==> SameAt(files, files', p);
    }
  }

  lemma SweepStepsFurther(before: Files, files: Files, was: seq<Files>, mid: seq<Files>, history: seq<Files>,
                          id: QueueId, ids: set<QueueId>)
    requires SweptOnly(before, files, ids) && id in ids
    requires SweepSteps(before, was, mid, ids) && SweepSteps(files, mid, history, {id})
    ensures SweepSteps(before, was, history, ids)
  {
    forall k | |was| <= k < |history|
      ensures SweptOnly(before, history[k], ids)
    {
      if k < |mid| {
        assert history[k] == mid[k];
      } else {
        SweptFurther(before, files, history[k], id, ids);
      }
    }
  }

  class FailedStore {
    var index: map<QueueId, FailedEntry>
    var bytes: int
    var ttl: Time

    ghost predicate Valid()
      reads this
    {
      bytes == Total(EntrySizes(index))
    }

    constructor (retention: Time)
      ensures Valid() && index == map[] && ttl == retention
    {
      index := map[];
      bytes := 0;
      ttl := retention;
    }

    method Put(id: QueueId, e: FailedEntry)
      requires Valid()
      modifies this`index, this`bytes
      ensures Valid() && index == old(index)[id := e]
      ensures bytes == old(bytes) + e.size - (if id in old(index) then old(index)[id].size else 0)
    {
      TotalPut(EntrySizes(index), id, e.size);
      if id in index {
        bytes := bytes - index[id].size;
      }
      index := index[id := e];
      bytes := bytes + e.size;
      assert EntrySizes(index) == EntrySizes(old(index))[id := e.size];
    }

    method Drop(id: QueueId) returns (dropped: Option<FailedEntry>)
      requires Valid()
      modifies this`index, this`bytes
      ensures Valid() && index == old(index) - {id}
      ensures dropped == if id in old(index) then Some(old(index)[id]) else None
      ensures bytes == old(bytes) - (if dropped.Some? then dropped.value.size else 0)
    {
      TotalDrop(EntrySizes(index), id);
      dropped := None;
      if id in index {
        dropped := Some(index[id]);
        bytes := bytes - index[id].size;
        index := index - {id};
      }
      assert index == old(index) - {id};
      assert EntrySizes(index) == EntrySizes(old(index)) - {id};
    }

    /** Account for what already sits in spool/failed; nothing is removed or repaired. */
    method Reindex(disk: Disk)
      requires Valid() && index == map[]
      modifies this`index, this`bytes
      ensures Valid() && index == Reindexed(disk.files)
    {
      var files := disk.files;
      var todo := set p | p in files && p.dir == Failed && p.ext == Json;
      ghost var all := todo;
      while todo != {}
        invariant Valid() && todo <= all
        invariant forall id :: id in index <==> FailedMeta(id) in all - todo
        invariant forall id :: id in index ==> index[id] == EntryAt(files, id)
        decreases |todo|
      {
        var p :| p in todo;
        assert p == FailedMeta(p.id);
        Put(p.id, EntryAt(files, p.id));
        todo := todo - {p};
      }
      forall id
        ensures id in index <==> id in Reindexed(files)
      {
        assert FailedMeta(id).id == id;
      }
    }

    method UnlinkOne(disk: Disk, path: Path, id: QueueId, ghost f0: Files, ghost h0: seq<Files>) returns (err: IoError)
      requires disk.Valid() && path in {FailedMeta(id), FailedBody(id)}
      requires SweptOnly(f0, disk.files, {id}) && SweepSteps(f0, h0, disk.history, {id})
      modifies disk
      ensures disk.Valid()
      ensures SweptOnly(f0, disk.files, {id}) && SweepSteps(f0, h0, disk.history, {id})
      ensures err == Refused <==> path in disk.files
      ensures old(disk.faults) <= disk.faults && (err == Refused ==> RefusedSince(old(disk.faults), disk.faults, path))
      ensures forall p :: p != path ==> SameAt(old(disk.files), disk.files, p)
    {
      err := disk.Unlink(path);
      assert SweptOnly(f0, disk.files, {id});
      assert err == Refused ==> disk.faults[|old(disk.faults)|] == On(path);
    }

    method UnlinkBoth(disk: Disk, id: QueueId) returns (gone: bool)
      requires disk.Valid()
      modifies disk
      ensures disk.Valid()
      ensures SweptOnly(old(disk.files), disk.files, {id})
      ensures SweepSteps(old(disk.files), old(disk.history), disk.history, {id})
      ensures old(disk.faults) <= disk.faults && LeftInFailed(disk.files, old(disk.faults), disk.faults, id)
      ensures gone <==> FilesGone(disk.files, id)
    {
      ghost var f0, h0, was := disk.files, disk.history, disk.faults;
      var metaErr := UnlinkOne(disk, FailedMeta(id), id, f0, h0);
      ghost var mid, faults := disk.files, disk.faults;
      var bodyErr := UnlinkOne(disk, FailedBody(id), id, f0, h0);
      gone := metaErr != Refused && bodyErr != Refused;
      assert SameAt(mid, disk.files, FailedMeta(id));
      if metaErr == Refused {
        RefusedLonger(was, was, faults, disk.faults, FailedMeta(id));
      }
      if bodyErr == Refused {
        RefusedLonger(was, faults, disk.faults, disk.faults, FailedBody(id));
      }
    }

    /** Unlink both files of one message; it leaves the index only when neither is left. */
    method SweepOne(disk: Disk, id: QueueId) returns (freed: Option<int>)
      requires Valid() && disk.Valid() && id in index
      modifies this`index, this`bytes, disk
      ensures Valid() && disk.Valid()
      ensures SweptOnly(old(disk.files), disk.files, {id})
      ensures SweepSteps(old(disk.files), old(disk.history), disk.history, {id})
      ensures old(disk.faults) <= disk.faults && LeftInFailed(disk.files, old(disk.faults), disk.faults, id)
      ensures freed.Some? <==> FilesGone(disk.files, id)
      ensures index == if freed.Some? then old(index) - {id} else old(index)
      ensures freed.Some? ==> freed.value == old(index)[id].size && |index| + 1 == |old(index)|
      ensures bytes == old(bytes) - (if freed.Some? then freed.value else 0)
    {
      freed := None;
      var gone := UnlinkBoth(disk, id);
      if gone {
        var dropped := Drop(id);
        assert old(index).Keys == index.Keys + {id};
        freed := Some(dropped.value.size);
      }
    }

    /** One expired message of a sweep, the others of which are done or still to come. */
    method SweepNext(disk: Disk, id: QueueId, ghost all: set<QueueId>, ghost done: set<QueueId>, ghost f0: Files,
                     ghost h0: seq<Files>, ghost before: map<QueueId, FailedEntry>, ghost was: seq<Fault>)
        returns (freed: Option<int>)
      requires Valid() && disk.Valid() && id in index && id in all && id !in done
      requires SweptOnly(f0, disk.files, all) && SweepSteps(f0, h0, disk.history, all)
      requires SweptSoFar(done, before, index, disk.files, was, disk.faults)
      modifies this`index, this`bytes, disk
      ensures Valid() && disk.Valid()
      ensures SweptOnly(f0, disk.files, all) && SweepSteps(f0, h0, disk.history, all)
      ensures SweptSoFar(done + {id}, before, index, disk.files, was, disk.faults)
      ensures index == if freed.Some? then old(index) - {id} else old(index)
      ensures |index| == |old(index)| - (if freed.Some? then 1 else 0)
      ensures bytes == old(bytes) - (if freed.Some? then freed.value else 0)
    {
      ghost var files, mid, entries, faults := disk.files, disk.history, index, disk.faults;
      freed := SweepOne(disk, id);
      SweptFurther(f0, files, disk.files, id, all);
      SweepStepsFurther(f0, files, h0, mid, disk.history, id, all);
      OneMoreSwept(done, id, before, entries, index, files, disk.files, was, faults, disk.faults);
    }

    /**
     Delete what has outstayed its retention. A message whose files cannot both be unlinked
     stays in the index, so the bytes reported as freed are the bytes the total lost, and no
     file of a message that has not expired is touched.
     */
    method Sweep(disk: Disk, now: Time) returns (removed: nat, freed: int)
      requires Valid() && disk.Valid()
      modifies this`index, this`bytes, disk
      ensures Valid() && disk.Valid()
      ensures freed == old(bytes) - bytes && removed == |old(index)| - |index|
      ensures SweptOnly(old(disk.files), disk.files, ExpiredIds(old(index), ttl, now))
      ensures SweepSteps(old(disk.files), old(disk.history), disk.history, ExpiredIds(old(index), ttl, now))
      ensures SweptSoFar(ExpiredIds(old(index), ttl, now), old(index), index, disk.files, old(disk.faults), disk.faults)
    {
      removed, freed := 0, 0;
      if ttl <= 0 {
        return;
      }
      var expired := set id | id in index && now - index[id].at > ttl;
      assert expired == ExpiredIds(index, ttl, now);
      removed, freed := SweepAll(disk, expired);
      if removed > 0 {
        FlushFailed(disk, expired, old(index), old(disk.faults));
      }
    }

    method SweepAll(disk: Disk, expired: set<QueueId>) returns (removed: nat, freed: int)
      requires Valid() && disk.Valid() && expired <= index.Keys
      modifies this`index, this`bytes, disk
      ensures Valid() && disk.Valid()
      ensures freed == old(bytes) - bytes && removed == |old(index)| - |index|
      ensures SweptOnly(old(disk.files), disk.files, expired)
      ensures SweepSteps(old(disk.files), old(disk.history), disk.history, expired)
      ensures SweptSoFar(expired, old(index), index, disk.files, old(disk.faults), disk.faults)
    {
      removed, freed := 0, 0;
      var todo := expired;
      ghost var done := {};
      ghost var f0, h0, before, was := disk.files, disk.history, index, disk.faults;
      while todo != {}
        invariant Valid() && disk.Valid()
        invariant todo !! done && todo + done == expired
        invariant forall id :: id in todo ==> id in index
        invariant freed == old(bytes) - bytes && removed + |index| == |before|
        invariant SweptOnly(f0, disk.files, expired) && SweepSteps(f0, h0, disk.history, expired)
        invariant SweptSoFar(done, before, index, disk.files, was, disk.faults)
        decreases |todo|
      {
        var id :| id in todo;
        var freedHere := SweepNext(disk, id, expired, done, f0, h0, before, was);
        if freedHere.Some? {
          removed := removed + 1;
          freed := freed + freedHere.value;
        }
        todo, done := todo - {id}, done + {id};
      }
      assert done == expired;
    }

    /** The directory is flushed, and an error is not looked at. */
    method FlushFailed(disk: Disk, ghost done: set<QueueId>, ghost before: map<QueueId, FailedEntry>, ghost was: seq<Fault>)
      requires SweptSoFar(done, before, index, disk.files, was, disk.faults)
      modifies disk`faults
      ensures SweptSoFar(done, before, index, disk.files, was, disk.faults)
    {
      ghost var faults := disk.faults;
      var ignored := disk.SyncDir();
      forall id | id in done && id in index
        ensures LeftInFailed(disk.files, was, disk.faults, id)
      {
        LeftInFailedLater(disk.files, disk.files, was, faults, disk.faults, id);
      }
    }
  }
}
