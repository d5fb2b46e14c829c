/**
 The spool directories as a map from paths to files, changed by atomic steps that may each
 fail. A crash keeps exactly one of the states the directory went through, so the class
 records them all.
 */
module SpoolDisk {
  import opened Types

  datatype Dir = Tmp | Queue | Failed
  datatype Ext = StagedFile | Eml | Json
  datatype Path = Path(dir: Dir, id: QueueId, ext: Ext)

  // A body holds octets; a metadata file decodes to Some(meta) unless it is garbled.
  datatype File = Body(octets: Octets) | MetaFile(decoded: Option<Meta>, mtime: Time)

  type Files = map<Path, File>

  // What a file operation answers: success, a missing file, or any other error.
  datatype IoError = Fine | Missing | Refused

  // What the disk would not do: work on a file, or flush a directory.
  datatype Fault = On(path: Path) | OnSync

  /** In the meantime the disk has refused to work on this file. */
  ghost predicate RefusedSince(was: seq<Fault>, now: seq<Fault>, p: Path) {
    was <= now && exists k :: |was| <= k < |now| && now[k] == On(p)
  }

  lemma RefusedLonger(a: seq<Fault>, b: seq<Fault>, c: seq<Fault>, d: seq<Fault>, p: Path)
    requires a <= b && c <= d && RefusedSince(b, c, p)
    ensures RefusedSince(a, d, p)
  {
    var k :| |b| <= k < |c| && c[k] == On(p);
    assert d[k] == On(p);
  }

  function StagedPath(id: QueueId): Path { Path(Tmp, id, StagedFile) }
  function TmpBody(id: QueueId): Path { Path(Tmp, id, Eml) }
  function TmpMeta(id: QueueId): Path { Path(Tmp, id, Json) }
  function BodyPath(id: QueueId): Path { Path(Queue, id, Eml) }
  function MetaPath(id: QueueId): Path { Path(Queue, id, Json) }
  function FailedBody(id: QueueId): Path { Path(Failed, id, Eml) }
  function FailedMeta(id: QueueId): Path { Path(Failed, id, Json) }

  lemma StillRefused(was: seq<Fault>, mid: seq<Fault>, now: seq<Fault>)
    requires was <= mid <= now
    ensures forall p :: RefusedSince(was, mid, p) || RefusedSince(mid, now, p) ==> RefusedSince(was, now, p)
  {
    forall p | RefusedSince(was, mid, p) || RefusedSince(mid, now, p)
      ensures RefusedSince(was, now, p)
    {
      if RefusedSince(was, mid, p) {
        RefusedLonger(was, was, mid, now, p);
      } else {
        RefusedLonger(was, mid, now, now, p);
      }
    }
  }

  /** readMetaAt: decode a metadata file and check that it belongs to this message. */
  function ReadMetaAt(files: Files, path: Path): Option<Meta> {
    if path in files && files[path].MetaFile? && files[path].decoded.Some?
       && files[path].decoded.value.id == path.id
    then files[path].decoded
    else None
  }

  function OctetsAt(files: Files, path: Path): Octets {
    if path in files && files[path].Body? then files[path].octets else ""
  }

  function MTimeAt(files: Files, path: Path): Time {
    if path in files && files[path].MetaFile? then files[path].mtime else 0
  }

  /** A message a restart would find: readable metadata next to a body. */
  predicate Survives(files: Files, id: QueueId) {
    BodyPath(id) in files && ReadMetaAt(files, MetaPath(id)).Some?
  }

  /** The live queue a restart would build from these files. */
  function Recovered(files: Files): map<QueueId, Meta> {
    map id | id in (set p | p in files :: p.id) && Survives(files, id) ::
      ReadMetaAt(files, MetaPath(id)).value
  }

  /** Two directories that hold the same files in queue, apart from those of one message. */
  ghost predicate SameQueueExcept(a: Files, b: Files, id: QueueId) {
    forall p: Path :: p.dir == Queue && p.id != id ==> SameAt(a, b, p)
  }

  /** Two directories that hold the same files in queue and in failed. */
  ghost predicate SameVisible(a: Files, b: Files) {
    forall p: Path :: p.dir != Tmp ==> SameAt(a, b, p)
  }

  /** Two directories that differ at most in the queue and failed files of one message. */
  ghost predicate SameVisibleExcept(a: Files, b: Files, id: QueueId) {
    forall p: Path :: p.dir != Tmp && p.id != id ==> SameAt(a, b, p)
  }

  ghost predicate SameAt(a: Files, b: Files, p: Path) {
    (p in a <==> p in b) && (p in a ==> a[p] == b[p])
  }

  /** The files of one message decide that message's entry and no other. */
  lemma RecoveredExcept(a: Files, b: Files, id: QueueId)
    requires SameQueueExcept(a, b, id)
    ensures Recovered(b) - {id} == Recovered(a) - {id}
    ensures Survives(b, id) ==>
              Recovered(b) == Recovered(a)[id := ReadMetaAt(b, MetaPath(id)).value]
    ensures !Survives(b, id) ==> Recovered(b) == Recovered(a) - {id}
  {
    forall other | other != id
      ensures Survives(a, other) == Survives(b, other)
      ensures Survives(a, other) ==> other in Recovered(a) && other in Recovered(b)
      ensures Survives(a, other) ==> Recovered(a)[other] == Recovered(b)[other]
    {
      assert SameAt(a, b, BodyPath(other)) && SameAt(a, b, MetaPath(other));
      assert Survives(a, other) ==> BodyPath(other).id == other;
    }
    assert Survives(b, id) ==> BodyPath(id) in b && BodyPath(id).id == id;
  }

  class Disk {
    var files: Files
    ghost var history: seq<Files>
    ghost var faults: seq<Fault>

    ghost predicate Valid()
      reads this
    {
      |history| > 0 && history[|history| - 1] == files
    }

    constructor (found: Files)
      ensures Valid() && files == found && history == [found] && faults == []
    {
      files := found;
      history := [found];
      faults := [];
    }

    /** removeRetry / os.Remove. */
    method Unlink(path: Path) returns (err: IoError)
      requires Valid()
      modifies this
      ensures Valid() && history == old(history) + [files]
      ensures faults == if err == Refused then old(faults) + [On(path)] else old(faults)
      ensures path in files ==> err == Refused && faults[|old(faults)|] == On(path)
      ensures err == Missing <==> path !in old(files)
      ensures err == Fine ==> files == old(files) - {path}
      ensures err != Fine ==> files == old(files)
    {
      if path !in files {
        err := Missing;
      } else {
        var done: bool := *;
        if done {
          files := files - {path};
          err := Fine;
        } else {
          err := Refused;
          faults := faults + [On(path)];
        }
      }
      history := history + [files];
    }

    /** renameRetry / os.Rename: the file moves and replaces whatever was at the target. */
    method Rename(src: Path, dst: Path) returns (err: IoError)
      requires Valid() && src != dst
      modifies this
      ensures Valid() && history == old(history) + [files]
      ensures faults == if err == Refused then old(faults) + [On(src)] else old(faults)
      ensures err == Missing <==> src !in old(files)
      ensures err == Fine ==> files == old(files)[dst := old(files)[src]] - {src}
      ensures err != Fine ==> files == old(files)
    {
      if src !in files {
        err := Missing;
      } else {
        var done: bool := *;
        if done {
          files := files[dst := files[src]] - {src};
          err := Fine;
        } else {
          err := Refused;
          faults := faults + [On(src)];
        }
      }
      history := history + [files];
    }

    /**
     writeSynced: create path, which must not exist, write and sync it. A failed write is
     cleaned up, and that clean-up may fail too and leave a partial file behind.
     */
    method WriteSynced(path: Path, content: File, partial: File) returns (err: IoError)
      requires Valid() && path.dir == Tmp
      modifies this
      ensures Valid() && err != Missing
      ensures old(faults) <= faults && (err == Fine <==> faults == old(faults))
      ensures err == Fine ==> path !in old(files) && files == old(files)[path := content]
      ensures forall p :: p != path ==> SameAt(old(files), files, p)
      ensures old(history) <= history
      ensures forall k :: |old(history)| <= k < |history| ==> SameVisible(old(files), history[k])
    {
      if path in files {
        faults := faults + [On(path)];
        return Refused;
      }
      files := files[path := partial];
      history := history + [files];
      var done: bool := *;
      if done {
        files := files[path := content];
        history := history + [files];
        err := Fine;
      } else {
        faults := faults + [On(path)];
        var cleanup := Unlink(path);
        err := Refused;
      }
    }

    /** syncDir: no visible effect, but it can report an error. */
    method SyncDir() returns (err: IoError)
      modifies this`faults
      ensures err != Missing
      ensures faults == if err == Fine then old(faults) else old(faults) + [OnSync]
    {
      var done: bool := *;
      err := if done then Fine else Refused;
      faults := if done then faults else faults + [OnSync];
    }
  }
}
