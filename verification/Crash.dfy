/**
 What a crash in the middle of one spool operation leaves behind. Every operation works on
 the files of a single message; the lemmas turn that into what a restart finds.
 */
module Crash {
  import opened Types
  import opened SpoolDisk

  /** A readable metadata file states the size of this body, if both are there. */
  ghost predicate SizeAgrees(files: Files, meta: Path, body: Path) {
    body in files && ReadMetaAt(files, meta).Some? ==>
      ReadMetaAt(files, meta).value.envelope.size == |OctetsAt(files, body)|
  }

  /**
   The files of one message are consistent: its body is in queue or in failed but not in
   both, and whatever metadata there is states the size of whatever body there is.
   */
  ghost predicate MessageInv(files: Files, id: QueueId) {
    && !(BodyPath(id) in files && FailedBody(id) in files)
    && SizeAgrees(files, MetaPath(id), BodyPath(id))
    && SizeAgrees(files, MetaPath(id), FailedBody(id))
    && SizeAgrees(files, FailedMeta(id), BodyPath(id))
    && SizeAgrees(files, FailedMeta(id), FailedBody(id))
  }

  ghost predicate DiskInv(files: Files) {
    forall id :: MessageInv(files, id)
  }

  /**
   now may be found on disk if an operation on message id stops early: no other message is
   touched, and if id survives then with one of the metadata versions given.
   */
  ghost predicate CrashPoint(before: Files, now: Files, id: QueueId, versions: set<Meta>) {
    && SameVisibleExcept(before, now, id)
    && MessageInv(now, id)
    && (Survives(now, id) ==> ReadMetaAt(now, MetaPath(id)).value in versions)
  }

  /** The metadata a restart would read for this message before the operation, if any. */
  ghost function VersionOnDisk(files: Files, id: QueueId): set<Meta> {
    if ReadMetaAt(files, MetaPath(id)).Some? then {ReadMetaAt(files, MetaPath(id)).value} else {}
  }

  /** Consistency of the directories survives a crash at such a point. */
  lemma CrashKeepsDiskInv(before: Files, now: Files, id: QueueId, versions: set<Meta>)
    requires DiskInv(before) && CrashPoint(before, now, id, versions)
    ensures DiskInv(now)
  {
    forall other
      ensures MessageInv(now, other)
    {
      if other != id {
        assert MessageInv(before, other);
        assert SameAt(before, now, BodyPath(other)) && SameAt(before, now, FailedBody(other));
        assert SameAt(before, now, MetaPath(other)) && SameAt(before, now, FailedMeta(other));
      }
    }
  }

  /**
   A restart after a crash finds every other message as it was, and this one either gone or
   in one of the versions the operation could have written.
   */
  lemma CrashRecovers(before: Files, now: Files, id: QueueId, versions: set<Meta>)
    requires CrashPoint(before, now, id, versions)
    ensures Recovered(now) - {id} == Recovered(before) - {id}
    ensures id in Recovered(now) <==> Survives(now, id)
    ensures id in Recovered(now) ==> Recovered(now)[id] in versions
  {
    assert SameQueueExcept(before, now, id) by {
      forall p: Path | p.dir == Queue && p.id != id
        ensures SameAt(before, now, p)
      {
      }
    }
    RecoveredExcept(before, now, id);
  }

  /** Every file state recorded since history was is such a crash point. */
  ghost predicate OpSteps(before: Files, was: seq<Files>, history: seq<Files>, id: QueueId, versions: set<Meta>) {
    && was <= history
    && (forall k :: |was| <= k < |history| ==> CrashPoint(before, history[k], id, versions))
  }

  /** Once a restart would not find the message, it would not at any state recorded later. */
  ghost predicate FadesOut(was: seq<Files>, history: seq<Files>, id: QueueId) {
    && 0 < |was| && was <= history
    && (forall j, k :: |was| - 1 <= j <= k < |history| && Survives(history[k], id) ==> Survives(history[j], id))
  }

  lemma FadesOneMore(was: seq<Files>, mid: seq<Files>, now: Files, id: QueueId)
    requires FadesOut(was, mid, id) && (Survives(now, id) ==> Survives(mid[|mid| - 1], id))
    ensures FadesOut(was, mid + [now], id)
  {
    forall j | |was| - 1 <= j < |mid| && Survives(now, id)
      ensures Survives(mid[j], id)
    {
      assert Survives(mid[|mid| - 1], id);
    }
  }

  /** A restart would have found the message at every state recorded since. */
  ghost predicate SurvivesSince(was: seq<Files>, history: seq<Files>, id: QueueId) {
    was <= history && forall k :: |was| <= k < |history| ==> Survives(history[k], id)
  }

  lemma FadesAfter(was: seq<Files>, mid: seq<Files>, history: seq<Files>, id: QueueId)
    requires 0 < |was| && Survives(was[|was| - 1], id)
    requires SurvivesSince(was, mid, id) && FadesOut(mid, history, id)
    ensures FadesOut(was, history, id)
  {
    forall j, k | |was| - 1 <= j <= k < |history| && Survives(history[k], id)
      ensures Survives(history[j], id)
    {
      if j < |mid| {
        assert history[j] == mid[j];
      }
    }
  }

  /** A deletion on its way: while a restart would still find the message, it is whole; then it is gone for good. */
  ghost predicate Deleting(before: Files, was: seq<Files>, history: seq<Files>, id: QueueId) {
    && FadesOut(was, history, id)
    && (forall k :: |was| - 1 <= k < |history| && Survives(history[k], id) ==>
          SameAt(before, history[k], BodyPath(id)) && SameAt(before, history[k], MetaPath(id)))
  }

  /** Unlinking one more of its files, or failing to, is a step of the deletion. */
  lemma DeletingOneMore(before: Files, was: seq<Files>, mid: seq<Files>, now: Files, path: Path, id: QueueId)
    requires Deleting(before, was, mid, id)
    requires now == mid[|mid| - 1] || now == mid[|mid| - 1] - {path}
    ensures Deleting(before, was, mid + [now], id)
  {
    FadesOneMore(was, mid, now, id);
  }

  lemma SameVisibleCrashPoint(before: Files, a: Files, b: Files, id: QueueId, versions: set<Meta>)
    requires CrashPoint(before, a, id, versions) && SameVisible(a, b)
    ensures CrashPoint(before, b, id, versions)
  {
    assert SameAt(a, b, BodyPath(id)) && SameAt(a, b, MetaPath(id));
    assert SameAt(a, b, FailedBody(id)) && SameAt(a, b, FailedMeta(id));
    forall p: Path | p.dir != Tmp && p.id != id
      ensures SameAt(before, b, p)
    {
      assert SameAt(before, a, p) && SameAt(a, b, p);
    }
  }

  /** A metadata write passes through the files it found and the files it meant to leave. */
  lemma MetaWriteSteps(before: Files, was: seq<Files>, mid: seq<Files>, history: seq<Files>,
                       found: Files, target: Files, id: QueueId, versions: set<Meta>)
    requires OpSteps(before, was, mid, id, versions) && mid <= history
    requires CrashPoint(before, found, id, versions) && CrashPoint(before, target, id, versions)
    requires forall k :: |mid| <= k < |history| ==> SameVisible(found, history[k]) || SameVisible(target, history[k])
    ensures OpSteps(before, was, history, id, versions)
  {
    forall k | |was| <= k < |history|
      ensures CrashPoint(before, history[k], id, versions)
    {
      if k < |mid| {
        assert history[k] == mid[k];
      } else if SameVisible(found, history[k]) {
        SameVisibleCrashPoint(before, found, history[k], id, versions);
      } else {
        SameVisibleCrashPoint(before, target, history[k], id, versions);
      }
    }
  }

  lemma OneMoreStep(before: Files, was: seq<Files>, mid: seq<Files>, now: Files, id: QueueId, versions: set<Meta>)
    requires OpSteps(before, was, mid, id, versions) && CrashPoint(before, now, id, versions)
    ensures OpSteps(before, was, mid + [now], id, versions)
  {
  }

  /** Taking away one of the message's own files never brings it back. */
  lemma UnlinkKeeps(before: Files, now: Files, path: Path, id: QueueId, versions: set<Meta>)
    requires CrashPoint(before, now, id, versions) && (path.id == id || path.dir == Tmp)
    ensures CrashPoint(before, now - {path}, id, versions)
    ensures Survives(now - {path}, id) ==> Survives(now, id)
    ensures path in {BodyPath(id), MetaPath(id)} ==> !Survives(now - {path}, id)
  {
    forall p: Path | p.dir != Tmp && p.id != id
      ensures SameAt(before, now - {path}, p)
    {
      assert SameAt(before, now, p);
    }
  }
}
