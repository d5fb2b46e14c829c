/**
 The durable queue as a value: what its index promises about the files, and what each
 operation does to the state that the other actors of a run depend on.
 */
module SpoolState {
  import opened Types
  import opened SpoolDisk
  import opened Crash
  import opened FailedMirror
  import opened NewestFirstHeap
  import opened Batch

  datatype SpoolError = ErrQuotaExceeded | ErrNotFound | ErrBusy | ErrTooLarge | ErrIo

  // A body staged once for all the copies of a message.
  datatype Staged = Staged(id: QueueId, size: int)

  // Release floors the next attempt by this much when it could not write the metadata.
  const RELEASE_RETRY_DELAY: Time := MINUTE

  function Sizes(index: map<QueueId, Meta>): map<QueueId, int> {
    map id | id in index :: index[id].envelope.size
  }

  /** The metadata written by a requeue: a fresh retry budget, due at once. */
  function Requeued(m: Meta, now: Time): Meta {
    m.(attempts := 0, nextAttempt := now, lastError := "")
  }

  /** A holder's private copy of an indexed message: only the retry state may differ. */
  ghost predicate CopyOf(m: Meta, index: map<QueueId, Meta>) {
    && m.id in index
    && m.envelope == index[m.id].envelope
    && m.expires == index[m.id].expires
  }

  /** The metadata of a message the moment it is accepted. */
  function NewMeta(id: QueueId, env: Envelope, size: int, now: Time, lifetime: Time): Meta {
    Meta(id, env.(size := size), 0, "", now, now + lifetime)
  }

  function WithMeta(files: Files, m: Meta, now: Time): Files {
    files[MetaPath(m.id) := MetaFile(Some(m), now)]
  }

  /** A freshly drawn queue id names no file yet. */
  ghost predicate Unused(files: Files, id: QueueId) {
    forall p: Path :: p.id == id ==> p !in files
  }

  /** Whatever is left of the message, the disk has refused to unlink or move. */
  ghost predicate LeftRefused(files: Files, was: seq<Fault>, now: seq<Fault>, id: QueueId) {
    && (BodyPath(id) in files ==> RefusedSince(was, now, BodyPath(id)))
    && (MetaPath(id) in files ==> RefusedSince(was, now, MetaPath(id)))
    && (FailedBody(id) in files ==> RefusedSince(was, now, FailedBody(id)))
    && (FailedMeta(id) in files ==> RefusedSince(was, now, FailedMeta(id)))
  }

  /** That stays so while nobody touches the message, however the disk goes on. */
  lemma LeftRefusedLater(files: Files, files': Files, r0: seq<Fault>, was: seq<Fault>, now: seq<Fault>, later: seq<Fault>,
                         id: QueueId)
    requires LeftRefused(files, was, now, id) && r0 <= was <= now <= later
    requires SameAt(files, files', BodyPath(id)) && SameAt(files, files', MetaPath(id))
    requires SameAt(files, files', FailedBody(id)) && SameAt(files, files', FailedMeta(id))
    ensures LeftRefused(files', r0, later, id)
  {
    forall p | p in files && RefusedSince(was, now, p)
      ensures RefusedSince(r0, later, p)
    {
      RefusedLonger(r0, was, now, later, p);
    }
  }

  /** Refused after the metadata was written is refused since the whole operation began. */
  lemma AsideAfterRewrite(h0: seq<Files>, mid: seq<Files>, history: seq<Files>, was: seq<Fault>, faults: seq<Fault>,
                          now: seq<Fault>, files: Files, id: QueueId)
    requires 0 < |h0| && (Survives(h0[|h0| - 1], id) ==> SurvivesSince(h0, mid, id)) && FadesOut(mid, history, id)
    requires was <= faults <= now && (Survives(files, id) ==> PairRefused(faults, now, id))
    ensures Survives(h0[|h0| - 1], id) ==> FadesOut(h0, history, id)
    ensures Survives(files, id) ==> PairRefused(was, now, id)
  {
    if Survives(h0[|h0| - 1], id) {
      FadesAfter(h0, mid, history, id);
    }
    if Survives(files, id) {
      RefusedLonger(was, faults, now, now, BodyPath(id));
      RefusedLonger(was, faults, now, now, MetaPath(id));
    }
  }

  /** The two unlinks in queue and the two in failed, taken together. */
  lemma PairsRefused(f0: Files, f1: Files, f2: Files, was: seq<Fault>, mid: seq<Fault>, now: seq<Fault>, id: QueueId)
    requires was <= mid <= now
    requires forall p :: p != BodyPath(id) && p != MetaPath(id) ==> SameAt(f0, f1, p)
    requires forall p :: p != FailedBody(id) && p != FailedMeta(id) ==> SameAt(f1, f2, p)
    requires forall p :: p in f1 ==> p in f0 && f1[p] == f0[p]
    requires forall p :: p in f2 ==> p in f1 && f2[p] == f1[p]
    requires forall p :: p in {BodyPath(id), MetaPath(id)} && p in f1 ==> RefusedSince(was, mid, p)
    requires forall p :: p in {FailedBody(id), FailedMeta(id)} && p in f2 ==> RefusedSince(mid, now, p)
    ensures LeftRefused(f2, was, now, id) && OnlyShrinks(f0, f2, id)
    ensures Erased(f2, id) <==> !(BodyPath(id) in f1 || MetaPath(id) in f1 || FailedBody(id) in f2 || FailedMeta(id) in f2)
    ensures Erased(f2, id) ==> (f1 != f0 || f2 != f1 <==> !Erased(f0, id))
  {
    assert SameAt(f1, f2, BodyPath(id)) && SameAt(f1, f2, MetaPath(id));
    assert SameAt(f0, f1, FailedBody(id)) && SameAt(f0, f1, FailedMeta(id));
    if Erased(f0, id) && Erased(f2, id) {
      forall p
        ensures (p in f0 <==> p in f1) && (p in f1 <==> p in f2)
      {
        assert p in f1 ==> p in f0;
        assert p != BodyPath(id) && p != MetaPath(id) ==> SameAt(f0, f1, p);
        assert p != FailedBody(id) && p != FailedMeta(id) ==> SameAt(f1, f2, p);
      }
      assert f1 == f0 && f2 == f1;
    }
    forall p | (RefusedSince(was, mid, p) || RefusedSince(mid, now, p))
      ensures RefusedSince(was, now, p)
    {
      if RefusedSince(was, mid, p) {
        RefusedLonger(was, was, mid, now, p);
      } else {
        RefusedLonger(was, mid, now, now, p);
      }
    }
    forall p: Path | p.id != id
      ensures SameAt(f0, f2, p)
    {
      assert SameAt(f0, f1, p) && SameAt(f1, f2, p);
    }
  }

  /** Both files a restart would find the message by, the disk has refused to unlink or move. */
  ghost predicate PairRefused(was: seq<Fault>, now: seq<Fault>, id: QueueId) {
    RefusedSince(was, now, BodyPath(id)) && RefusedSince(was, now, MetaPath(id))
  }

  /** A copy renamed into queue is inert until its metadata follows. */
  lemma CopyArrives(before: Files, now: Files, m: Meta, octets: Octets, at: Time)
    requires Unused(before, m.id) && SameVisible(before, now)
    requires TmpBody(m.id) in now && now[TmpBody(m.id)] == Body(octets)
    requires m.envelope.size == |octets|
    ensures var arrived := now[BodyPath(m.id) := now[TmpBody(m.id)]] - {TmpBody(m.id)};
            && CrashPoint(before, arrived, m.id, {m})
            && !Survives(arrived, m.id)
            && CrashPoint(before, WithMeta(arrived, m, at), m.id, {m})
            && Survives(WithMeta(arrived, m, at), m.id)
  {
    assert SameAt(before, now, MetaPath(m.id)) && SameAt(before, now, FailedMeta(m.id));
    assert SameAt(before, now, BodyPath(m.id)) && SameAt(before, now, FailedBody(m.id));
  }

  /**
   What an index entry promises about the disk: the size it charges is the size of the body,
   the message has no body in failed, and unless somebody has begun to delete it the message would survive a restart.
   */
  ghost predicate EntryInv(id: QueueId, m: Meta, deleting: bool, files: Files) {
    && m.id == id
    && (BodyPath(id) in files ==> m.envelope.size == |OctetsAt(files, BodyPath(id))|)
    && FailedBody(id) !in files
    && (!deleting ==>
          && Survives(files, id)
          && ReadMetaAt(files, MetaPath(id)).value.envelope == m.envelope
          && ReadMetaAt(files, MetaPath(id)).value.expires == m.expires)
  }

  ghost predicate IndexInv(index: map<QueueId, Meta>, ended: set<QueueId>, files: Files) {
    && DiskInv(files)
    && (forall id :: id in index ==> EntryInv(id, index[id], id in ended, files))
  }

  /** The mirror of spool/failed charges what the body there occupies. */
  ghost predicate MirrorInv(mirror: map<QueueId, FailedEntry>, files: Files) {
    forall id :: id in mirror && FailedBody(id) in files ==>
                   mirror[id].size == |OctetsAt(files, FailedBody(id))|
  }

  lemma MirrorInvExcept(mirror: map<QueueId, FailedEntry>, before: Files, now: Files, id: QueueId)
    requires MirrorInv(mirror, before) && SameVisibleExcept(before, now, id)
    requires id in mirror && FailedBody(id) in now ==> mirror[id].size == |OctetsAt(now, FailedBody(id))|
    ensures MirrorInv(mirror, now)
  {
    forall other | other in mirror && other != id && FailedBody(other) in now
      ensures mirror[other].size == |OctetsAt(now, FailedBody(other))|
    {
      assert SameAt(before, now, FailedBody(other));
    }
  }

  lemma MirrorInvSame(mirror: map<QueueId, FailedEntry>, before: Files, now: Files)
    requires MirrorInv(mirror, before) && SameVisible(before, now)
    ensures MirrorInv(mirror, now)
  {
    forall id
      ensures SameAt(before, now, FailedBody(id))
    {
    }
  }

  lemma OnlyInTmp(before: Files, now: Files, path: Path)
    requires path.dir == Tmp && forall p :: p != path ==> SameAt(before, now, p)
    ensures SameVisible(before, now) && OthersUntouched(before, now, path.id)
  {
  }

  /** Work on the files of one message leaves the promise about all others intact. */
  lemma IndexInvExcept(index: map<QueueId, Meta>, ended: set<QueueId>, before: Files, now: Files, id: QueueId)
    requires IndexInv(index, ended, before)
    requires SameVisibleExcept(before, now, id) && MessageInv(now, id)
    ensures IndexInv(index - {id}, ended, now)
  {
    CrashKeepsDiskInv(before, now, id, VersionOnDisk(now, id));
    forall other | other in index && other != id
      ensures EntryInv(other, index[other], other in ended, now)
    {
      assert EntryInv(other, index[other], other in ended, before);
      assert SameAt(before, now, BodyPath(other)) && SameAt(before, now, MetaPath(other));
      assert SameAt(before, now, FailedBody(other));
    }
  }

  /**
   Stop any operation on one message after any file step and restart: every other acknowledged
   message nobody has begun to delete is in the queue again, under its own envelope and expiry,
   and the directories are consistent enough to be opened.
   */
  lemma AcknowledgedSurvives(index: map<QueueId, Meta>, ended: set<QueueId>, before: Files, now: Files,
                             id: QueueId, versions: set<Meta>)
    requires IndexInv(index, ended, before) && CrashPoint(before, now, id, versions)
    ensures DiskInv(now)
    ensures forall other :: other in index && other !in ended && other != id ==>
                              && other in Recovered(now)
                              && Recovered(now)[other].envelope == index[other].envelope
                              && Recovered(now)[other].expires == index[other].expires
  {
    CrashKeepsDiskInv(before, now, id, versions);
    CrashRecovers(before, now, id, versions);
    forall other | other in index && other !in ended && other != id
      ensures other in Recovered(now) && Recovered(now)[other].envelope == index[other].envelope
      ensures Recovered(now)[other].expires == index[other].expires
    {
      assert EntryInv(other, index[other], false, before);
      assert BodyPath(other) in before && BodyPath(other).id == other;
      assert Recovered(before) - {id} == Recovered(now) - {id} && other in Recovered(before) - {id};
      assert Recovered(now)[other] == (Recovered(now) - {id})[other] == (Recovered(before) - {id})[other];
    }
  }

  /** Indexing a message is right once its files back the entry. */
  lemma IndexInvPut(index: map<QueueId, Meta>, ended: set<QueueId>, before: Files, now: Files, m: Meta)
    requires IndexInv(index, ended, before)
    requires SameVisibleExcept(before, now, m.id) && MessageInv(now, m.id)
    requires EntryInv(m.id, m, m.id in ended, now)
    ensures IndexInv(index[m.id := m], ended, now)
  {
    IndexInvExcept(index, ended, before, now, m.id);
    forall id | id in index[m.id := m]
      ensures EntryInv(id, index[m.id := m][id], id in ended, now)
    {
      if id != m.id {
        assert id in index - {m.id};
      }
    }
  }

  lemma IndexInvSame(index: map<QueueId, Meta>, ended: set<QueueId>, before: Files, now: Files)
    requires IndexInv(index, ended, before) && SameVisible(before, now)
    ensures IndexInv(index, ended, now)
  {
    forall id
      ensures MessageInv(now, id)
      ensures id in index ==> EntryInv(id, index[id], id in ended, now)
    {
      assert MessageInv(before, id);
      assert id in index ==> EntryInv(id, index[id], id in ended, before);
      assert SameAt(before, now, BodyPath(id)) && SameAt(before, now, MetaPath(id));
      assert SameAt(before, now, FailedBody(id)) && SameAt(before, now, FailedMeta(id));
    }
  }

  lemma CommitDone(index: map<QueueId, Meta>, ended: set<QueueId>, before: Files, now: Files, m: Meta)
    requires IndexInv(index, ended, before) && m.id !in index
    requires CrashPoint(before, now, m.id, {m}) && Survives(now, m.id)
    ensures IndexInv(index[m.id := m], ended, now)
    ensures Recovered(now) == Recovered(before)[m.id := m]
  {
    CrashRecovers(before, now, m.id, {m});
    IndexInvPut(index, ended, before, now, m);
    assert Recovered(now) == (Recovered(now) - {m.id})[m.id := m];
  }

  /** Rewriting an indexed message's metadata never takes the message off the disk. */
  lemma MetaRewritten(index: map<QueueId, Meta>, ended: set<QueueId>, files: Files, m: Meta, now: Time)
    requires IndexInv(index, ended, files) && CopyOf(m, index)
    ensures CrashPoint(files, files, m.id, VersionOnDisk(files, m.id) + {m})
    ensures CrashPoint(files, WithMeta(files, m, now), m.id, VersionOnDisk(files, m.id) + {m})
    ensures Survives(files, m.id) ==> Survives(WithMeta(files, m, now), m.id)
  {
    assert EntryInv(m.id, index[m.id], m.id in ended, files);
    assert MessageInv(files, m.id);
  }

  /** After that rewrite, or a failed one, the index may hold the new retry state. */
  lemma StillBacked(index: map<QueueId, Meta>, ended: set<QueueId>, before: Files, now: Files,
                    m: Meta, c: Meta, at: Time, written: bool)
    requires IndexInv(index, ended, before) && CopyOf(m, index)
    requires c.id == m.id && c.envelope == m.envelope && c.expires == m.expires
    requires SameVisible(if written then WithMeta(before, m, at) else before, now)
    ensures IndexInv(index[m.id := c], ended, now)
  {
    var target := if written then WithMeta(before, m, at) else before;
    var id := m.id;
    assert EntryInv(id, index[id], id in ended, before);
    MetaRewritten(index, ended, before, m, at);
    SameVisibleCrashPoint(before, target, now, id, VersionOnDisk(before, id) + {m});
    assert SameAt(target, now, BodyPath(id)) && SameAt(target, now, MetaPath(id));
    assert SameAt(target, now, FailedBody(id));
    IndexInvPut(index, ended, before, now, c);
  }

  /** A move of one of the message's two files from queue to failed or back. */
  ghost predicate AsideOrBack(src: Path, dst: Path, id: QueueId) {
    || (src == MetaPath(id) && dst == FailedMeta(id))
    || (src == BodyPath(id) && dst == FailedBody(id))
    || (src == FailedBody(id) && dst == BodyPath(id))
  }

  /** The message's files have left queue, and the body is kept in failed with its metadata. */
  ghost predicate SetAside(before: Files, now: Files, id: QueueId) {
    && BodyPath(id) !in now && MetaPath(id) !in now
    && (MetaPath(id) in before ==> FailedMeta(id) in now)
    && (BodyPath(id) in before ==>
          FailedBody(id) in now && OctetsAt(now, FailedBody(id)) == OctetsAt(before, BodyPath(id)))
  }

  lemma MovingKeeps(before: Files, now: Files, src: Path, dst: Path, id: QueueId, versions: set<Meta>)
    requires CrashPoint(before, now, id, versions) && AsideOrBack(src, dst, id) && src in now
    requires src == FailedBody(id) && MetaPath(id) in now ==> VersionOnDisk(now, id) <= versions
    ensures CrashPoint(before, now[dst := now[src]] - {src}, id, versions)
    ensures src.dir == Queue ==> !Survives(now[dst := now[src]] - {src}, id)
  {
    var moved := now[dst := now[src]] - {src};
    forall p: Path | p.dir != Tmp && p.id != id
      ensures SameAt(before, moved, p)
    {
      assert SameAt(before, now, p);
    }
  }

  lemma RewriteFrame(before: Files, now: Files, m: Meta, at: Time, written: bool)
    requires SameVisible(if written then WithMeta(before, m, at) else before, now)
    ensures SameAt(before, now, BodyPath(m.id)) && SameAt(before, now, FailedBody(m.id))
    ensures MetaPath(m.id) in before ==> MetaPath(m.id) in now
  {
    var target := if written then WithMeta(before, m, at) else before;
    assert SameAt(target, now, BodyPath(m.id)) && SameAt(target, now, FailedBody(m.id));
    assert SameAt(target, now, MetaPath(m.id));
  }

  /**
   A requeue from failed loses nothing on the way: the body is in failed or in queue, whole, and
   the metadata is in failed as it was, or rewritten in queue beside that body.
   */
  ghost predicate NothingLost(before: Files, now: Files, m: Meta) {
    && (FailedBody(m.id) in before ==>
          || (FailedBody(m.id) in now && now[FailedBody(m.id)] == before[FailedBody(m.id)])
          || (BodyPath(m.id) in now && now[BodyPath(m.id)] == before[FailedBody(m.id)]))
    && (|| SameAt(before, now, FailedMeta(m.id))
        || (BodyPath(m.id) in now && ReadMetaAt(now, MetaPath(m.id)) == Some(m)))
  }

  ghost predicate NothingLostSince(before: Files, was: seq<Files>, history: seq<Files>, m: Meta) {
    was <= history && forall k :: |was| <= k < |history| ==> NothingLost(before, history[k], m)
  }

  /** The body is back in queue and the metadata still in failed; the metadata is written beside the body. */
  lemma MetaWriteLosesNothing(before: Files, found: Files, was: seq<Files>, mid: seq<Files>, history: seq<Files>, m: Meta, at: Time)
    requires NothingLostSince(before, was, mid, m) && mid <= history && BodyIsBack(before, found, m.id)
    requires forall k :: |mid| <= k < |history| ==>
                           SameVisible(found, history[k]) || SameVisible(WithMeta(found, m, at), history[k])
    ensures NothingLostSince(before, was, history, m)
  {
    forall k | |was| <= k < |history|
      ensures NothingLost(before, history[k], m)
    {
      if k < |mid| {
        assert history[k] == mid[k];
      } else {
        var seen := if SameVisible(found, history[k]) then found else WithMeta(found, m, at);
        assert SameAt(seen, history[k], BodyPath(m.id)) && SameAt(seen, history[k], FailedMeta(m.id));
      }
    }
  }

  /** A message set aside whole: readable metadata in failed, and its body. */
  predicate Requeueable(files: Files, id: QueueId) {
    ReadMetaAt(files, FailedMeta(id)).Some? && FailedBody(id) in files
  }

  ghost predicate BodyIsBack(before: Files, now: Files, id: QueueId) {
    && FailedBody(id) in before && BodyPath(id) in now && now[BodyPath(id)] == before[FailedBody(id)]
    && SameAt(before, now, FailedMeta(id))
  }

  /** Where a requeue takes the message from: the live index, or else spool/failed. */
  ghost function RequeueSource(index: map<QueueId, Meta>, files: Files, id: QueueId): Meta {
    if id in index then index[id]
    else if ReadMetaAt(files, FailedMeta(id)).Some? then ReadMetaAt(files, FailedMeta(id)).value
    else Meta(id, Envelope("", [], "", "", 0, 0, "", FromClient), 0, "", 0, 0)
  }

  ghost predicate Erased(files: Files, id: QueueId) {
    && BodyPath(id) !in files && MetaPath(id) !in files
    && FailedBody(id) !in files && FailedMeta(id) !in files
  }

  /** No file of another id has changed, come or gone. */
  ghost predicate OthersUntouched(before: Files, now: Files, id: QueueId) {
    forall p: Path :: p.id != id ==> SameAt(before, now, p)
  }

  /** Nothing but files of this message has gone, and nothing has come. */
  ghost predicate OnlyShrinks(before: Files, now: Files, id: QueueId) {
    forall p: Path :: if p.id == id then (p in now ==> p in before && now[p] == before[p]) else SameAt(before, now, p)
  }

  /** A deletion that failed half way: the entry stays, without the promise of surviving. */
  lemma HalfDeleted(index: map<QueueId, Meta>, ended: set<QueueId>, before: Files, now: Files, id: QueueId)
    requires IndexInv(index, ended, before) && MessageInv(now, id)
    requires OnlyShrinks(before, now, id)
    ensures IndexInv(index, ended + {id}, now)
  {
    assert SameVisibleExcept(before, now, id) by {
      forall p: Path | p.dir != Tmp && p.id != id
        ensures SameAt(before, now, p)
      {
      }
    }
    IndexInvExcept(index, ended, before, now, id);
    forall other | other in index
      ensures EntryInv(other, index[other], other in ended + {id}, now)
    {
      assert EntryInv(other, index[other], other in ended, before);
      if other != id {
        assert other in index - {id};
      }
    }
  }

  /** The recorded states of a deletion: crash points all, with nothing brought back and nobody else touched. */
  ghost predicate DeletionTrace(before: Files, was: seq<Files>, now: Files, history: seq<Files>, id: QueueId) {
    && OpSteps(before, was, history, id, VersionOnDisk(before, id))
    && Deleting(before, was, history, id)
    && OnlyShrinks(before, now, id)
  }

  lemma NothingDeleted(files: Files, history: seq<Files>, id: QueueId)
    requires |history| > 0 && history[|history| - 1] == files
    ensures DeletionTrace(files, history, files, history, id)
  {
  }

  /** However much of a message a deletion has unlinked, the promises about everything else stand. */
  lemma ShrinkKeeps(index: map<QueueId, Meta>, ended: set<QueueId>, mirror: map<QueueId, FailedEntry>, before: Files,
                    now: Files, id: QueueId)
    requires IndexInv(index, ended, before) && MirrorInv(mirror, before)
    requires OnlyShrinks(before, now, id) && MessageInv(now, id)
    ensures IndexInv(index, ended + {id}, now) && IndexInv(index - {id}, ended, now) && MirrorInv(mirror, now)
    ensures forall other :: FailedBody(other) in now ==> FailedBody(other) in before
  {
    HalfDeleted(index, ended, before, now, id);
    forall p: Path | p.dir != Tmp && p.id != id
      ensures SameAt(before, now, p)
    {
    }
    IndexInvExcept(index, ended, before, now, id);
    forall other | FailedBody(other) in now
      ensures FailedBody(other) in before && now[FailedBody(other)] == before[FailedBody(other)]
    {
      assert other != id ==> SameAt(before, now, FailedBody(other));
    }
  }

  /** Neither does a metadata write, made or not. */
  lemma RewriteKeepsMirror(mirror: map<QueueId, FailedEntry>, before: Files, now: Files, m: Meta, at: Time, written: bool)
    requires MirrorInv(mirror, before) && SameVisible(if written then WithMeta(before, m, at) else before, now)
    ensures MirrorInv(mirror, now)
  {
    var target := if written then WithMeta(before, m, at) else before;
    forall id
      ensures SameAt(target, now, FailedBody(id)) && SameAt(before, target, FailedBody(id))
    {
    }
  }

  /** Files have only disappeared from tmp and queue, and none that belongs to a survivor. */
  ghost predicate OnlyOrphansRemoved(before: Files, now: Files) {
    && (forall p: Path :: p.dir == Failed ==> SameAt(before, now, p))
    && (forall p: Path :: p.dir == Queue && p in now ==> SameAt(before, now, p))
    && (forall id :: Survives(before, id) ==> BodyPath(id) in now && MetaPath(id) in now)
  }

  /** Such a clean-up, stopped anywhere, changes nothing a restart would find. */
  lemma CleanupIsInvisible(before: Files, now: Files)
    requires OnlyOrphansRemoved(before, now)
    ensures Recovered(now) == Recovered(before)
    ensures DiskInv(before) ==> DiskInv(now)
  {
    forall id
      ensures Survives(now, id) <==> Survives(before, id)
      ensures Survives(before, id) ==> ReadMetaAt(now, MetaPath(id)) == ReadMetaAt(before, MetaPath(id))
      ensures id in Recovered(now) <==> id in Recovered(before)
      ensures MessageInv(before, id) ==> MessageInv(now, id)
    {
      assert BodyPath(id) in now ==> SameAt(before, now, BodyPath(id));
      assert MetaPath(id) in now ==> SameAt(before, now, MetaPath(id));
      assert SameAt(before, now, FailedBody(id)) && SameAt(before, now, FailedMeta(id));
      assert BodyPath(id).id == id;
    }
  }

  /** Every file state recorded since history was was such a clean-up of before. */
  ghost predicate CleanupSteps(before: Files, was: seq<Files>, history: seq<Files>) {
    && was <= history
    && (forall k :: |was| <= k < |history| ==> OnlyOrphansRemoved(before, history[k]))
  }

  /** Of the leftovers a recovery pass looks for, only those remain that the disk refused to unlink. */
  ghost predicate NoTmpLeft(files: Files, was: seq<Fault>, now: seq<Fault>) {
    forall p: Path :: p.dir == Tmp && p in files ==> RefusedSince(was, now, p)
  }

  ghost predicate NoMetaAlone(found: Files, files: Files, was: seq<Fault>, now: seq<Fault>) {
    forall id :: MetaPath(id) in files && BodyPath(id) !in found ==> RefusedSince(was, now, MetaPath(id))
  }

  ghost predicate NoOrphanLeft(index: map<QueueId, Meta>, files: Files, was: seq<Fault>, now: seq<Fault>) {
    forall id :: BodyPath(id) in files && id !in index ==> RefusedSince(was, now, BodyPath(id))
  }

  ghost predicate CleanedUp(found: Files, index: map<QueueId, Meta>, files: Files, was: seq<Fault>, now: seq<Fault>) {
    NoTmpLeft(files, was, now) && NoMetaAlone(found, files, was, now) && NoOrphanLeft(index, files, was, now)
  }

  lemma AllCleanedUp(found: Files, index: map<QueueId, Meta>, f1: Files, f2: Files, f3: Files,
                     t0: seq<Fault>, t1: seq<Fault>, t2: seq<Fault>, t3: seq<Fault>)
    requires t0 <= t1 <= t2 <= t3 && f3.Keys <= f2.Keys <= f1.Keys
    requires NoTmpLeft(f1, t0, t1) && NoMetaAlone(found, f2, t1, t2) && NoOrphanLeft(index, f3, t2, t3)
    ensures CleanedUp(found, index, f3, t0, t3)
  {
    StillRefused(t0, t1, t3);
    StillRefused(t1, t2, t3);
    StillRefused(t0, t1, t3);
    StillRefused(t0, t2, t3);
  }

  lemma BodiesScanned(found: Files, files: Files, bodies: set<QueueId>)
    requires SameVisible(found, files)
    requires bodies == set p | p in files && p.dir == Queue && p.ext == Eml :: p.id
    ensures forall id :: id in bodies <==> BodyPath(id) in found
  {
    forall id
      ensures id in bodies <==> BodyPath(id) in found
    {
      assert SameAt(found, files, BodyPath(id)) && BodyPath(id).id == id;
    }
  }

  /** The index holds the survivors among the messages scanned so far, each as its metadata reads. */
  ghost predicate IndexedSoFar(found: Files, index: map<QueueId, Meta>, scanned: set<QueueId>) {
    forall id :: if id in scanned && Survives(found, id)
                 then id in index && index[id] == ReadMetaAt(found, MetaPath(id)).value
                 else id !in index
  }

  lemma SurvivorsAreScanned(found: Files, index: map<QueueId, Meta>, scanned: set<QueueId>)
    requires forall id :: MetaPath(id) in found ==> id in scanned
    requires IndexedSoFar(found, index, scanned)
    ensures index == Recovered(found)
  {
    forall id
      ensures id in index <==> id in Recovered(found)
    {
      assert Survives(found, id) ==> MetaPath(id) in found && MetaPath(id).id == id;
    }
  }

  /** The index a restart builds keeps its promise about the disk. */
  lemma RecoveredIsIndexInv(files: Files)
    requires DiskInv(files)
    ensures IndexInv(Recovered(files), {}, files)
  {
    forall id | id in Recovered(files)
      ensures EntryInv(id, Recovered(files)[id], false, files)
    {
      assert MessageInv(files, id);
    }
  }

  /** A sweep of failed, stopped anywhere, is nothing a restart or the live queue would notice. */
  lemma SweepIsInvisible(before: Files, now: Files, ids: set<QueueId>)
    requires SweptOnly(before, now, ids)
    ensures Recovered(now) == Recovered(before)
    ensures DiskInv(before) ==> DiskInv(now)
  {
    forall id
      ensures SameAt(before, now, BodyPath(id)) && SameAt(before, now, MetaPath(id))
      ensures id in Recovered(now) <==> id in Recovered(before)
      ensures MessageInv(before, id) ==> MessageInv(now, id)
    {
      assert SameAt(before, now, BodyPath(id)) && SameAt(before, now, MetaPath(id));
      assert FailedBody(id) in now ==> FailedBody(id) in before && now[FailedBody(id)] == before[FailedBody(id)];
      assert FailedMeta(id) in now ==> FailedMeta(id) in before && now[FailedMeta(id)] == before[FailedMeta(id)];
      assert BodyPath(id).id == id;
    }
  }

  lemma SweepKeepsPromises(index: map<QueueId, Meta>, ended: set<QueueId>, mirror: map<QueueId, FailedEntry>,
                           mirror': map<QueueId, FailedEntry>, before: Files, now: Files, ids: set<QueueId>)
    requires IndexInv(index, ended, before) && MirrorInv(mirror, before)
    requires SweptOnly(before, now, ids) && OnlyDropped(mirror, mirror')
    ensures IndexInv(index, ended, now) && MirrorInv(mirror', now)
    ensures forall id :: FailedBody(id) in now ==> FailedBody(id) in before
  {
    SweepIsInvisible(before, now, ids);
    forall id
      ensures FailedBody(id) in now ==> FailedBody(id) in before && now[FailedBody(id)] == before[FailedBody(id)]
      ensures id in index ==> EntryInv(id, index[id], id in ended, now)
    {
      assert SameAt(before, now, BodyPath(id)) && SameAt(before, now, MetaPath(id));
      assert FailedBody(id) in now ==> FailedBody(id) in before && now[FailedBody(id)] == before[FailedBody(id)];
      assert id in index ==> EntryInv(id, index[id], id in ended, before);
    }
  }

  /** The part of the spool's state that other actors depend on. */
  datatype View = View(index: map<QueueId, Meta>, leased: set<QueueId>, files: Files)

  /** No message but this one gains a body in failed. */
  ghost predicate NoOtherSetAside(a: Files, b: Files, id: QueueId) {
    forall other :: other != id && FailedBody(other) in b ==> FailedBody(other) in a
  }

  lemma SetAsideFrame(a: Files, b: Files, id: QueueId)
    requires SameVisibleExcept(a, b, id)
    ensures NoOtherSetAside(a, b, id)
  {
    forall other | other != id && FailedBody(other) in b
      ensures FailedBody(other) in a
    {
      assert SameAt(a, b, FailedBody(other));
    }
  }

  ghost predicate CommitStep(a: View, b: View, id: QueueId, accepted: bool) {
    && b.leased == a.leased
    && (if accepted then id in b.index && b.index == a.index[id := b.index[id]] else b.index == a.index)
    && NoOtherSetAside(a.files, b.files, id) && FailedBody(id) !in b.files
  }

  ghost predicate ClaimStep(a: View, b: View, batch: seq<Meta>) {
    && b == a.(leased := a.leased + IdsOf(batch))
    && (forall m :: m in batch ==> m.id in a.index && m.id !in a.leased)
  }

  ghost predicate DeferStep(a: View, b: View, id: QueueId) {
    && b.index.Keys == a.index.Keys && b.leased == a.leased - {id} && b.files == a.files
  }

  ghost predicate ReleaseStep(a: View, b: View, id: QueueId) {
    && id in a.index && b.index.Keys == a.index.Keys && b.leased == a.leased - {id}
    && (forall other :: FailedBody(other) in b.files ==> FailedBody(other) in a.files)
  }

  ghost predicate RemoveStep(a: View, b: View, id: QueueId) {
    && b.index == a.index - {id} && b.leased == a.leased - {id}
    && (forall other :: FailedBody(other) in b.files ==> FailedBody(other) in a.files)
  }

  ghost predicate FailStep(a: View, b: View, id: QueueId) {
    && b.index == a.index - {id} && b.leased == a.leased - {id}
    && NoOtherSetAside(a.files, b.files, id)
  }

  /** What requeueLive or requeueFailed does while the lease is held. */
  ghost predicate RequeueStep(a: View, b: View, id: QueueId, done: bool) {
    && b.leased == a.leased
    && NoOtherSetAside(a.files, b.files, id)
    && (FailedBody(id) in b.files ==> FailedBody(id) in a.files && !done)
    && (if done
        then id in b.index && b.index == a.index[id := b.index[id]]
             && (id in a.index || FailedBody(id) in a.files)
        else b.index == a.index)
  }

  /** What a retention sweep of failed does. */
  ghost predicate SweepStep(a: View, b: View) {
    && b.index == a.index && b.leased == a.leased
    && (forall other :: FailedBody(other) in b.files ==> FailedBody(other) in a.files)
  }

  /** What Discard does while its lease is held. */
  ghost predicate DiscardStep(a: View, b: View, id: QueueId) {
    && b.leased == a.leased
    && (forall other :: FailedBody(other) in b.files ==> FailedBody(other) in a.files)
    && b.index == (if Erased(b.files, id) then a.index - {id} else a.index)
  }
}
