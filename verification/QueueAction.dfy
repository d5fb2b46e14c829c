/** The operator's two actions on a message, over the spool and the history together. */
module QueueAction {
  import opened Types
  import J = JournalClass
  import opened SpoolDisk
  import opened SpoolState
  import opened Spool
  import opened History

  datatype Outcome = Done | Cleared | Missing | Busy | Failed

  /** What the queue view would still list. */
  ghost predicate Listed(messages: map<QueueId, Summary>, id: QueueId) {
    id in messages && J.Active(messages[id].latest)
  }

  /** The history takes the write exactly when it knows the message and the database does its part. */
  ghost predicate Written(before: Tables, now: Tables, faults: nat, faults': nat, w: Write) {
    && faults <= faults'
    && now == if w.id in before.messages && faults' == faults then Applied(before, w) else before
  }

  class Operator {
    const spool: Spool
    const store: Store

    constructor (spool: Spool, store: Store)
      ensures this.spool == spool && this.store == store
    {
      this.spool, this.store := spool, store;
    }

    ghost predicate Valid()
      reads this, spool, spool.disk, spool.failed, store
    {
      spool.Valid() && store.Valid()
    }

    /**
     Requeue: the history row is written between BeginRequeue and EndLease, so no claim can come
     between the two. Only a message that is back in the queue is journalled as queued.
     */
    method Requeue(id: QueueId, now: Time, at: int) returns (o: Outcome)
      requires Valid()
      modifies spool`index, spool`indexBytes, spool`leased, spool.disk, spool.failed`index, spool.failed`bytes, store
      ensures Valid() && spool.leased == old(spool.leased)
      ensures o == Busy <==> id in old(spool.leased)
      ensures o == Busy || o == Outcome.Missing ==> spool.disk.files == old(spool.disk.files)
      ensures o == Outcome.Missing <==>
              id !in old(spool.leased) && id !in old(spool.index) && FailedMeta(id) !in old(spool.disk.files)
      ensures o == Done <==> && id !in old(spool.leased) && spool.disk.faults == old(spool.disk.faults)
                             && (id in old(spool.index) || Requeueable(old(spool.disk.files), id))
      ensures o != Done ==> spool.index == old(spool.index) && store.Now() == old(store.Now())
      ensures o == Done ==>
                && id in spool.index && spool.index - {id} == old(spool.index) - {id}
                && spool.index[id].attempts == 0 && spool.index[id].nextAttempt == now && spool.index[id].lastError == ""
      ensures o == Done ==>
                && spool.index == old(spool.index)[id := Requeued(RequeueSource(old(spool.index), old(spool.disk.files), id), now)]
                && Written(old(store.Now()), store.Now(), old(store.faults), store.faults, Write(id, at, None, "", J.Requeued, None))
                && (store.Now() != old(store.Now()) ==> Listed(store.messages, id))
      ensures o != Cleared
    {
      var err := spool.BeginRequeue(id, now);
      if err.None? {
        Committed(id, at);
        spool.EndLease(id);
        return Done;
      }
      match err.value
      case ErrNotFound => o := Outcome.Missing;
      case ErrBusy => o := Busy;
      case _ => o := Outcome.Failed;
    }

    /** The committed hook: it may only run while the requeue still holds the lease. */
    method Committed(id: QueueId, at: int)
      requires Valid() && id in spool.leased && id in spool.index
      modifies store
      ensures Valid()
      ensures Written(old(store.Now()), store.Now(), old(store.faults), store.faults, Write(id, at, None, "", J.Requeued, None))
      ensures store.Now() != old(store.Now()) ==> Listed(store.messages, id)
    {
      var written := store.RecordRequeue(id, at);
    }

    /**
     Delete: gone from the spool, or already gone and cleared from the listing. Unless the history
     could not be written or the files could not be unlinked, the message is listed no more.
     */
    method Delete(id: QueueId, at: int) returns (o: Outcome, written: bool)
      requires Valid()
      modifies spool`index, spool`indexBytes, spool`leased, spool`ended, spool.disk, spool.failed`index, spool.failed`bytes, store
      ensures Valid() && spool.leased == old(spool.leased)
      ensures o == Busy <==> id in old(spool.leased)
      ensures o == Busy ==> && spool.index == old(spool.index) && spool.disk.files == old(spool.disk.files)
                            && store.Now() == old(store.Now())
      ensures o in {Done, Cleared, Outcome.Missing} ==>
                Erased(spool.disk.files, id) && spool.index == old(spool.index) - {id} && id !in spool.failed.index
      ensures o == Done <==> && id !in old(spool.leased) && spool.disk.faults == old(spool.disk.faults)
                             && !Erased(old(spool.disk.files), id)
      ensures o == Done ==> && (written <==> id in old(store.messages) && store.faults == old(store.faults))
                            && Written(old(store.Now()), store.Now(), old(store.faults), store.faults,
                                       Write(id, at, None, "", J.Removed, None))
      ensures (o == Cleared || o == Outcome.Missing) <==>
                && id !in old(spool.leased) && spool.disk.faults == old(spool.disk.faults)
                && Erased(old(spool.disk.files), id) && store.faults == old(store.faults)
      ensures o == Outcome.Missing ==> !old(Listed(store.messages, id))
      ensures o == Cleared ==> && old(Listed(store.messages, id))
                               && store.Now() == Applied(old(store.Now()), Write(id, at, None, "", J.Removed, None))
      ensures (o == Done && written) || o == Cleared || o == Outcome.Missing ==> !Listed(store.messages, id)
      ensures o == Outcome.Missing || o == Outcome.Failed ==> store.Now() == old(store.Now())
    {
      written := false;
      var err := spool.Discard(id);
      if err.None? {
        written := store.RecordRemoval(id, at);
        return Done, written;
      }
      match err.value
      case ErrNotFound =>
        var cleared := store.ReconcileRemoved(id, at);
        if cleared.Err? {
          return Outcome.Failed, false;
        }
        return if cleared.value then Cleared else Outcome.Missing, false;
      case ErrBusy => o := Busy;
      case _ => o := Outcome.Failed;
    }
  }
}
