/** The outcome classes the history journal records and the statuses derived from them. */
module JournalClass {
  import opened Types

  datatype Class = Delivered | Temporary | Permanent | Expired | Removed | Requeued | Unknown(text: string)

  datatype Status = StatusQueued | StatusDeferred | StatusDelivered | StatusBounced | StatusRemoved

  /** The single class to status table. A class it does not list has no entry. */
  function ClassStatus(c: Class): Option<Status> {
    match c
    case Delivered => Some(StatusDelivered)
    case Temporary => Some(StatusDeferred)
    case Permanent => Some(StatusBounced)
    case Expired => Some(StatusBounced)
    case Removed => Some(StatusRemoved)
    case Requeued => Some(StatusQueued)
    case Unknown(_) => None
  }

  /** A message's status from its latest attempt, if it has any. */
  function ClassToStatus(last: Option<Class>): Status {
    match last
    case None => StatusQueued
    case Some(c) => if ClassStatus(c).Some? then ClassStatus(c).value else StatusDeferred
  }

  /** Every class in its place: which last outcome a status stands for. */
  lemma StatusStandsFor(last: Option<Class>)
    ensures ClassToStatus(last) == StatusDelivered <==> last == Some(Delivered)
    ensures ClassToStatus(last) == StatusBounced <==> last == Some(Permanent) || last == Some(Expired)
    ensures ClassToStatus(last) == StatusRemoved <==> last == Some(Removed)
    ensures ClassToStatus(last) == StatusQueued <==> last == None || last == Some(Requeued)
    ensures Active(last) <==> last.None? || last.value.Temporary? || last.value.Requeued? || last.value.Unknown?
  {
  }

  /** Still in the spool: queued or deferred. */
  predicate Active(last: Option<Class>) {
    ClassToStatus(last) in {StatusQueued, StatusDeferred}
  }
}
