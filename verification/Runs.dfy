/**
 Whole runs of one process: delivery workers, operators and listeners acting on the spool and
 the history journal in any interleaving. The spool's part of every step is the step
 predicate its method is proved to satisfy; Remove and Fail are single steps, Requeue and
 Discard are split where they take and give back the lease.
 */
module Runs {
  import opened Types
  import opened SpoolDisk
  import opened Batch
  import opened SpoolState
  import opened JournalClass

  type Actor = int

  // What the holder of a message is about to do with it.
  datatype Phase =
    | Claimed
    | Sent                       // the smarthost accepted the body, nothing is journalled yet
    | Retrying                   // a temporary attempt is journalled, Release comes next
    | Ending(outcome: Class)     // a final outcome is journalled, Remove or Fail comes next
    | Operating                  // an operator has the lease
    | BackInQueue                // requeued, the committed hook has not run yet
    | Finishing                  // an operator is about to give the lease back

  datatype World = World(
    spool: View,
    held: map<(Actor, QueueId), Phase>,        // what each actor believes it holds
    rows: map<QueueId, Option<Class>>,         // history rows and their latest class
    drawn: set<QueueId>,                       // every queue id drawn so far
    gone: set<QueueId>,                        // successfully removed or discarded
    accepted: set<QueueId>)                    // the smarthost answered the body with success

  datatype Action =
    | Commit(id: QueueId, ok: bool)
    | RecordMessage(id: QueueId)
    | Claim(who: Actor, batch: seq<Meta>)
    | GiveBack(who: Actor, id: QueueId)
    | JournalRetry(who: Actor, id: QueueId)
    | Release(who: Actor, id: QueueId)
    | Accept(who: Actor, id: QueueId)
    | JournalEnd(who: Actor, id: QueueId, outcome: Class)
    | Remove(who: Actor, id: QueueId)
    | Fail(who: Actor, id: QueueId)
    | TakeLease(who: Actor, id: QueueId)
    | Busy(who: Actor, id: QueueId)
    | RequeueWork(who: Actor, id: QueueId, ok: bool)
    | Hook(who: Actor, id: QueueId)
    | DiscardWork(who: Actor, id: QueueId)
    | EndLease(who: Actor, id: QueueId)
    | RecordRemoval(id: QueueId)
    | Sweep                      // the retention sweep of failed

  ghost predicate Holds(w: World, who: Actor, id: QueueId, p: Phase) {
    (who, id) in w.held && w.held[(who, id)] == p
  }

  /** A journal write succeeds exactly when the message has a row. */
  function Journalled(rows: map<QueueId, Option<Class>>, id: QueueId, c: Class): map<QueueId, Option<Class>> {
    if id in rows then rows[id := Some(c)] else rows
  }

  ghost predicate Step(w: World, a: Action, w': World) {
    match a
    case Commit(id, ok) =>
      && id !in w.drawn
      && CommitStep(w.spool, w'.spool, id, ok)
      && w' == w.(spool := w'.spool, drawn := w.drawn + {id})
    case RecordMessage(id) =>
      && id in w.drawn && id !in w.rows
      && w' == w.(rows := w.rows[id := None])
    case Claim(who, batch) =>
      && ClaimStep(w.spool, w'.spool, batch)
      && w' == w.(spool := w'.spool, held := w.held + ClaimedBy(who, batch))
    case GiveBack(who, id) =>
      && Holds(w, who, id, Claimed)
      && DeferStep(w.spool, w'.spool, id)
      && w' == w.(spool := w'.spool, held := w.held - {(who, id)})
    case JournalRetry(who, id) =>
      && Holds(w, who, id, Claimed)
      && w' == w.(held := w.held[(who, id) := Retrying], rows := Journalled(w.rows, id, Temporary))
    case Release(who, id) =>
      && Holds(w, who, id, Retrying)
      && ReleaseStep(w.spool, w'.spool, id)
      && w' == w.(spool := w'.spool, held := w.held - {(who, id)})
    case Accept(who, id) =>
      && Holds(w, who, id, Claimed)
      && w' == w.(held := w.held[(who, id) := Sent], accepted := w.accepted + {id})
    case JournalEnd(who, id, outcome) =>
      && outcome in {Delivered, Permanent, Expired}
      && Holds(w, who, id, if outcome == Delivered then Sent else Claimed)
      && w' == w.(held := w.held[(who, id) := Ending(outcome)], rows := Journalled(w.rows, id, outcome))
    case Remove(who, id) =>
      && Holds(w, who, id, Ending(Delivered))
      && RemoveStep(w.spool, w'.spool, id)
      && w' == w.(spool := w'.spool, held := w.held - {(who, id)}, gone := w.gone + {id})
    case Fail(who, id) =>
      && (Holds(w, who, id, Ending(Permanent)) || Holds(w, who, id, Ending(Expired)))
      && FailStep(w.spool, w'.spool, id)
      && w' == w.(spool := w'.spool, held := w.held - {(who, id)})
    case TakeLease(who, id) =>
      && id !in w.spool.leased
      && w' == w.(spool := w.spool.(leased := w.spool.leased + {id}), held := w.held[(who, id) := Operating])
    case Busy(who, id) =>
      && id in w.spool.leased
      && w' == w
    case RequeueWork(who, id, ok) =>
      && Holds(w, who, id, Operating)
      && RequeueStep(w.spool, w'.spool, id, ok)
      && w' == w.(spool := w'.spool, held := w.held[(who, id) := if ok then BackInQueue else Finishing])
    case Hook(who, id) =>
      && Holds(w, who, id, BackInQueue)
      && w' == w.(held := w.held[(who, id) := Finishing], rows := Journalled(w.rows, id, Requeued))
    case DiscardWork(who, id) =>
      && Holds(w, who, id, Operating)
      && DiscardStep(w.spool, w'.spool, id)
      && w' == w.(spool := w'.spool, held := w.held[(who, id) := Finishing],
                  gone := if Erased(w'.spool.files, id) && id in w.drawn then w.gone + {id} else w.gone)
    case EndLease(who, id) =>
      && Holds(w, who, id, Finishing)
      && w' == w.(spool := w.spool.(leased := w.spool.leased - {id}), held := w.held - {(who, id)})
    case RecordRemoval(id) =>
      && id in w.gone
      && w' == w.(rows := Journalled(w.rows, id, Removed))
    case Sweep =>
      && SweepStep(w.spool, w'.spool)
      && w' == w.(spool := w'.spool)
  }

  ghost function ClaimedBy(who: Actor, batch: seq<Meta>): map<(Actor, QueueId), Phase> {
    map id | id in IdsOf(batch) :: (who, id) := Claimed
  }

  // ---- Invariants -------------------------------------------------------

  /** Exactly the leased messages have a holder, and each has one. */
  ghost predicate OneHolder(w: World) {
    && (forall k :: k in w.held ==> k.1 in w.spool.leased)
    && (forall id :: id in w.spool.leased ==> exists who :: (who, id) in w.held)
    && (forall a, b, id :: (a, id) in w.held && (b, id) in w.held ==> a == b)
  }

  /** A message that can never be live again: not indexed, and no body to requeue it from. */
  ghost predicate Dead(v: View, id: QueueId) {
    id !in v.index && FailedBody(id) !in v.files
  }

  ghost predicate GoneStaysGone(w: World) {
    && (forall id :: id in w.gone ==> Dead(w.spool, id) && id in w.drawn)
    && (forall id :: id in w.spool.index ==> id in w.drawn && FailedBody(id) !in w.spool.files)
    && (forall id :: FailedBody(id) in w.spool.files || id in w.rows ==> id in w.drawn)
  }

  /** What the holder's phase says about the message. */
  ghost predicate PhaseInv(w: World, k: (Actor, QueueId)) {
    k in w.held ==>
      match w.held[k]
      case Claimed => k.1 in w.spool.index
      case Sent => k.1 in w.spool.index
      case Retrying => k.1 in w.spool.index
      case Ending(c) => k.1 in w.spool.index
      case BackInQueue => k.1 in w.spool.index
      case Operating => true
      case Finishing => true
  }

  /** An accepted message is gone, or its holder can do nothing with it but remove it. */
  ghost predicate AcceptedOnce(w: World) {
    forall id :: id in w.accepted ==> id in w.gone || OnItsWayOut(w, id)
  }

  ghost predicate OnItsWayOut(w: World, id: QueueId) {
    exists who :: Holds(w, who, id, Sent) || Holds(w, who, id, Ending(Delivered))
  }

  /** The journal may disagree with the queue only while a holder is between two writes. */
  ghost predicate BetweenWrites(w: World, id: QueueId) {
    exists who :: (who, id) in w.held && (w.held[(who, id)].Ending? || w.held[(who, id)].BackInQueue?)
  }

  ghost predicate JournalAgrees(w: World) {
    forall id :: id in w.spool.index && id in w.rows && !BetweenWrites(w, id) ==> Active(w.rows[id])
  }

  ghost predicate Inv(w: World) {
    && OneHolder(w)
    && GoneStaysGone(w)
    && (forall k :: PhaseInv(w, k))
    && AcceptedOnce(w)
    && JournalAgrees(w)
  }

  /** A process that has just opened a spool whose journal agrees with it. */
  ghost predicate Init(w: World) {
    && w.spool.leased == {} && w.held == map[] && w.gone == {} && w.accepted == {}
    && (forall id :: id in w.spool.index ==> id in w.drawn && FailedBody(id) !in w.spool.files)
    && (forall id :: FailedBody(id) in w.spool.files || id in w.rows ==> id in w.drawn)
    && (forall id :: id in w.spool.index && id in w.rows ==> Active(w.rows[id]))
  }

  lemma InitInv(w: World)
    requires Init(w)
    ensures Inv(w)
  {
  }

  /** The holder a step speaks of is the only one. */
  lemma SoleHolder(w: World, who: Actor, id: QueueId)
    requires OneHolder(w) && (who, id) in w.held
    ensures id in w.spool.leased
    ensures forall k :: k in w.held && k.1 == id ==> k == (who, id)
  {
    assert (who, id).1 == id;
    forall k | k in w.held && k.1 == id
      ensures k == (who, id)
    {
      assert k == (k.0, k.1);
      var other := k.0;
      assert (other, id) in w.held && (who, id) in w.held;
      assert other == who;
    }
  }

  lemma HeldIsLeased(w: World, who: Actor, id: QueueId)
    requires OneHolder(w)
    ensures (who, id) in w.held ==> id in w.spool.leased
  {
    assert (who, id).1 == id;
  }

  lemma StepKeepsOneHolder(w: World, a: Action, w': World)
    requires Inv(w) && Step(w, a, w')
    ensures OneHolder(w')
  {
    if HolderStep(a) {
      SoleHolder(w, a.who, a.id);
    }
    forall k | k in w'.held
      ensures k.1 in w'.spool.leased
    {
      assert k in w.held ==> k.1 in w.spool.leased;
      assert k == (k.0, k.1);
    }
    forall id | id in w'.spool.leased
      ensures exists who :: (who, id) in w'.held
    {
      if id in w.spool.leased {
        var who :| (who, id) in w.held;
        assert (who, id) in w'.held;
      } else {
        assert (a.who, id) in w'.held;
      }
    }
    forall x, y, id | (x, id) in w'.held && (y, id) in w'.held
      ensures x == y
    {
      assert (x, id) in w.held ==> (x, id).1 in w.spool.leased;
      assert (y, id) in w.held ==> (y, id).1 in w.spool.leased;
    }
  }

  lemma StepKeepsGone(w: World, a: Action, w': World)
    requires Inv(w) && Step(w, a, w')
    ensures GoneStaysGone(w')
  {
    if a.Remove? || a.Fail? || a.Release? {
      assert PhaseInv(w, (a.who, a.id));
    }
  }

  lemma StepKeepsPhases(w: World, a: Action, w': World)
    requires Inv(w) && Step(w, a, w')
    ensures forall k :: PhaseInv(w', k)
  {
    forall k
      ensures PhaseInv(w', k)
    {
      StepKeepsPhase(w, a, w', k);
    }
  }

  lemma StepKeepsPhase(w: World, a: Action, w': World, k: (Actor, QueueId))
    requires Inv(w) && Step(w, a, w')
    ensures PhaseInv(w', k)
  {
    if HolderStep(a) {
      SoleHolder(w, a.who, a.id);
      assert PhaseInv(w, (a.who, a.id));
    }
    assert PhaseInv(w, k);
    assert k in w.held ==> k.1 in w.spool.leased;
  }

  lemma StepKeepsAccepted(w: World, a: Action, w': World)
    requires Inv(w) && Step(w, a, w')
    ensures AcceptedOnce(w')
  {
    forall id | id in w'.accepted
      ensures id in w'.gone || OnItsWayOut(w', id)
    {
      if id !in w.accepted {
        assert Holds(w', a.who, id, Sent);
      } else if id !in w.gone {
        assert OnItsWayOut(w, id);
        StepKeepsOnItsWayOut(w, a, w', id);
      }
    }
  }

  /** A step that only the holder of a message can take. */
  predicate HolderStep(a: Action) {
    !a.Commit? && !a.RecordMessage? && !a.RecordRemoval? && !a.Claim? && !a.TakeLease? && !a.Busy? && !a.Sweep?
  }

  /** Nobody but its holder moves a held message on. */
  lemma OthersLeaveItHeld(w: World, a: Action, w': World, who: Actor, id: QueueId)
    requires OneHolder(w) && Step(w, a, w') && (who, id) in w.held
    requires HolderStep(a) ==> (a.who, a.id) != (who, id)
    ensures (who, id) in w'.held && w'.held[(who, id)] == w.held[(who, id)]
  {
    HeldIsLeased(w, who, id);
    if a.Claim? {
      assert forall m :: m in a.batch ==> m.id != id;
      assert (who, id) !in ClaimedBy(a.who, a.batch);
    }
  }

  lemma StepKeepsOnItsWayOut(w: World, a: Action, w': World, id: QueueId)
    requires Inv(w) && Step(w, a, w') && OnItsWayOut(w, id)
    ensures id in w'.gone || OnItsWayOut(w', id)
  {
    var who :| Holds(w, who, id, Sent) || Holds(w, who, id, Ending(Delivered));
    if HolderStep(a) && (a.who, a.id) == (who, id) {
      if a.JournalEnd? {
        assert Holds(w', who, id, Ending(Delivered));
      }
    } else {
      OthersLeaveItHeld(w, a, w', who, id);
      assert Holds(w', who, id, Sent) || Holds(w', who, id, Ending(Delivered));
    }
  }

  lemma StepKeepsJournal(w: World, a: Action, w': World)
    requires Inv(w) && Step(w, a, w')
    ensures JournalAgrees(w')
  {
    forall id | id in w'.spool.index && id in w'.rows && !BetweenWrites(w', id)
      ensures Active(w'.rows[id])
    {
      if BetweenWrites(w, id) {
        WriteFollows(w, a, w', id);
      } else {
        RowStaysActive(w, a, w', id);
      }
    }
  }

  /** The holder between two writes either makes the second one or drops the message. */
  lemma WriteFollows(w: World, a: Action, w': World, id: QueueId)
    requires Inv(w) && Step(w, a, w')
    requires BetweenWrites(w, id) && !BetweenWrites(w', id)
    ensures id !in w'.spool.index || (id in w'.rows ==> Active(w'.rows[id]))
  {
    var who :| (who, id) in w.held && (w.held[(who, id)].Ending? || w.held[(who, id)].BackInQueue?);
    if !HolderStep(a) || (a.who, a.id) != (who, id) {
      OthersLeaveItHeld(w, a, w', who, id);
    }
  }

  lemma RowStaysActive(w: World, a: Action, w': World, id: QueueId)
    requires Inv(w) && Step(w, a, w')
    requires !BetweenWrites(w, id) && !BetweenWrites(w', id)
    requires id in w'.spool.index && id in w'.rows
    ensures Active(w'.rows[id])
  {
    match a
    case JournalEnd(b, i, outcome) => assert (b, i) in w'.held && w'.held[(b, i)].Ending?;
    case RequeueWork(b, i, ok) => assert (b, i) in w'.held && (ok ==> w'.held[(b, i)].BackInQueue?);
    case Hook(b, i) => assert (b, i) in w.held && w.held[(b, i)].BackInQueue?;
    case _ =>
  }

  /** Every step of every actor keeps the invariant. */
  lemma StepKeepsInv(w: World, a: Action, w': World)
    requires Inv(w) && Step(w, a, w')
    ensures Inv(w')
  {
    StepKeepsOneHolder(w, a, w');
    StepKeepsGone(w, a, w');
    StepKeepsPhases(w, a, w');
    StepKeepsAccepted(w, a, w');
    StepKeepsJournal(w, a, w');
  }

  // ---- Runs ---------------------------------------------------------------

  ghost predicate IsRun(states: seq<World>, actions: seq<Action>) {
    && |states| == |actions| + 1
    && Init(states[0])
    && (forall i :: 0 <= i < |actions| ==> Step(states[i], actions[i], states[i + 1]))
  }

  lemma {:induction false} RunKeepsInv(states: seq<World>, actions: seq<Action>, i: nat)
    requires IsRun(states, actions) && i < |states|
    ensures Inv(states[i])
    decreases i
  {
    if i == 0 {
      InitInv(states[0]);
    } else {
      RunKeepsInv(states, actions, i - 1);
      assert Step(states[i - 1], actions[i - 1], states[i]);
      StepKeepsInv(states[i - 1], actions[i - 1], states[i]);
    }
  }

  /** Lease safety: in no interleaving do two actors hold the same message. */
  lemma NoTwoHolders(states: seq<World>, actions: seq<Action>, i: nat, a: Actor, b: Actor, id: QueueId)
    requires IsRun(states, actions) && i < |states|
    requires (a, id) in states[i].held && (b, id) in states[i].held
    ensures a == b
    ensures id in states[i].spool.leased
  {
    RunKeepsInv(states, actions, i);
    SoleHolder(states[i], a, id);
  }

  lemma {:induction false} GoneOnward(states: seq<World>, actions: seq<Action>, i: nat, j: nat, id: QueueId)
    requires IsRun(states, actions) && i <= j < |states| && id in states[i].gone
    ensures id in states[j].gone
    decreases j
  {
    if i < j {
      GoneOnward(states, actions, i, j - 1, id);
      assert Step(states[j - 1], actions[j - 1], states[j]);
    }
  }

  lemma {:induction false} AcceptedOnward(states: seq<World>, actions: seq<Action>, i: nat, j: nat, id: QueueId)
    requires IsRun(states, actions) && i <= j < |states| && id in states[i].accepted
    ensures id in states[j].accepted
    decreases j
  {
    if i < j {
      AcceptedOnward(states, actions, i, j - 1, id);
      assert Step(states[j - 1], actions[j - 1], states[j]);
    }
  }

  /** A message removed or discarded is never claimed and never requeued again in the run. */
  lemma RemovedIsNeverClaimed(states: seq<World>, actions: seq<Action>, i: nat, j: nat, id: QueueId)
    requires IsRun(states, actions) && i <= j < |actions| && id in states[i].gone
    ensures id !in states[j].spool.index
    ensures actions[j].Claim? ==> id !in IdsOf(actions[j].batch)
    ensures actions[j].RequeueWork? && actions[j].id == id ==> !actions[j].ok
  {
    GoneOnward(states, actions, i, j, id);
    RunKeepsInv(states, actions, j);
    assert Step(states[j], actions[j], states[j + 1]);
    assert Dead(states[j].spool, id);
  }

  /**
   No second delivery: once the smarthost has accepted a message it is never handed out
   again, never requeued or discarded from under its holder, and if it has left its holder it
   has left the queue.
   */
  lemma AcceptedIsNeverOfferedAgain(states: seq<World>, actions: seq<Action>, i: nat, j: nat, id: QueueId)
    requires IsRun(states, actions) && i <= j < |actions| && id in states[i].accepted
    ensures actions[j].Claim? ==> id !in IdsOf(actions[j].batch)
    ensures actions[j].Accept? ==> actions[j].id != id
    ensures (actions[j].Release? || actions[j].GiveBack? || actions[j].Fail?) ==> actions[j].id != id
    ensures actions[j].TakeLease? && actions[j].id == id ==> id in states[j].gone
    ensures id !in states[j].spool.leased ==> id !in states[j].spool.index
  {
    AcceptedOnward(states, actions, i, j, id);
    RunKeepsInv(states, actions, j);
    assert Step(states[j], actions[j], states[j + 1]);
    var w := states[j];
    if id in w.gone {
      assert Dead(w.spool, id);
      assert (actions[j].Accept? || actions[j].Release? || actions[j].GiveBack? || actions[j].Fail?) ==>
               PhaseInv(w, (actions[j].who, actions[j].id));
    } else {
      var who :| Holds(w, who, id, Sent) || Holds(w, who, id, Ending(Delivered));
      SoleHolder(w, who, id);
    }
  }

  /** What the journal says of a live message that nobody holds: queued or deferred. */
  lemma JournalAgreesWithQueue(states: seq<World>, actions: seq<Action>, i: nat, id: QueueId)
    requires IsRun(states, actions) && i < |states|
    requires id in states[i].spool.index && id !in states[i].spool.leased && id in states[i].rows
    ensures Active(states[i].rows[id])
  {
    RunKeepsInv(states, actions, i);
    forall who
      ensures (who, id) !in states[i].held
    {
      HeldIsLeased(states[i], who, id);
    }
  }

  /** Requeue and Discard of a held message are refused and change nothing. */
  lemma HeldIsBusy(states: seq<World>, actions: seq<Action>, i: nat, who: Actor, id: QueueId)
    requires IsRun(states, actions) && i < |actions| && (who, id) in states[i].held
    ensures !(actions[i].TakeLease? && actions[i].id == id)
    ensures actions[i].Busy? ==> states[i + 1] == states[i]
  {
    RunKeepsInv(states, actions, i);
    SoleHolder(states[i], who, id);
    assert Step(states[i], actions[i], states[i + 1]);
  }
}
