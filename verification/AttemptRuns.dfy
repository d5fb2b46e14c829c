/**
 An attempt of the delivery manager, as the worker's part of a whole run: what is done for
 each fate, in the order it is done, is a path of the run's steps.
 */
module AttemptRuns {
  import opened Types
  import opened SpoolState
  import opened JournalClass
  import opened Runs
  import D = Delivery

  /** What the worker does for each fate. Accept stands for the smarthost's reply, which is no event of the manager. */
  ghost function ActionsOf(who: Actor, id: QueueId, fate: D.Fate): seq<Action> {
    match fate
    case MailDelivered => [Accept(who, id), JournalEnd(who, id, Delivered), Remove(who, id)]
    case Bounced(outcome) => [JournalEnd(who, id, outcome), Fail(who, id)]
    case Retried(_) => [JournalRetry(who, id), Release(who, id)]
    case HeldBack => [GiveBack(who, id)]
  }

  /** What the manager is seen doing when the worker takes this step. */
  ghost function Seen(a: Action): seq<D.Event> {
    match a
    case JournalEnd(_, id, outcome) => [D.Journalled(id, outcome)]
    case JournalRetry(_, id) => [D.Journalled(id, Temporary)]
    case Remove(_, id) => [D.RemovedFromSpool(id)]
    case Fail(_, id) => [D.SetAside(id)]
    case Release(_, id) => [D.ReturnedToQueue(id)]
    case GiveBack(_, id) => [D.PutBack(id)]
    case _ => []
  }

  ghost function SeenIn(actions: seq<Action>): seq<D.Event> {
    if actions == [] then [] else Seen(actions[0]) + SeenIn(actions[1..])
  }

  /** The report of a failure is nobody's step: it touches neither the spool nor the journal. */
  ghost function WithoutReport(events: seq<D.Event>): seq<D.Event> {
    if events != [] && events[|events| - 1].Reported? then events[..|events| - 1] else events
  }

  ghost predicate IsPath(ws: seq<World>, actions: seq<Action>) {
    |ws| == |actions| + 1 && forall i :: 0 <= i < |actions| ==> Step(ws[i], actions[i], ws[i + 1])
  }

  lemma TraceOfFate(who: Actor, meta: Meta, fate: D.Fate)
    ensures SeenIn(ActionsOf(who, meta.id, fate)) == WithoutReport(D.EventsOf(meta, fate))
  {
    var actions, events := ActionsOf(who, meta.id, fate), D.EventsOf(meta, fate);
    if |actions| == 3 {
      SeenInPair(actions[1], actions[2]);
      assert actions[1..] == [actions[1], actions[2]];
    } else if |actions| == 2 {
      SeenInPair(actions[0], actions[1]);
      assert actions == [actions[0], actions[1]];
    }
    if fate.Bounced? && meta.envelope.kind != Notification {
      assert events == [D.Journalled(meta.id, fate.outcome), D.SetAside(meta.id), D.Reported(meta.id)];
      assert events[..2] == [D.Journalled(meta.id, fate.outcome), D.SetAside(meta.id)];
    }
  }

  lemma SeenInPair(a: Action, b: Action)
    ensures SeenIn([a, b]) == Seen(a) + Seen(b)
  {
    assert [a, b][1..] == [b] && SeenIn([b]) == Seen(b);
  }

  /**
   Whatever fate a claimed message meets, and whatever its spool operation did, the worker's part
   of the run has exactly the steps the attempt took, in the attempt's order, and ends with the
   worker holding nothing; an accepted message is one whose fate is delivered.
   */
  lemma FateIsAPath(w: World, who: Actor, meta: Meta, fate: D.Fate, after: View) returns (ws: seq<World>)
    requires Holds(w, who, meta.id, Claimed) && D.FateStep(w.spool, after, meta.id, fate)
    requires fate.Bounced? ==> fate.outcome in {Permanent, Expired}
    ensures IsPath(ws, ActionsOf(who, meta.id, fate)) && ws[0] == w
    ensures ws[|ws| - 1].spool == after && (who, meta.id) !in ws[|ws| - 1].held
    ensures ws[|ws| - 1].accepted == if fate.MailDelivered? then w.accepted + {meta.id} else w.accepted
    ensures SeenIn(ActionsOf(who, meta.id, fate)) == WithoutReport(D.EventsOf(meta, fate))
  {
    var id := meta.id;
    TraceOfFate(who, meta, fate);
    match fate {
      case MailDelivered =>
        var sent := w.(held := w.held[(who, id) := Sent], accepted := w.accepted + {id});
        var ended := sent.(held := sent.held[(who, id) := Ending(Delivered)], rows := Runs.Journalled(w.rows, id, Delivered));
        ws := [w, sent, ended, ended.(spool := after, held := ended.held - {(who, id)}, gone := w.gone + {id})];
      case Bounced(outcome) =>
        var ended := w.(held := w.held[(who, id) := Ending(outcome)], rows := Runs.Journalled(w.rows, id, outcome));
        ws := [w, ended, ended.(spool := after, held := ended.held - {(who, id)})];
      case Retried(_) =>
        var retrying := w.(held := w.held[(who, id) := Retrying], rows := Runs.Journalled(w.rows, id, Temporary));
        ws := [w, retrying, retrying.(spool := after, held := retrying.held - {(who, id)})];
      case HeldBack =>
        ws := [w, w.(spool := after, held := w.held - {(who, id)})];
    }
  }
}
