/**
 The wake signal between committers and the dispatcher: a channel buffered by one, sent to
 without blocking after the message is indexed. No interleaving loses a message.
 */
module Wakeup {
  import opened Types

  // Where one commit stands.
  datatype CommitPhase = Indexed | Signalled

  // Where the dispatch loop stands.
  datatype Loop =
    | Scanning      // inside dispatch; every further batch is another scan
    | Waiting       // in the select of Run
    | Awake         // a signal or the ticker was consumed, the next scan has not started

  datatype World = World(
    commits: map<QueueId, CommitPhase>,   // every message indexed by a commit of this run
    seen: set<QueueId>,                   // those that were indexed when the last scan began
    pending: bool,                        // the channel holds a signal
    dispatcher: Loop)

  datatype Action =
    | IndexMessage(id: QueueId)
    | Send(id: QueueId)
    | Scan
    | FinishDispatch
    | TakeSignal
    | Tick

  ghost predicate Step(w: World, a: Action, w': World) {
    match a
    case IndexMessage(id) =>
      id !in w.commits && w' == w.(commits := w.commits[id := Indexed])
    case Send(id) =>
      // A send is dropped exactly when a signal is already pending.
      && id in w.commits && w.commits[id] == Indexed
      && w' == w.(commits := w.commits[id := Signalled], pending := true)
    case Scan =>
      && (w.dispatcher == Awake || w.dispatcher == Scanning)
      && w' == w.(seen := w.commits.Keys, dispatcher := Scanning)
    case FinishDispatch =>
      w.dispatcher == Scanning && w' == w.(dispatcher := Waiting)
    case TakeSignal =>
      w.dispatcher == Waiting && w.pending && w' == w.(pending := false, dispatcher := Awake)
    case Tick =>
      w.dispatcher == Waiting && w' == w.(dispatcher := Awake)
  }

  /** A message the last scan did not see has somebody who will make the dispatcher look again. */
  ghost predicate NothingLost(w: World) {
    && w.seen <= w.commits.Keys
    && (forall id :: id in w.commits && id !in w.seen ==>
                       w.pending || w.commits[id] == Indexed || w.dispatcher == Awake)
  }

  ghost predicate IsRun(states: seq<World>, actions: seq<Action>) {
    && |states| == |actions| + 1
    && states[0] == World(map[], {}, false, Awake)
    && (forall i :: 0 <= i < |actions| ==> Step(states[i], actions[i], states[i + 1]))
  }

  lemma {:induction false} NoLostWakeup(states: seq<World>, actions: seq<Action>, i: nat)
    requires IsRun(states, actions) && i < |states|
    ensures NothingLost(states[i])
    decreases i
  {
    if i > 0 {
      NoLostWakeup(states, actions, i - 1);
      assert Step(states[i - 1], actions[i - 1], states[i]);
    }
  }

  /**
   When every commit has returned and the dispatcher waits on an empty channel, the last scan
   began after every one of them had been indexed.
   */
  lemma QuietMeansSeen(states: seq<World>, actions: seq<Action>, i: nat)
    requires IsRun(states, actions) && i < |states|
    requires states[i].dispatcher == Waiting && !states[i].pending
    requires forall id :: id in states[i].commits ==> states[i].commits[id] == Signalled
    ensures states[i].seen == states[i].commits.Keys
  {
    NoLostWakeup(states, actions, i);
  }
}
