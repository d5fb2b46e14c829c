/**
 The delivery manager: a dispatcher that hands claimed messages to workers within each
 route's slots and pace, and an attempt that ends in exactly one fate.
 */
module Delivery {
  import opened Types
  import opened SpoolDisk
  import opened Batch
  import opened SpoolState
  import opened Spool
  import opened RateLimit
  import opened Smarthost
  import J = JournalClass

  // How long a message found behind a saturated route is put back for.
  const POLL_INTERVAL: Time := 5 * SECOND

  const CLAIM_BATCH_SIZE := 1000

  datatype Route = Route(maxConcurrent: int, ratePerMin: int)

  // How a message's turn with its holder ended.
  datatype Fate =
    | MailDelivered
    | Bounced(outcome: J.Class)
    | Retried(next: Time)
    | HeldBack

  // What was done about a message, in the order it was done.
  datatype Event =
    | Journalled(id: QueueId, outcome: J.Class)
    | RemovedFromSpool(id: QueueId)
    | SetAside(id: QueueId)
    | ReturnedToQueue(id: QueueId)
    | PutBack(id: QueueId)
    | Reported(id: QueueId)

  /** The configured retry schedule, walked by attempt and held at its last entry. */
  function Backoff(schedule: seq<Time>, attempts: int): (d: Time)
    requires schedule != []
    ensures d in schedule
    ensures 1 <= attempts <= |schedule| ==> d == schedule[attempts - 1]
    ensures attempts > |schedule| ==> d == schedule[|schedule| - 1]
  {
    var i := Max(attempts - 1, 0);
    if i >= |schedule| then schedule[|schedule| - 1] else schedule[i]
  }

  /** The next attempt after a temporary failure, never past the message's own expiry. */
  function RetryAt(schedule: seq<Time>, m: Meta, now: Time): Time
    requires schedule != []
  {
    Min(now + Backoff(schedule, m.attempts), m.expires)
  }

  /** Where hold puts a message back to. */
  function HoldUntil(m: Meta, now: Time, d: Time): Time {
    Min(now + d, m.expires)
  }

  /** A message as Release leaves it: one whose metadata could not be written waits a minute at least. */
  function Released(m: Meta, wall: Time, faulted: bool): Meta {
    if faulted then m.(nextAttempt := Max(m.nextAttempt, wall + RELEASE_RETRY_DELAY)) else m
  }

  // A write the history store was asked for, and whether it was made.
  datatype Entry = Entry(id: QueueId, outcome: J.Class, next: Option<Time>, written: bool)

  /** The history store, as far as an attempt needs it: a write may fail. */
  class Journal {
    var entries: seq<Entry>

    constructor ()
    {
      entries := [];
    }

    method RecordAttempt(id: QueueId, outcome: J.Class, next: Option<Time>) returns (ok: bool)
      modifies this
      ensures entries == old(entries) + [Entry(id, outcome, next, ok)]
    {
      ok := *;
      entries := entries + [Entry(id, outcome, next, ok)];
    }
  }

  /** Whoever is told about permanent failures. */
  class FailRecorder {
    var recorded: seq<(string, QueueId)>

    constructor ()
    {
      recorded := [];
    }

    method RecordFail(origin: string, id: QueueId)
      modifies this
      ensures recorded == old(recorded) + [(origin, id)]
    {
      recorded := recorded + [(origin, id)];
    }
  }

  class Manager {
    const spool: Spool
    const limiter: Limiter
    const journal: Journal
    const fails: FailRecorder
    const routes: map<string, Route>
    const schedule: seq<Time>

    var slots: map<string, int>              // occupied worker slots per route
    var running: map<QueueId, string>        // attempts in flight and the route each is on
    ghost var events: seq<Event>

    constructor (spool: Spool, routes: map<string, Route>, schedule: seq<Time>)
      requires spool.Valid() && spool.leased == {} && schedule != []
      requires forall r :: r in routes ==> 0 < routes[r].maxConcurrent
      ensures Valid() && this.spool == spool
    {
      this.spool := spool;
      this.routes := routes;
      this.schedule := schedule;
      limiter := new Limiter();
      journal := new Journal();
      fails := new FailRecorder();
      slots := map r | r in routes :: 0;
      running := map[];
      events := [];
    }

    ghost predicate Valid()
      reads this, spool, spool.disk, spool.failed
    {
      && spool.Valid()
      && schedule != []
      && SlotsInv(slots, running, routes)
      && InFlight(running, spool.leased, spool.index)
    }

    ghost function Standing(): Books
      reads this, spool
    {
      Books(spool.index, spool.leased, running)
    }

    /** What a pass over the queue has come to since b, and what has stopped it where it stopped. */
    ghost predicate PassSoFar(fates: map<QueueId, Placement>, pending: seq<Meta>, saturated: set<string>, full: set<string>,
                              now: Time, b: Books)
      reads this, spool, limiter
    {
      && Dispatched(fates, pending, now, saturated, full, b, Standing())
      && AllStopped(full, slots, limiter.buckets, routes, now)
      && FailedByRoute(fates, b.index, routes)
    }

    /** A pass between two batches, with so many messages still due and unclaimed on routes that are not saturated. */
    ghost predicate Passing(fates: map<QueueId, Placement>, saturated: set<string>, now: Time, b: Books, due: nat,
                            patience: Option<nat>, asked: nat, ok: bool)
      reads this, spool, spool.disk, spool.failed, limiter
    {
      && Valid() && PassSoFar(fates, [], {}, saturated, now, b) && Turns(patience, 0, asked, |fates|, ok)
      && due == |Waiting(Standing(), now, saturated)|
    }

    /** A pass has not begun. */
    lemma NothingPassed(now: Time, patience: Option<nat>)
      requires Valid()
      ensures Passing(map[], {}, now, Standing(), |Waiting(Standing(), now, {})|, patience, 0, true)
    {
    }

    /** A pass in the middle of a batch, of which these messages are still pending. */
    ghost predicate Placing(fates: map<QueueId, Placement>, batch: seq<Meta>, pending: seq<Meta>, saturated: set<string>,
                            full: set<string>, now: Time, b: Books, patience: Option<nat>, asked: nat, asked': nat, ok: bool)
      reads this, spool, spool.disk, spool.failed, limiter
    {
      && Valid() && PassSoFar(fates, pending, saturated, full, now, b) && |pending| <= |batch|
      && var n := |batch| - |pending|;
      fates.Keys == IdsOf(batch[..n]) && |fates| == n && Turns(patience, asked, asked', n, ok)
    }

    /** The batch is dealt with: all of it placed, or, cancelled, the rest as it was. */
    ghost predicate BatchDone(fates: map<QueueId, Placement>, batch: seq<Meta>, saturated: set<string>, full: set<string>,
                              now: Time, b: Books, patience: Option<nat>, asked: nat, asked': nat, ok: bool)
      reads this, spool, spool.disk, spool.failed, limiter
    {
      && Valid() && PassSoFar(fates, [], saturated, full, now, b)
      && Turns(patience, asked, asked', |fates|, ok) && (ok ==> fates.Keys == IdsOf(batch))
    }

    /** Put a claimed message back for a while; it was never offered, so no attempt is spent. */
    method Hold(meta: Meta, d: Time, now: Time)
      requires spool.Valid()
      modifies this`events, spool`index, spool`leased
      ensures spool.Valid()
      ensures spool.index == Rescheduled(old(spool.index), meta.id, HoldUntil(meta, now, d))
      ensures spool.leased == old(spool.leased) - {meta.id}
      ensures meta.id in spool.index ==>
                spool.index[meta.id].nextAttempt == if now + d <= meta.expires then now + d else meta.expires
      ensures DeferStep(old(spool.View()), spool.View(), meta.id)
      ensures events == old(events) + [PutBack(meta.id)]
    {
      var until := now + d;
      if until > meta.expires {
        until := meta.expires;
      }
      spool.Defer(meta.id, until);
      events := events + [PutBack(meta.id)];
    }

    /** The journal write and its place among what was done; each of the next three does the same. */
    method JournalAttempt(id: QueueId, outcome: J.Class, next: Option<Time>)
      modifies this`events, journal
      ensures events == old(events) + [Journalled(id, outcome)]
      ensures AskedFor(old(journal.entries), journal.entries, id, outcome, next)
    {
      var written := journal.RecordAttempt(id, outcome, next);
      events := events + [Journalled(id, outcome)];
    }

    method RemoveMessage(id: QueueId)
      requires spool.Valid()
      modifies this`events, spool`index, spool`indexBytes, spool`leased, spool.disk
      ensures spool.Valid() && spool.index == old(spool.index) - {id} && spool.leased == old(spool.leased) - {id}
      ensures RemoveStep(old(spool.View()), spool.View(), id)
      ensures events == old(events) + [RemovedFromSpool(id)]
    {
      var err := spool.Remove(id);
      events := events + [RemovedFromSpool(id)];
    }

    method SetMessageAside(meta: Meta, reason: string, now: Time)
      requires spool.Valid() && CopyOf(meta, spool.index)
      modifies this`events, spool`index, spool`indexBytes, spool`leased, spool.disk, spool.failed`index, spool.failed`bytes
      ensures spool.Valid() && meta.id in spool.failed.index
      ensures spool.index == old(spool.index) - {meta.id} && spool.leased == old(spool.leased) - {meta.id}
      ensures FailStep(old(spool.View()), spool.View(), meta.id)
      ensures events == old(events) + [SetAside(meta.id)]
    {
      var err := spool.Fail(meta, reason, now);
      events := events + [SetAside(meta.id)];
    }

    method ReturnMessage(meta: Meta, wall: Time)
      requires spool.Valid() && CopyOf(meta, spool.index)
      modifies this`events, spool`index, spool`indexBytes, spool`leased, spool.disk
      ensures spool.Valid() && spool.leased == old(spool.leased) - {meta.id}
      ensures spool.index == old(spool.index)[meta.id := Released(meta, wall, spool.disk.faults != old(spool.disk.faults))]
      ensures ReleaseStep(old(spool.View()), spool.View(), meta.id)
      ensures events == old(events) + [ReturnedToQueue(meta.id)]
    {
      var err := spool.Release(meta, wall);
      events := events + [ReturnedToQueue(meta.id)];
    }

    /** The terminal path: journal first, then set aside, then report unless it is a notification. */
    method FailMessage(meta: Meta, outcome: J.Class, reason: string, now: Time)
      requires spool.Valid() && CopyOf(meta, spool.index)
      modifies this`events, spool`index, spool`indexBytes, spool`leased, spool.disk, spool.failed`index, spool.failed`bytes,
               journal, fails
      ensures spool.Valid() && meta.id in spool.failed.index
      ensures spool.index == old(spool.index) - {meta.id} && spool.leased == old(spool.leased) - {meta.id}
      ensures FailStep(old(spool.View()), spool.View(), meta.id)
      ensures events == old(events) + EventsOf(meta, Bounced(outcome))
      ensures Booked(meta, Bounced(outcome), old(journal.entries), journal.entries, old(fails.recorded), fails.recorded)
      ensures fails.recorded == if meta.envelope.kind.Notification? then old(fails.recorded)
                                else old(fails.recorded) + [(meta.envelope.origin, meta.id)]
    {
      JournalAttempt(meta.id, outcome, None);
      SetMessageAside(meta, reason, now);
      if meta.envelope.kind != Notification {
        fails.RecordFail(meta.envelope.origin, meta.id);
        events := events + [Reported(meta.id)];
      }
    }

    /** A message that could not even be offered. */
    method FailUnsendable(meta: Meta, reason: string, now: Time)
      requires spool.Valid() && CopyOf(meta, spool.index)
      modifies this`events, spool`index, spool`indexBytes, spool`leased, spool.disk, spool.failed`index, spool.failed`bytes,
               journal, fails
      ensures spool.Valid() && meta.id in spool.failed.index
      ensures spool.index == old(spool.index) - {meta.id} && spool.leased == old(spool.leased) - {meta.id}
      ensures FailStep(old(spool.View()), spool.View(), meta.id)
      ensures events == old(events) + EventsOf(meta, Bounced(J.Permanent))
      ensures Booked(meta, Bounced(J.Permanent), old(journal.entries), journal.entries, old(fails.recorded), fails.recorded)
    {
      FailMessage(meta.(attempts := meta.attempts + 1), J.Permanent, reason, now);
    }

    /** deferRetry: journal the temporary failure, then return the message with its backoff. */
    method DeferRetry(meta: Meta, now: Time, wall: Time)
      requires spool.Valid() && CopyOf(meta, spool.index) && schedule != []
      modifies this`events, spool`index, spool`indexBytes, spool`leased, spool.disk, journal
      ensures spool.Valid() && spool.leased == old(spool.leased) - {meta.id}
      ensures ReleaseStep(old(spool.View()), spool.View(), meta.id)
      ensures events == old(events) + EventsOf(meta, Retried(RetryAt(schedule, meta, now)))
      ensures Booked(meta, Retried(RetryAt(schedule, meta, now)), old(journal.entries), journal.entries,
                     fails.recorded, fails.recorded)
      ensures meta.id in spool.index && spool.index - {meta.id} == old(spool.index) - {meta.id}
      ensures var next := Min(now + Backoff(schedule, meta.attempts), meta.expires);
              && AskedFor(old(journal.entries), journal.entries, meta.id, J.Temporary, Some(next))
              && spool.index[meta.id] == Released(meta.(nextAttempt := next, lastError := "temporary failure"), wall,
                                                  spool.disk.faults != old(spool.disk.faults))
    {
      var delay := Backoff(schedule, meta.attempts);
      var next := now + delay;
      if next > meta.expires {
        next := meta.expires;
      }
      JournalAttempt(meta.id, J.Temporary, Some(next));
      ReturnMessage(meta.(nextAttempt := next, lastError := "temporary failure"), wall);
    }

    /** record: turn one attempt's outcome into the message's fate. */
    method Record(meta: Meta, o: Outcome, check: Time, now: Time, wall: Time)
      requires spool.Valid() && CopyOf(meta, spool.index) && schedule != []
      modifies this`events, spool`index, spool`indexBytes, spool`leased, spool.disk, spool.failed`index, spool.failed`bytes,
               journal, fails
      ensures spool.Valid()
      ensures spool.leased == old(spool.leased) - {meta.id}
      ensures spool.index - {meta.id} == old(spool.index) - {meta.id}
      ensures var fate := FateOf(schedule, meta, o, check, now);
              && (meta.id in spool.index <==> fate.Retried?)
              && (meta.id in spool.index ==> spool.index[meta.id].attempts == meta.attempts)
              && FateStep(old(spool.View()), spool.View(), meta.id, fate)
              && events == old(events) + EventsOf(meta, fate)
              && Booked(meta, fate, old(journal.entries), journal.entries, old(fails.recorded), fails.recorded)
      ensures o.Fine? || o.QuitError? || o.PartialError? ==>
                meta.id !in spool.index && AskedFor(old(journal.entries), journal.entries, meta.id, J.Delivered, None)
      ensures o.PermError? ==>
                && meta.id !in spool.index && meta.id in spool.failed.index
                && AskedFor(old(journal.entries), journal.entries, meta.id, J.Permanent, None)
      ensures o.TempError? || o.AuthError? ==> (meta.id in spool.index <==> check <= meta.expires)
      ensures (o.TempError? || o.AuthError?) && meta.expires < check ==>
                && meta.id in spool.failed.index
                && AskedFor(old(journal.entries), journal.entries, meta.id, J.Expired, None)
      ensures (o.TempError? || o.AuthError?) && check <= meta.expires ==>
                var next := Min(now + Backoff(schedule, meta.attempts), meta.expires);
                && AskedFor(old(journal.entries), journal.entries, meta.id, J.Temporary, Some(next))
                && spool.index[meta.id] == Released(meta.(nextAttempt := next, lastError := "temporary failure"), wall,
                                                    spool.disk.faults != old(spool.disk.faults))
    {
      if MeansDelivered(o) {
        JournalAttempt(meta.id, J.Delivered, None);
        RemoveMessage(meta.id);
      } else if o.PermError? {
        FailMessage(meta, J.Permanent, "permanent failure", wall);
      } else if check > meta.expires {
        FailMessage(meta, J.Expired, "expired in queue", wall);
      } else {
        DeferRetry(meta, now, wall);
      }
    }

    /**
     attempt and send: one trip to the smarthost. The fate is settled by whether the body could be
     opened, what the session came to, a cancellation and the expiry check, and by nothing else.
     Whatever happens the lease ends; once the smarthost has accepted the body the message is out
     of the queue, cancelled or not.
     */
    method Attempt(meta: Meta, s: Session, opening: Opening, readable: bool, complete: bool, cancelled: bool,
                   check: Time, now: Time, wall: Time) returns (ghost fate: Fate)
      requires spool.Valid() && CopyOf(meta, spool.index) && schedule != []
      modifies this`events, spool`index, spool`indexBytes, spool`leased, spool.disk, spool.failed`index, spool.failed`bytes,
               journal, fails, s
      ensures spool.Valid()
      ensures spool.leased == old(spool.leased) - {meta.id}
      ensures spool.index - {meta.id} == old(spool.index) - {meta.id}
      ensures old(s.log) <= s.log && DataIsSafe(s.log[|old(s.log)|..], meta.envelope.to)
      ensures var said, opened' := s.log[|old(s.log)|..], readable && BodyPath(meta.id) in old(spool.disk.files);
              && (said != [] <==> opened' && opening.Ready?)
              && fate == Turn(schedule, meta, if opened' then Some(OutcomeOf(opening, said, meta.envelope.to)) else None,
                              cancelled, check, now)
              && (fate.MailDelivered? <==> Accepted(said))
              && (BodyTaken(said) ==> (fate.MailDelivered? <==> complete))
      ensures Settled(meta, fate, old(events), events, old(journal.entries), journal.entries,
                      old(fails.recorded), fails.recorded, old(spool.View()), spool.View(), now)
      ensures meta.envelope.kind.Notification? ==> fails.recorded == old(fails.recorded)
      ensures !meta.envelope.kind.Notification? && meta.id !in spool.index && !fate.MailDelivered? ==>
                fails.recorded == old(fails.recorded) + [(meta.envelope.origin, meta.id)]
      ensures !(readable && BodyPath(meta.id) in old(spool.disk.files)) ==>
                && meta.id !in spool.index && meta.id in spool.failed.index
                && AskedFor(old(journal.entries), journal.entries, meta.id, J.Permanent, None)
      ensures readable && BodyPath(meta.id) in old(spool.disk.files) ==>
                var o := OutcomeOf(opening, s.log[|old(s.log)|..], meta.envelope.to);
                && (o.Fine? || o.QuitError? || o.PartialError? ==>
                      meta.id !in spool.index && AskedFor(old(journal.entries), journal.entries, meta.id, J.Delivered, None))
                && (cancelled && !o.Fine? && !o.QuitError? && !o.PartialError? ==>
                      && meta.id in spool.index && journal.entries == old(journal.entries)
                      && spool.index[meta.id] == old(spool.index)[meta.id].(nextAttempt := Min(now, meta.expires)))
                && (o.PermError? && !cancelled ==>
                      && meta.id !in spool.index && meta.id in spool.failed.index
                      && AskedFor(old(journal.entries), journal.entries, meta.id, J.Permanent, None))
                && ((o.TempError? || o.AuthError?) && !cancelled ==> (meta.id in spool.index <==> check <= meta.expires))
                && ((o.TempError? || o.AuthError?) && !cancelled && meta.expires < check ==>
                      && meta.id in spool.failed.index
                      && AskedFor(old(journal.entries), journal.entries, meta.id, J.Expired, None))
                && ((o.TempError? || o.AuthError?) && !cancelled && check <= meta.expires ==>
                      var next := Min(now + Backoff(schedule, meta.attempts + 1), meta.expires);
                      && AskedFor(old(journal.entries), journal.entries, meta.id, J.Temporary, Some(next))
                      && spool.index[meta.id] ==
                         Released(meta.(attempts := meta.attempts + 1, nextAttempt := next, lastError := "temporary failure"),
                                  wall, spool.disk.faults != old(spool.disk.faults)))
    {
      if BodyPath(meta.id) !in spool.disk.files || !readable {
        assert s.log[|s.log|..] == [];
        FailUnsendable(meta, "message body unreadable", wall);
        return Bounced(J.Permanent);
      }
      fate := Send(meta, s, opening, complete, cancelled, check, now, wall);
    }

    /** An attempt whose body could be opened. */
    method Send(meta: Meta, s: Session, opening: Opening, complete: bool, cancelled: bool,
                check: Time, now: Time, wall: Time) returns (ghost fate: Fate)
      requires spool.Valid() && CopyOf(meta, spool.index) && schedule != []
      modifies this`events, spool`index, spool`indexBytes, spool`leased, spool.disk, spool.failed`index, spool.failed`bytes,
               journal, fails, s
      ensures spool.Valid()
      ensures spool.leased == old(spool.leased) - {meta.id}
      ensures spool.index - {meta.id} == old(spool.index) - {meta.id}
      ensures old(s.log) <= s.log && DataIsSafe(s.log[|old(s.log)|..], meta.envelope.to)
      ensures var said := s.log[|old(s.log)|..];
              && (said != [] <==> opening.Ready?)
              && fate == Turn(schedule, meta, Some(OutcomeOf(opening, said, meta.envelope.to)), cancelled, check, now)
              && (fate.MailDelivered? <==> Accepted(said))
              && (BodyTaken(said) ==> (fate.MailDelivered? <==> complete))
      ensures Settled(meta, fate, old(events), events, old(journal.entries), journal.entries,
                      old(fails.recorded), fails.recorded, old(spool.View()), spool.View(), now)
      ensures Ruled(schedule, meta, OutcomeOf(opening, s.log[|old(s.log)|..], meta.envelope.to), cancelled, check, now, wall, spool.disk.faults != old(spool.disk.faults),
                    old(spool.index), spool.index, spool.failed.index.Keys, old(journal.entries), journal.entries)
    {
      var o := Deliver(s, opening, meta.envelope.from, meta.envelope.to, complete);
      fate := Turn(schedule, meta, Some(o), cancelled, check, now);
      Settle(meta, o, cancelled, check, now, wall);
    }

    /** What follows once the outcome is known: back to the queue when cancelled, else its record. */
    method Settle(meta: Meta, o: Outcome, cancelled: bool, check: Time, now: Time, wall: Time)
      requires spool.Valid() && CopyOf(meta, spool.index) && schedule != []
      modifies this`events, spool`index, spool`indexBytes, spool`leased, spool.disk, spool.failed`index, spool.failed`bytes,
               journal, fails
      ensures spool.Valid()
      ensures spool.leased == old(spool.leased) - {meta.id}
      ensures spool.index - {meta.id} == old(spool.index) - {meta.id}
      ensures Settled(meta, Turn(schedule, meta, Some(o), cancelled, check, now), old(events), events,
                      old(journal.entries), journal.entries, old(fails.recorded), fails.recorded,
                      old(spool.View()), spool.View(), now)
      ensures Ruled(schedule, meta, o, cancelled, check, now, wall, spool.disk.faults != old(spool.disk.faults),
                    old(spool.index), spool.index, spool.failed.index.Keys, old(journal.entries), journal.entries)
    {
      if !MeansDelivered(o) && cancelled {
        Hold(meta, 0, now);
        return;
      }
      Record(meta.(attempts := meta.attempts + 1), o, check, now, wall);
    }

    /**
     dispatchOne: what becomes of a claimed message is Choice, unless the context reports a
     cancellation first; then it is left to the caller.
     */
    method DispatchOne(meta: Meta, saturated: set<string>, now: Time, patience: Option<nat>, asked: nat)
        returns (placed: Option<Placement>, full: set<string>, asked': nat)
      requires Valid() && CopyOf(meta, spool.index) && meta.id in spool.leased && meta.id !in running
      requires AllStopped(saturated, slots, limiter.buckets, routes, now)
      modifies this`events, this`slots, this`running, spool`index, spool`indexBytes, spool`leased,
               spool.disk, spool.failed`index, spool.failed`bytes, journal, fails, limiter
      ensures Valid() && AllStopped(full, slots, limiter.buckets, routes, now)
      ensures placed.None? <==> Cancelled(patience, asked) || (meta.envelope.route in routes && Cancelled(patience, asked + 1))
      ensures Turns(patience, asked, asked', if placed.Some? then 1 else 0, placed.Some?)
      ensures placed.None? ==> Standing() == old(Standing()) && full == saturated
      ensures placed.Some? ==> Placed(meta, placed.value, saturated, full, old(Standing()), Standing())
      ensures placed.Some? ==> placed.value == Choice(meta.envelope.route, old(slots), old(limiter.buckets), routes, now)
      ensures placed == Some(ToHold) ==>
                spool.index == Rescheduled(old(spool.index), meta.id,
                  HoldUntil(meta, now, HoldFor(meta.envelope.route, old(slots), old(limiter.buckets), routes, now)))
    {
      if Cancelled(patience, asked) {
        return None, saturated, asked;
      }
      if meta.envelope.route !in routes {
        FailUnknownRoute(meta, saturated, now);
        return Some(ToFailed), saturated, asked + 1;
      }
      if Cancelled(patience, asked + 1) {
        return None, saturated, asked;
      }
      var p;
      p, full := StartOrHold(meta, saturated, now);
      placed, asked' := Some(p), asked + 2;
    }

    /** The rest of dispatchOne, on a route that is configured. */
    method StartOrHold(meta: Meta, saturated: set<string>, now: Time) returns (p: Placement, full: set<string>)
      requires Valid() && meta.id in spool.index && meta.id in spool.leased && meta.id !in running
      requires meta.envelope.route in routes
      requires AllStopped(saturated, slots, limiter.buckets, routes, now)
      modifies this`events, this`slots, this`running, spool`index, spool`leased, limiter
      ensures Valid() && AllStopped(full, slots, limiter.buckets, routes, now)
      ensures Placed(meta, p, saturated, full, old(Standing()), Standing())
      ensures p == Choice(meta.envelope.route, old(slots), old(limiter.buckets), routes, now)
      ensures p == ToHold ==>
                spool.index == Rescheduled(old(spool.index), meta.id,
                  HoldUntil(meta, now, HoldFor(meta.envelope.route, old(slots), old(limiter.buckets), routes, now)))
    {
      var route := meta.envelope.route;
      if slots[route] >= routes[route].maxConcurrent {
        // Never block for a slot.
        full := saturated + {route};
        HoldBack(meta, POLL_INTERVAL, saturated, now);
        return ToHold, full;
      }
      var wait, ok := StartPaced(meta, saturated, now);
      if !ok {
        full := saturated + {route};
        HoldBack(meta, wait, saturated, now);
        return ToHold, full;
      }
      p, full := ToWorker, saturated;
    }

    /**
     dispatch: batch after batch until a short one. When it is not cancelled, every due message
     still unclaimed is on a route found without a slot or paced in this pass; it can be cancelled
     only after as many answers of the context as that takes.
     */
    method Dispatch(now: Time, patience: Option<nat>)
        returns (ok: bool, saturated: set<string>, ghost fates: map<QueueId, Placement>)
      requires Valid()
      modifies this`events, this`slots, this`running, spool`index, spool`indexBytes, spool`leased,
               spool.disk, spool.failed`index, spool.failed`bytes, journal, fails, limiter
      ensures Valid()
      ensures PassSoFar(fates, [], {}, saturated, now, old(Standing()))
      ensures spool.leased == old(spool.leased) + (running.Keys - old(running.Keys))
      ensures ok ==> Waiting(Standing(), now, saturated) == {}
      ensures ok ==> forall id :: id in spool.index && id !in spool.leased ==>
                now < spool.index[id].nextAttempt || spool.index[id].envelope.route in saturated
      ensures forall id :: id in fates ==>
                id in old(spool.index) && id !in old(spool.leased) && old(spool.index)[id].nextAttempt <= now
      ensures !ok ==> Cancelled(patience, 2 * |fates| + 1)
      ensures patience.Some? ==> |fates| <= patience.value
    {
      ghost var b := Standing();
      var asked;
      ghost var due;
      ok, saturated, fates, due, asked := DrainDue(now, b, patience);
      NoLeaseLeaks(fates, now, {}, saturated, b, Standing());
      OnlyDueWait(b, now, {}, fates.Keys);
      if ok {
        NoneWaiting(Standing(), now, saturated);
      }
    }

    method DrainDue(now: Time, ghost b: Books, patience: Option<nat>)
        returns (ok: bool, saturated: set<string>, ghost fates: map<QueueId, Placement>, ghost due: nat, asked: nat)
      requires Valid() && b == Standing()
      modifies this`events, this`slots, this`running, spool`index, spool`indexBytes, spool`leased,
               spool.disk, spool.failed`index, spool.failed`bytes, journal, fails, limiter
      ensures Passing(fates, saturated, now, b, due, patience, asked, ok) && (ok ==> due == 0)
    {
      var more := true;
      ok, saturated, fates, asked := true, {}, map[], 0;
      due := |Waiting(b, now, saturated)|;
      NothingPassed(now, patience);
      while more
        invariant Passing(fates, saturated, now, b, due, patience, asked, ok)
        invariant (more ==> ok) && (!more && ok ==> due == 0)
        decreases more, due
      {
        more, ok, saturated, fates, due, asked := DispatchMore(saturated, now, fates, b, due, patience, asked);
      }
    }

    method DispatchMore(saturated: set<string>, now: Time, ghost fates: map<QueueId, Placement>, ghost b: Books,
                        ghost due: nat, patience: Option<nat>, asked: nat)
        returns (more: bool, ok: bool, full: set<string>, ghost fates': map<QueueId, Placement>, ghost due': nat, asked': nat)
      requires Passing(fates, saturated, now, b, due, patience, asked, true)
      modifies this`events, this`slots, this`running, spool`index, spool`indexBytes, spool`leased,
               spool.disk, spool.failed`index, spool.failed`bytes, journal, fails, limiter
      ensures Passing(fates', full, now, b, due', patience, asked', ok)
      ensures (more ==> ok && due' < due) && (!more && ok ==> due' == 0)
    {
      ghost var c := Standing();
      var batch;
      ghost var placed;
      batch, ok, full, placed, asked' := DispatchBatch(saturated, now, patience, asked);
      DispatchedTwice(fates, placed, now, {}, saturated, full, b, c, Standing());
      FailedByRouteTwice(fates, placed, saturated, full, now, b, c, Standing(), {}, routes);
      FewerWaiting(placed, now, saturated, full, c, Standing());
      fates' := fates + placed;
      TogetherAsMany(fates, placed);
      TurnsOn(patience, 0, asked, asked', |fates|, |placed|, ok);
      due' := |Waiting(Standing(), now, full)|;
      more := ok && |batch| >= CLAIM_BATCH_SIZE;
      if more {
        assert batch[0].id in IdsOf(batch);
      }
    }

    /** One claim and its placing. */
    method DispatchBatch(saturated: set<string>, now: Time, patience: Option<nat>, asked: nat)
        returns (batch: seq<Meta>, done: bool, full: set<string>, ghost fates: map<QueueId, Placement>, asked': nat)
      requires Valid() && AllStopped(saturated, slots, limiter.buckets, routes, now)
      modifies this`events, this`slots, this`running, spool`index, spool`indexBytes, spool`leased,
               spool.disk, spool.failed`index, spool.failed`bytes, journal, fails, limiter
      ensures BatchDone(fates, batch, saturated, full, now, old(Standing()), patience, asked, asked', done)
      ensures done && |batch| < CLAIM_BATCH_SIZE ==> fates.Keys == Waiting(old(Standing()), now, saturated)
    {
      ghost var b := Standing();
      var skip := (route: string) => route in saturated;
      batch := spool.ClaimBatch(now, CLAIM_BATCH_SIZE, skip);
      ClaimIsPending(b, now, saturated, skip, CLAIM_BATCH_SIZE, batch);
      assert batch[..0] == [] && IdsOf([]) == {};
      done, full, fates, asked' := PlaceBatch(batch, saturated, now, b, patience, asked);
    }

    method PlaceBatch(batch: seq<Meta>, saturated: set<string>, now: Time, ghost b: Books, patience: Option<nat>, asked: nat)
        returns (done: bool, full: set<string>, ghost fates: map<QueueId, Placement>, asked': nat)
      requires InFlight(b.running, b.leased, b.index) && IdsOf(batch) <= Waiting(b, now, saturated)
      requires Placing(map[], batch, batch, saturated, saturated, now, b, patience, asked, asked, true)
      modifies this`events, this`slots, this`running, spool`index, spool`indexBytes, spool`leased,
               spool.disk, spool.failed`index, spool.failed`bytes, journal, fails, limiter
      ensures BatchDone(fates, batch, saturated, full, now, b, patience, asked, asked', done)
    {
      done, full, fates, asked' := true, saturated, map[], asked;
      var i := 0;
      assert batch[0..] == batch;
      while i < |batch| && done
        invariant 0 <= i <= |batch| && (done || i < |batch|)
        invariant Placing(fates, batch, batch[i..], saturated, full, now, b, patience, asked, asked', done)
        decreases |batch| - i, done
      {
        done, full, fates, asked' := PlaceNext(batch, i, saturated, full, now, fates, b, patience, asked, asked');
        i := if done then i + 1 else i;
      }
      // What was claimed and not placed would stay leased until a restart; nothing, unless cancelled.
      GiveBack(batch, i, now, fates, saturated, full, b, patience, asked, asked', done);
    }

    method PlaceNext(batch: seq<Meta>, i: nat, ghost saturated: set<string>, full: set<string>, now: Time,
                     ghost fates: map<QueueId, Placement>, ghost b: Books, patience: Option<nat>, ghost start: nat, asked: nat)
        returns (ok: bool, full': set<string>, ghost fates': map<QueueId, Placement>, asked': nat)
      requires i < |batch| && IdsOf(batch) <= Waiting(b, now, saturated)
      requires Placing(fates, batch, batch[i..], saturated, full, now, b, patience, start, asked, true)
      modifies this`events, this`slots, this`running, spool`index, spool`indexBytes, spool`leased,
               spool.disk, spool.failed`index, spool.failed`bytes, journal, fails, limiter
      ensures Placing(fates', batch, batch[if ok then i + 1 else i..], saturated, full', now, b, patience, start, asked', ok)
    {
      FirstOf(batch, i);
      assert batch[..|batch| - |batch[i..]|] == batch[..i];
      ok, full', fates', asked' := PlaceOne(batch[i], batch[i..], saturated, full, now, fates, b, patience, asked);
      TurnsOn(patience, start, asked, asked', i, if ok then 1 else 0, ok);
      assert ok ==> batch[..|batch| - |batch[i + 1..]|] == batch[..i + 1];
    }

    method GiveBack(batch: seq<Meta>, first: nat, now: Time, ghost fates: map<QueueId, Placement>,
                    ghost saturated: set<string>, ghost full: set<string>, ghost b: Books,
                    ghost patience: Option<nat>, ghost asked: nat, ghost asked': nat, ghost ok: bool)
      requires first <= |batch| && InFlight(b.running, b.leased, b.index) && (ok ==> first == |batch|)
      requires Placing(fates, batch, batch[first..], saturated, full, now, b, patience, asked, asked', ok)
      modifies spool`index, spool`leased
      ensures BatchDone(fates, batch, saturated, full, now, b, patience, asked, asked', ok)
    {
      assert ok ==> batch[..|batch| - |batch[first..]|] == batch;
      ReleaseFrom(batch, first, now, fates, saturated, full, b);
      StillInFlight(fates, now, saturated, full, b, Standing());
    }

    method PlaceOne(meta: Meta, ghost pending: seq<Meta>, ghost saturated: set<string>, full: set<string>, now: Time,
                    ghost fates: map<QueueId, Placement>, ghost b: Books, patience: Option<nat>, asked: nat)
        returns (ok: bool, full': set<string>, ghost fates': map<QueueId, Placement>, asked': nat)
      requires Valid() && pending != [] && pending[0] == meta
      requires PassSoFar(fates, pending, saturated, full, now, b)
      requires meta.id in Waiting(b, now, saturated)
      modifies this`events, this`slots, this`running, spool`index, spool`indexBytes, spool`leased,
               spool.disk, spool.failed`index, spool.failed`bytes, journal, fails, limiter
      ensures Valid()
      ensures fates'.Keys == if ok then fates.Keys + {meta.id} else fates.Keys
      ensures PassSoFar(fates', if ok then pending[1..] else pending, saturated, full', now, b)
      ensures |fates'| == |fates| + (if ok then 1 else 0)
      ensures Turns(patience, asked, asked', if ok then 1 else 0, ok)
    {
      ghost var c := Standing();
      assert meta in pending && Pending(meta, b, c);
      var placed;
      placed, full', asked' := DispatchOne(meta, full, now, patience, asked);
      ok := placed.Some?;
      fates' := Noted(fates, pending, placed, now, saturated, full, full', b, c, Standing(), routes);
    }

    /** Everything a cancelled pass had claimed and not placed goes back as it was. */
    method ReleaseFrom(batch: seq<Meta>, first: nat, now: Time, ghost fates: map<QueueId, Placement>,
                       ghost saturated: set<string>, ghost full: set<string>, ghost b: Books)
      requires spool.Valid() && first <= |batch|
      requires Dispatched(fates, batch[first..], now, saturated, full, b, Standing())
      modifies spool`index, spool`leased
      ensures spool.Valid()
      ensures Dispatched(fates, [], now, saturated, full, b, Standing())
    {
      ghost var c, rest := Standing(), batch[first..];
      for i := first to |batch|
        invariant spool.Valid() && c == Standing()
        invariant rest == batch[i..] && Dispatched(fates, rest, now, saturated, full, b, c)
      {
        ReleaseOne(batch[i]);
        FirstOf(batch, i);
        ReleasedIsUntouched(fates, rest, now, saturated, full, b, c);
        c, rest := Standing(), rest[1..];
      }
    }

    method ReleaseOne(meta: Meta)
      requires spool.Valid()
      modifies spool`index, spool`leased
      ensures spool.Valid()
      ensures Standing() == old(Standing()).(index := Rescheduled(old(spool.index), meta.id, meta.nextAttempt),
                                             leased := old(spool.leased) - {meta.id})
    {
      spool.Defer(meta.id, meta.nextAttempt);
    }

    /** A worker: one attempt, then the slot goes back. */
    method Work(meta: Meta, s: Session, opening: Opening, readable: bool, complete: bool, cancelled: bool,
                check: Time, now: Time, wall: Time)
      requires Valid() && CopyOf(meta, spool.index) && meta.id in running
      modifies this`events, this`slots, this`running, spool`index, spool`indexBytes, spool`leased,
               spool.disk, spool.failed`index, spool.failed`bytes, journal, fails, s
      ensures Valid() && running == old(running) - {meta.id}
      ensures spool.leased == old(spool.leased) - {meta.id}
      ensures spool.index - {meta.id} == old(spool.index) - {meta.id}
    {
      ghost var index, leased := spool.index, spool.leased;
      ghost var fate := Attempt(meta, s, opening, readable, complete, cancelled, check, now, wall);
      OthersInFlight(running, leased, index, spool.leased, spool.index, meta.id);
      FreeSlot(meta.id);
    }

    method FreeSlot(id: QueueId)
      requires SlotsInv(slots, running, routes) && id in running
      modifies this`slots, this`running
      ensures SlotsInv(slots, running, routes) && running == old(running) - {id}
    {
      EndedOnRoute(slots, running, routes, id);
      slots := slots[running[id] := slots[running[id]] - 1];
      running := running - {id};
    }

    method FailUnknownRoute(meta: Meta, ghost saturated: set<string>, now: Time)
      requires Valid() && CopyOf(meta, spool.index) && meta.id !in running
      modifies this`events, spool`index, spool`indexBytes, spool`leased,
               spool.disk, spool.failed`index, spool.failed`bytes, journal, fails
      ensures Valid()
      ensures Placed(meta, ToFailed, saturated, saturated, old(Standing()), Standing())
    {
      FailUnsendable(meta, "route no longer configured", now);
    }

    method HoldBack(meta: Meta, d: Time, ghost saturated: set<string>, now: Time)
      requires Valid() && meta.id !in running
      modifies this`events, spool`index, spool`leased
      ensures Valid()
      ensures Placed(meta, ToHold, saturated, saturated + {meta.envelope.route}, old(Standing()), Standing())
      ensures spool.index == Rescheduled(old(spool.index), meta.id, HoldUntil(meta, now, d))
    {
      Hold(meta, d, now);
    }

    /** The slot comes first, so that a token is only spent on a message that can be sent. */
    method StartPaced(meta: Meta, ghost saturated: set<string>, now: Time) returns (wait: Time, ok: bool)
      requires SlotsInv(slots, running, routes) && meta.id !in running
      requires meta.envelope.route in routes && slots[meta.envelope.route] < routes[meta.envelope.route].maxConcurrent
      requires AllStopped(saturated, slots, limiter.buckets, routes, now)
      modifies this`slots, this`running, limiter
      ensures SlotsInv(slots, running, routes)
      ensures var route := meta.envelope.route;
              && (ok <==> !Paced(route, old(limiter.buckets), routes[route].ratePerMin, now))
              && (!ok ==> wait == Call(Lookup(old(limiter.buckets), route), routes[route].ratePerMin, now).0.wait)
              && AllStopped(if ok then saturated else saturated + {route}, slots, limiter.buckets, routes, now)
      ensures ok ==> Placed(meta, ToWorker, saturated, saturated, old(Standing()), Standing())
      ensures !ok ==> running == old(running) && slots == old(slots)
    {
      var route := meta.envelope.route;
      StillStopped(saturated, slots, limiter.buckets, routes, route, now);
      slots := slots[route := slots[route] + 1];
      wait, ok := limiter.Allow(route, routes[route].ratePerMin, now);
      if !ok {
        slots := slots[route := slots[route] - 1];
        assert slots == old(slots);
        return;
      }
      StartedOnRoute(old(slots), running, routes, meta.id, route);
      running := running[meta.id := route];
    }
  }

  // Where dispatchOne put a message.
  datatype Placement = ToWorker | ToHold | ToFailed

  /** The limiter denies this route a token now, and would again. */
  ghost predicate Paced(route: string, buckets: map<string, Bucket>, perMinute: int, now: Time) {
    0 < perMinute && Call(Lookup(buckets, route), perMinute, now).0.Denied?
  }

  /** No attempt can be started on this route now: no slot is free, or the pace forbids it. */
  ghost predicate Stopped(route: string, slots: map<string, int>, buckets: map<string, Bucket>, routes: map<string, Route>,
                          now: Time)
  {
    && route in routes && route in slots
    && (slots[route] >= routes[route].maxConcurrent || Paced(route, buckets, routes[route].ratePerMin, now))
  }

  ghost predicate AllStopped(saturated: set<string>, slots: map<string, int>, buckets: map<string, Bucket>,
                             routes: map<string, Route>, now: Time)
  {
    forall r :: r in saturated ==> Stopped(r, slots, buckets, routes, now)
  }

  /** What becomes of a claimed message: its route alone decides. */
  ghost function Choice(route: string, slots: map<string, int>, buckets: map<string, Bucket>, routes: map<string, Route>,
                        now: Time): Placement
  {
    if route !in routes then ToFailed
    else if Stopped(route, slots, buckets, routes, now) then ToHold
    else ToWorker
  }

  /** A message without a slot waits for the next poll, a paced one for its token. */
  ghost function HoldFor(route: string, slots: map<string, int>, buckets: map<string, Bucket>, routes: map<string, Route>,
                         now: Time): Time
    requires Choice(route, slots, buckets, routes, now) == ToHold
  {
    if slots[route] >= routes[route].maxConcurrent then POLL_INTERVAL
    else Call(Lookup(buckets, route), routes[route].ratePerMin, now).0.wait
  }

  /** The choice in a route's own terms: workers only within the slots and the pace, five seconds' wait for a slot. */
  lemma ChoiceInFull(route: string, slots: map<string, int>, buckets: map<string, Bucket>, routes: map<string, Route>, now: Time)
    requires slots.Keys == routes.Keys
    ensures var p := Choice(route, slots, buckets, routes, now);
            && (p.ToFailed? <==> route !in routes)
            && (p.ToWorker? <==> route in routes && slots[route] < routes[route].maxConcurrent
                                 && (0 < routes[route].ratePerMin ==>
                                       Call(Lookup(buckets, route), routes[route].ratePerMin, now).0 == Granted))
            && (p.ToHold? && slots[route] >= routes[route].maxConcurrent ==>
                  HoldFor(route, slots, buckets, routes, now) == 5 * SECOND)
            && (p.ToHold? && slots[route] < routes[route].maxConcurrent ==>
                  Call(Lookup(buckets, route), routes[route].ratePerMin, now).0 == Denied(HoldFor(route, slots, buckets, routes, now)))
  {
  }

  /** Asking for one route frees no other, and a token denied once is denied again at the same time. */
  lemma StillStopped(saturated: set<string>, slots: map<string, int>, buckets: map<string, Bucket>,
                     routes: map<string, Route>, route: string, now: Time)
    requires AllStopped(saturated, slots, buckets, routes, now) && route in routes && route in slots
    ensures var rate := routes[route].ratePerMin;
            var (verdict, left) := Call(Lookup(buckets, route), rate, now);
            var asked := buckets[route := left];
            && (0 < rate ==> AllStopped(saturated, slots, asked, routes, now))
            && (0 < rate ==> AllStopped(saturated, slots[route := slots[route] + 1], asked, routes, now))
            && AllStopped(saturated, slots[route := slots[route] + 1], buckets, routes, now)
            && (0 < rate && verdict.Denied? ==> Stopped(route, slots, asked, routes, now))
  {
    var rate := routes[route].ratePerMin;
    var asked := buckets[route := Call(Lookup(buckets, route), rate, now).1];
    forall r | r in saturated
      ensures Stopped(r, slots[route := slots[route] + 1], buckets, routes, now)
      ensures 0 < rate ==> Stopped(r, slots, asked, routes, now)
      ensures 0 < rate ==> Stopped(r, slots[route := slots[route] + 1], asked, routes, now)
    {
      assert Stopped(r, slots, buckets, routes, now);
      assert r != route ==> Lookup(asked, r) == Lookup(buckets, r);
    }
  }

  /**
   What the context answers when it has been asked this often before: patience is how often it
   lets a pass go on before it reports a cancellation, if it ever does.
   */
  predicate Cancelled(patience: Option<nat>, asked: nat) {
    patience.Some? && patience.value <= asked
  }

  /**
   Placing n messages has asked the context once or twice for each, and no answer was a
   cancellation; a pass ends early only when the next message's turn would meet one.
   */
  ghost predicate Turns(patience: Option<nat>, asked: nat, asked': nat, n: nat, done: bool) {
    && asked + n <= asked' <= asked + 2 * n
    && (n > 0 && patience.Some? ==> asked' <= patience.value)
    && (!done ==> Cancelled(patience, asked' + 1))
  }

  lemma TurnsOn(patience: Option<nat>, a: nat, b: nat, c: nat, n: nat, m: nat, done: bool)
    requires Turns(patience, a, b, n, true) && Turns(patience, b, c, m, done)
    ensures Turns(patience, a, c, n + m, done)
  {
  }

  lemma TogetherAsMany(first: map<QueueId, Placement>, second: map<QueueId, Placement>)
    requires first.Keys !! second.Keys
    ensures |first + second| == |first| + |second|
  {
    assert (first + second).Keys == first.Keys + second.Keys;
  }

  /** A message fails in a pass exactly when its route is not configured. */
  ghost predicate FailedByRoute(fates: map<QueueId, Placement>, index: map<QueueId, Meta>, routes: map<string, Route>) {
    forall id :: id in fates ==> id in index && (fates[id].ToFailed? <==> index[id].envelope.route !in routes)
  }

  lemma FailedByRouteOneMore(fates: map<QueueId, Placement>, meta: Meta, p: Placement, index: map<QueueId, Meta>,
                             routes: map<string, Route>)
    requires FailedByRoute(fates, index, routes) && meta.id in index && index[meta.id] == meta
    requires p.ToFailed? <==> meta.envelope.route !in routes
    ensures FailedByRoute(fates[meta.id := p], index, routes)
  {
  }

  /** One message more has its fate, unless a cancellation left it pending. */
  lemma Noted(fates: map<QueueId, Placement>, pending: seq<Meta>, placed: Option<Placement>, now: Time,
              saturated: set<string>, full: set<string>, full': set<string>, b: Books, c: Books, d: Books,
              routes: map<string, Route>) returns (fates': map<QueueId, Placement>)
    requires pending != [] && pending[0].id in Waiting(b, now, saturated)
    requires Dispatched(fates, pending, now, saturated, full, b, c) && FailedByRoute(fates, b.index, routes)
    requires if placed.Some? then Placed(pending[0], placed.value, full, full', c, d) else d == c && full' == full
    requires placed.Some? ==> (placed.value.ToFailed? <==> pending[0].envelope.route !in routes)
    ensures fates'.Keys == if placed.Some? then fates.Keys + {pending[0].id} else fates.Keys
    ensures |fates'| == |fates| + (if placed.Some? then 1 else 0)
    ensures Dispatched(fates', if placed.Some? then pending[1..] else pending, now, saturated, full', b, d)
    ensures FailedByRoute(fates', b.index, routes)
  {
    fates' := fates;
    if placed.Some? {
      var meta := pending[0];
      assert meta in pending && Pending(meta, b, c);
      fates' := fates[meta.id := placed.value];
      FailedByRouteOneMore(fates, meta, placed.value, b.index, routes);
      PlacedIsDispatched(fates, pending, now, saturated, full, full', b, c, d, placed.value);
    }
  }

  lemma FailedByRouteTwice(first: map<QueueId, Placement>, second: map<QueueId, Placement>, full1: set<string>,
                           full2: set<string>, now: Time, b: Books, c: Books, d: Books, full0: set<string>,
                           routes: map<string, Route>)
    requires Dispatched(first, [], now, full0, full1, b, c) && Dispatched(second, [], now, full1, full2, c, d)
    requires FailedByRoute(first, b.index, routes) && FailedByRoute(second, c.index, routes)
    ensures FailedByRoute(first + second, b.index, routes)
  {
    DispatchedTwice(first, second, now, full0, full1, full2, b, c, d);
    forall id | id in second
      ensures id in b.index && b.index[id] == c.index[id]
    {
      assert id !in first && Untouched(id, b, c);
    }
  }

  // What dispatching moves: the index, the leases and the attempts in flight.
  datatype Books = Books(index: map<QueueId, Meta>, leased: set<QueueId>, running: map<QueueId, string>)

  /** Exactly one of the three, with nothing else moved. */
  ghost predicate Placed(meta: Meta, p: Placement, saturated: set<string>, full: set<string>, b: Books, b': Books) {
    match p
    case ToWorker =>
      && full == saturated
      && b' == b.(running := b.running[meta.id := meta.envelope.route])
    case ToHold =>
      && full == saturated + {meta.envelope.route}
      && exists until :: b' == b.(index := Rescheduled(b.index, meta.id, until), leased := b.leased - {meta.id})
    case ToFailed =>
      && full == saturated
      && b' == b.(index := b.index - {meta.id}, leased := b.leased - {meta.id})
  }

  /** The due messages a scan would still find once the saturated routes are left out. */
  ghost function Waiting(b: Books, now: Time, saturated: set<string>): set<QueueId> {
    set id | id in b.index && Due(b.index, b.leased, id, now) && b.index[id].envelope.route !in saturated
  }

  /** Waiting, in the message's own fields. */
  lemma OnlyDueWait(b: Books, now: Time, saturated: set<string>, ids: set<QueueId>)
    requires forall id :: id in ids ==> id in Waiting(b, now, saturated)
    ensures forall id :: id in ids ==>
              && id in b.index && id !in b.leased && b.index[id].nextAttempt <= now
              && b.index[id].envelope.route !in saturated
  {
  }

  lemma NoneWaiting(b: Books, now: Time, saturated: set<string>)
    requires Waiting(b, now, saturated) == {}
    ensures forall id :: id in b.index && id !in b.leased ==>
              now < b.index[id].nextAttempt || b.index[id].envelope.route in saturated
  {
    forall id | id in b.index && id !in b.leased
      ensures now < b.index[id].nextAttempt || b.index[id].envelope.route in saturated
    {
      assert id !in Waiting(b, now, saturated);
    }
  }

  /** How a message this pass has dealt with stands. */
  ghost predicate Handled(p: Placement, id: QueueId, full: set<string>, b: Books) {
    match p
    case ToWorker => id in b.leased && id in b.index && id in b.running
    case ToHold => id !in b.leased && id !in b.running && id in b.index && b.index[id].envelope.route in full
    case ToFailed => id !in b.leased && id !in b.running && id !in b.index
  }

  ghost predicate Untouched(id: QueueId, b: Books, b': Books) {
    && (id in b.leased <==> id in b'.leased)
    && (id in b.index <==> id in b'.index) && (id in b.index ==> b'.index[id] == b.index[id])
    && (id in b.running <==> id in b'.running) && (id in b.running ==> b'.running[id] == b.running[id])
  }

  /** Claimed and still in the dispatcher's hands. */
  ghost predicate Pending(m: Meta, b: Books, b': Books) {
    && m.id in b'.leased && m.id !in b'.running && m.id in b'.index && b'.index[m.id] == m
    && m.id !in b.leased && m.id !in b.running && m.id in b.index && b.index[m.id] == m
  }

  /**
   Between two states of one pass: every message claimed so far has exactly one fate or is
   pending, and every other message is as it was.
   */
  ghost predicate Dispatched(fates: map<QueueId, Placement>, pending: seq<Meta>, now: Time,
                             saturated: set<string>, full: set<string>, b: Books, b': Books)
  {
    && saturated <= full
    && (forall id :: id in fates ==> id in Waiting(b, now, saturated) && Handled(fates[id], id, full, b'))
    && (forall m :: m in pending ==> Pending(m, b, b') && m.id !in fates)
    && (forall i, j :: 0 <= i < j < |pending| ==> pending[i].id != pending[j].id)
    && (forall id :: id !in fates && id !in IdsOf(pending) ==> Untouched(id, b, b'))
  }

  lemma ClaimIsPending(b: Books, now: Time, saturated: set<string>, skip: string -> bool, max: int, batch: seq<Meta>)
    requires forall r :: skip(r) <==> r in saturated
    requires IsBatch(b.index, EligibleIds(b.index, b.leased, now, skip), max, batch)
    requires forall id :: id in b.index ==> b.index[id].id == id
    requires InFlight(b.running, b.leased, b.index)
    ensures Dispatched(map[], batch, now, saturated, saturated, b, b.(leased := b.leased + IdsOf(batch)))
    ensures IdsOf(batch) <= Waiting(b, now, saturated)
    ensures |batch| < max ==> IdsOf(batch) == Waiting(b, now, saturated)
  {
    var eligible := EligibleIds(b.index, b.leased, now, skip);
    assert eligible == Waiting(b, now, saturated);
    BatchIds(b.index, eligible, max, batch);
    var c := b.(leased := b.leased + IdsOf(batch));
    forall m | m in batch
      ensures Pending(m, b, c)
    {
      assert m.id in IdsOf(batch) && m.id in eligible;
    }
    forall id | id !in IdsOf(batch)
      ensures Untouched(id, b, c)
    {
    }
  }

  /** What placing a message does to it, and that it does nothing to any other. */
  lemma PlacedOnlyIt(m: Meta, p: Placement, full: set<string>, full': set<string>, c: Books, d: Books)
    requires Placed(m, p, full, full', c, d)
    requires m.id in c.leased && m.id !in c.running && m.id in c.index && c.index[m.id] == m
    ensures full <= full' && Handled(p, m.id, full', d)
    ensures forall id :: id != m.id ==> Untouched(id, c, d)
  {
  }

  lemma PlacedIsDispatched(fates: map<QueueId, Placement>, pending: seq<Meta>, now: Time, saturated: set<string>,
                           full: set<string>, full': set<string>, b: Books, c: Books, d: Books, p: Placement)
    requires Dispatched(fates, pending, now, saturated, full, b, c) && pending != []
    requires pending[0].id in Waiting(b, now, saturated)
    requires Placed(pending[0], p, full, full', c, d)
    ensures Dispatched(fates[pending[0].id := p], pending[1..], now, saturated, full', b, d)
  {
    var m := pending[0];
    assert pending == [m] + pending[1..];
    assert IdsOf(pending) == {m.id} + IdsOf(pending[1..]);
    assert Pending(m, b, c);
    PlacedOnlyIt(m, p, full, full', c, d);
    forall id | id in fates
      ensures Handled(fates[id], id, full', d)
    {
      assert Handled(fates[id], id, full, c) && id != m.id && Untouched(id, c, d);
    }
    forall k | k in pending[1..]
      ensures Pending(k, b, d)
    {
      assert Pending(k, b, c) && k.id != m.id && Untouched(k.id, c, d);
    }
    forall id | id !in fates[m.id := p] && id !in IdsOf(pending[1..])
      ensures Untouched(id, b, d)
    {
      assert Untouched(id, b, c) && Untouched(id, c, d);
    }
  }

  /** Deferring a pending message to its own next attempt leaves no trace of the claim. */
  lemma ReleasedIsUntouched(fates: map<QueueId, Placement>, pending: seq<Meta>, now: Time, saturated: set<string>,
                            full: set<string>, b: Books, c: Books)
    requires Dispatched(fates, pending, now, saturated, full, b, c) && pending != []
    ensures Dispatched(fates, pending[1..], now, saturated, full, b,
                       c.(index := Rescheduled(c.index, pending[0].id, pending[0].nextAttempt),
                          leased := c.leased - {pending[0].id}))
  {
    var m := pending[0];
    assert pending == [m] + pending[1..];
    assert IdsOf(pending) == {m.id} + IdsOf(pending[1..]);
    assert Pending(m, b, c);
    var d := c.(index := Rescheduled(c.index, m.id, m.nextAttempt), leased := c.leased - {m.id});
    assert d == c.(leased := c.leased - {m.id});
    forall id | id in fates
      ensures Handled(fates[id], id, full, d)
    {
      assert Handled(fates[id], id, full, c) && id != m.id;
    }
    forall k | k in pending[1..]
      ensures Pending(k, b, d)
    {
      assert Pending(k, b, c) && k.id != m.id;
    }
    forall id | id !in fates && id !in IdsOf(pending[1..])
      ensures Untouched(id, b, d)
    {
      assert id != m.id ==> Untouched(id, b, c);
    }
  }

  /** Two stretches of one pass make one: no message is claimed twice. */
  lemma DispatchedTwice(first: map<QueueId, Placement>, second: map<QueueId, Placement>, now: Time,
                        full0: set<string>, full1: set<string>, full2: set<string>, b: Books, c: Books, d: Books)
    requires Dispatched(first, [], now, full0, full1, b, c)
    requires Dispatched(second, [], now, full1, full2, c, d)
    ensures first.Keys !! second.Keys
    ensures Dispatched(first + second, [], now, full0, full2, b, d)
  {
    forall id | id in first
      ensures id !in second
    {
      assert Handled(first[id], id, full1, c);
    }
    forall id | id in first
      ensures Handled(first[id], id, full2, d)
    {
      assert Handled(first[id], id, full1, c);
      assert Untouched(id, c, d);
    }
    forall id | id in second
      ensures id in Waiting(b, now, full0)
    {
      assert id in Waiting(c, now, full1);
      assert Untouched(id, b, c);
    }
    forall id | id !in first + second
      ensures Untouched(id, b, d)
    {
      assert Untouched(id, b, c) && Untouched(id, c, d);
    }
  }

  /** A pass over a non-empty batch leaves strictly fewer messages for the next scan. */
  lemma FewerWaiting(fates: map<QueueId, Placement>, now: Time, saturated: set<string>, full: set<string>,
                     b: Books, c: Books)
    requires Dispatched(fates, [], now, saturated, full, b, c)
    ensures Waiting(c, now, full) <= Waiting(b, now, saturated) - fates.Keys
    ensures fates != map[] ==> |Waiting(c, now, full)| < |Waiting(b, now, saturated)|
  {
    forall id | id in Waiting(c, now, full)
      ensures id in Waiting(b, now, saturated) && id !in fates
    {
      assert id in fates ==> Handled(fates[id], id, full, c);
      assert Untouched(id, b, c);
    }
    Cardinality(Waiting(c, now, full), Waiting(b, now, saturated) - fates.Keys);
    if id :| id in fates {
      assert id in Waiting(b, now, saturated);
      Cardinality(Waiting(b, now, saturated) - fates.Keys, Waiting(b, now, saturated) - {id});
    }
  }

  lemma StillInFlight(fates: map<QueueId, Placement>, now: Time, saturated: set<string>, full: set<string>,
                      b: Books, c: Books)
    requires Dispatched(fates, [], now, saturated, full, b, c)
    requires InFlight(b.running, b.leased, b.index)
    ensures InFlight(c.running, c.leased, c.index)
  {
    forall id | id in c.running
      ensures id in c.leased && id in c.index
    {
      if id in fates {
        assert Handled(fates[id], id, full, c);
      } else {
        assert Untouched(id, b, c);
      }
    }
  }

  lemma FirstOf(batch: seq<Meta>, i: nat)
    requires i < |batch|
    ensures batch[i..][0] == batch[i] && batch[i..][1..] == batch[i + 1..]
    ensures batch[i].id in IdsOf(batch) && IdsOf(batch[..i + 1]) == IdsOf(batch[..i]) + {batch[i].id}
  {
    assert batch[..i + 1] == batch[..i] + [batch[i]];
  }

  /** No lease leaks: what a pass leaves leased is what was leased before and what now runs. */
  lemma NoLeaseLeaks(fates: map<QueueId, Placement>, now: Time, saturated: set<string>, full: set<string>,
                     b: Books, c: Books)
    requires Dispatched(fates, [], now, saturated, full, b, c)
    requires InFlight(b.running, b.leased, b.index) && InFlight(c.running, c.leased, c.index)
    ensures c.leased == b.leased + (c.running.Keys - b.running.Keys)
  {
    forall id
      ensures id in c.leased <==> id in b.leased || (id in c.running && id !in b.running)
    {
      if id in fates {
        assert Handled(fates[id], id, full, c) && id in Waiting(b, now, saturated);
      } else {
        assert Untouched(id, b, c);
      }
    }
  }

  /** Occupied slots are exactly the running attempts, and within each route's budget. */
  ghost predicate SlotsInv(slots: map<string, int>, running: map<QueueId, string>, routes: map<string, Route>) {
    && slots.Keys == routes.Keys
    && (forall r :: r in routes ==> slots[r] == |OnRoute(running, r)| <= routes[r].maxConcurrent)
    && (forall id :: id in running ==> running[id] in routes)
  }

  /** Every running attempt still holds its message's lease. */
  ghost predicate InFlight(running: map<QueueId, string>, leased: set<QueueId>, index: map<QueueId, Meta>) {
    running.Keys <= leased && running.Keys <= index.Keys
  }

  lemma OthersInFlight(running: map<QueueId, string>, leased: set<QueueId>, index: map<QueueId, Meta>,
                       leased': set<QueueId>, index': map<QueueId, Meta>, id: QueueId)
    requires InFlight(running, leased, index)
    requires leased' == leased - {id} && index' - {id} == index - {id}
    ensures InFlight(running - {id}, leased', index')
  {
    assert forall k :: k in running - {id} ==> k in index - {id};
  }

  lemma StartedOnRoute(slots: map<string, int>, running: map<QueueId, string>, routes: map<string, Route>,
                       id: QueueId, route: string)
    requires SlotsInv(slots, running, routes) && id !in running
    requires route in routes && slots[route] < routes[route].maxConcurrent
    ensures SlotsInv(slots[route := slots[route] + 1], running[id := route], routes)
  {
    forall r | r in routes
      ensures |OnRoute(running[id := route], r)| == |OnRoute(running, r)| + (if r == route then 1 else 0)
    {
      WithOnRoute(running, id, route, r);
    }
  }

  lemma WithOnRoute(running: map<QueueId, string>, id: QueueId, route: string, r: string)
    requires id !in running
    ensures |OnRoute(running[id := route], r)| == |OnRoute(running, r)| + (if r == route then 1 else 0)
  {
    assert OnRoute(running[id := route], r) == OnRoute(running, r) + (if r == route then {id} else {});
  }

  /** An attempt that ends gives its slot back. */
  lemma EndedOnRoute(slots: map<string, int>, running: map<QueueId, string>, routes: map<string, Route>, id: QueueId)
    requires SlotsInv(slots, running, routes) && id in running
    ensures SlotsInv(slots[running[id] := slots[running[id]] - 1], running - {id}, routes)
  {
    forall r | r in routes
      ensures |OnRoute(running - {id}, r)| == |OnRoute(running, r)| - (if r == running[id] then 1 else 0)
    {
      WithoutOnRoute(running, id, r);
    }
  }

  lemma WithoutOnRoute(running: map<QueueId, string>, id: QueueId, r: string)
    requires id in running
    ensures |OnRoute(running - {id}, r)| == |OnRoute(running, r)| - (if r == running[id] then 1 else 0)
  {
    if r == running[id] {
      assert OnRoute(running, r) == OnRoute(running - {id}, r) + {id};
    } else {
      assert OnRoute(running - {id}, r) == OnRoute(running, r);
    }
  }

  /** The fate of one turn: None for a body that could not be opened, or the outcome of delivering it. */
  function Turn(schedule: seq<Time>, meta: Meta, o: Option<Outcome>, cancelled: bool, check: Time, now: Time): Fate
    requires schedule != []
  {
    if o.None? then Bounced(J.Permanent)
    else if !MeansDelivered(o.value) && cancelled then HeldBack
    else FateOf(schedule, meta.(attempts := meta.attempts + 1), o.value, check, now)
  }

  /** What each fate does to the spool. */
  ghost predicate FateStep(a: View, b: View, id: QueueId, fate: Fate) {
    match fate
    case MailDelivered => RemoveStep(a, b, id)
    case Bounced(_) => FailStep(a, b, id)
    case Retried(_) => ReleaseStep(a, b, id)
    case HeldBack => DeferStep(a, b, id)
  }

  /** A fate and all that goes with it: what was done in which order, the books, the spool and the message's retry state. */
  ghost predicate Settled(meta: Meta, fate: Fate, events: seq<Event>, events': seq<Event>,
                          entries: seq<Entry>, entries': seq<Entry>,
                          recorded: seq<(string, QueueId)>, recorded': seq<(string, QueueId)>, v: View, v': View, now: Time)
  {
    && events' == events + EventsOf(meta, fate)
    && Booked(meta, fate, entries, entries', recorded, recorded')
    && FateStep(v, v', meta.id, fate)
    && (meta.id in v'.index <==> fate.Retried? || fate.HeldBack?)
    && (fate.Retried? ==> v'.index[meta.id].attempts == meta.attempts + 1)
    && (fate.HeldBack? ==> v'.index == Rescheduled(v.index, meta.id, HoldUntil(meta, now, 0)))
  }

  /** The rule an attempt follows once its session is over, in what the message, the index and the journal come to. */
  ghost predicate Ruled(schedule: seq<Time>, meta: Meta, o: Outcome, cancelled: bool, check: Time, now: Time, wall: Time,
                        faulted: bool, index: map<QueueId, Meta>, index': map<QueueId, Meta>, aside: set<QueueId>,
                        entries: seq<Entry>, entries': seq<Entry>)
    requires schedule != [] && meta.id in index
  {
    if o.Fine? || o.QuitError? || o.PartialError? then
      meta.id !in index' && AskedFor(entries, entries', meta.id, J.Delivered, None)
    else if cancelled then
      && meta.id in index' && entries' == entries
      && index'[meta.id] == index[meta.id].(nextAttempt := Min(now, meta.expires))
    else if o.PermError? then
      meta.id !in index' && meta.id in aside && AskedFor(entries, entries', meta.id, J.Permanent, None)
    else if meta.expires < check then
      meta.id !in index' && meta.id in aside && AskedFor(entries, entries', meta.id, J.Expired, None)
    else
      var next := Min(now + Backoff(schedule, meta.attempts + 1), meta.expires);
      && meta.id in index' && AskedFor(entries, entries', meta.id, J.Temporary, Some(next))
      && index'[meta.id] ==
         Released(meta.(attempts := meta.attempts + 1, nextAttempt := next, lastError := "temporary failure"), wall, faulted)
  }

  /** What an attempt's outcome means for the message. */
  function FateOf(schedule: seq<Time>, meta: Meta, o: Outcome, check: Time, now: Time): Fate
    requires schedule != []
  {
    if MeansDelivered(o) then MailDelivered
    else if o.PermError? then Bounced(J.Permanent)
    else if check > meta.expires then Bounced(J.Expired)
    else Retried(RetryAt(schedule, meta, now))
  }

  /** What is done for each fate; the journal entry always comes before the spool changes. */
  ghost function EventsOf(meta: Meta, fate: Fate): seq<Event> {
    match fate
    case MailDelivered => [Journalled(meta.id, J.Delivered), RemovedFromSpool(meta.id)]
    case Bounced(outcome) =>
      [Journalled(meta.id, outcome), SetAside(meta.id)]
      + (if meta.envelope.kind == Notification then [] else [Reported(meta.id)])
    case Retried(_) => [Journalled(meta.id, J.Temporary), ReturnedToQueue(meta.id)]
    case HeldBack => [PutBack(meta.id)]
  }

  /** Exactly this write was asked for; it was made or it failed. */
  ghost predicate AskedFor(before: seq<Entry>, after: seq<Entry>, id: QueueId, outcome: J.Class, next: Option<Time>) {
    || after == before + [Entry(id, outcome, next, true)]
    || after == before + [Entry(id, outcome, next, false)]
  }

  /** The journal and the failure report after each fate. */
  ghost predicate Booked(meta: Meta, fate: Fate, entries: seq<Entry>,
                         entries': seq<Entry>, recorded: seq<(string, QueueId)>,
                         recorded': seq<(string, QueueId)>)
  {
    match fate
    case MailDelivered => AskedFor(entries, entries', meta.id, J.Delivered, None) && recorded' == recorded
    case Bounced(outcome) =>
      && AskedFor(entries, entries', meta.id, outcome, None)
      && recorded' == recorded + (if meta.envelope.kind == Notification then [] else [(meta.envelope.origin, meta.id)])
    case Retried(next) => AskedFor(entries, entries', meta.id, J.Temporary, Some(next)) && recorded' == recorded
    case HeldBack => entries' == entries && recorded' == recorded
  }

  ghost function Rescheduled(index: map<QueueId, Meta>, id: QueueId, until: Time): map<QueueId, Meta> {
    if id in index then index[id := index[id].(nextAttempt := until)] else index
  }

  /** The attempts in flight on one route. */
  ghost function OnRoute(running: map<QueueId, string>, route: string): set<QueueId> {
    set id | id in running && running[id] == route
  }
}
