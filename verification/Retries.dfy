/**
 How often a message is tried. Attempts and holds follow each other until a terminal fate; the
 schedule, the expiry and the claims being due bound the number of attempts.
 */
module Retries {
  import opened Types
  import opened SpoolDisk
  import opened SpoolState
  import opened Spool
  import opened Smarthost
  import opened Delivery

  // One time a message was claimed and came back to the queue.
  datatype Turn =
    | Held(now: Time, d: Time)                           // put back without an attempt
    | Tried(claimed: Time, check: Time, now: Time, floor: Option<Time>)   // a temporary failure: checked, then scheduled,
                                                         // no earlier than the floor of a failed release

  /** The message after the turn. */
  function Turned(schedule: seq<Time>, m: Meta, t: Turn): Meta
    requires schedule != []
  {
    match t
    case Held(now, d) => m.(nextAttempt := HoldUntil(m, now, d))
    case Tried(_, _, now, floor) =>
      var tried := m.(attempts := m.attempts + 1, lastError := "temporary failure");
      var next := RetryAt(schedule, tried, now);
      tried.(nextAttempt := if floor.Some? then Max(next, floor.value) else next)
  }

  function Played(schedule: seq<Time>, m: Meta, turns: seq<Turn>): Meta
    requires schedule != []
  {
    if turns == [] then m
    else Turned(schedule, Played(schedule, m, turns[..|turns| - 1]), turns[|turns| - 1])
  }

  /** When the last attempt checked for expiry, if there was one. */
  function LastCheck(turns: seq<Turn>): Option<Time> {
    if turns == [] then None
    else
      var t := turns[|turns| - 1];
      if t.Tried? then Some(t.check) else LastCheck(turns[..|turns| - 1])
  }

  /** A turn of a live message: claimed when due, and not past its expiry when that was checked. */
  predicate CanTurn(m: Meta, last: Option<Time>, t: Turn) {
    match t
    case Held(now, d) => m.nextAttempt <= now && 0 <= d
    case Tried(claimed, check, now, _) =>
      && m.nextAttempt <= claimed <= check <= now
      && check <= m.expires
      && (last.Some? ==> last.value < check)
  }

  predicate Lives(schedule: seq<Time>, m: Meta, turns: seq<Turn>)
    requires schedule != []
  {
    turns == [] ||
    var before := turns[..|turns| - 1];
    Lives(schedule, m, before) && CanTurn(Played(schedule, m, before), LastCheck(before), turns[|turns| - 1])
  }

  predicate Steps(schedule: seq<Time>, step: Time) {
    schedule != [] && 0 < step && forall s :: s in schedule ==> step <= s
  }

  /** Holding spends no attempt; a claimed message waits as long as asked, or until its expiry, never less than before. */
  lemma HoldKeepsBudget(schedule: seq<Time>, m: Meta, last: Option<Time>, now: Time, d: Time)
    requires schedule != [] && CanTurn(m, last, Held(now, d))
    ensures var held := Turned(schedule, m, Held(now, d));
            && held == m.(nextAttempt := held.nextAttempt)
            && held.nextAttempt == (if now + d <= m.expires then now + d else m.expires)
            && (m.nextAttempt <= m.expires ==> m.nextAttempt <= held.nextAttempt)
  {
  }

  predicate NeverFloored(turns: seq<Turn>) {
    forall t :: t in turns && t.Tried? ==> t.floor.None?
  }

  /** Where a live message stands after its attempts so far. */
  predicate Spaced(m: Meta, last: Option<Time>, accepted: Time, step: Time) {
    && 0 <= m.attempts && accepted <= m.expires && accepted <= m.nextAttempt
    && (m.attempts == 0 <==> last.None?)
    && (last.Some? ==>
          && Min(last.value + step, m.expires) <= m.nextAttempt && last.value <= m.expires
          && (|| accepted + (m.attempts - 1) * step <= last.value
              || (last.value == m.expires && 2 <= m.attempts && accepted + (m.attempts - 2) * step < m.expires)))
  }

  lemma TurnKeepsSpacing(schedule: seq<Time>, m: Meta, last: Option<Time>, accepted: Time, step: Time, t: Turn)
    requires Steps(schedule, step) && Spaced(m, last, accepted, step) && CanTurn(m, last, t)
    ensures Spaced(Turned(schedule, m, t), if t.Tried? then Some(t.check) else last, accepted, step)
  {
    if t.Tried? {
      var m' := Turned(schedule, m, t);
      assert Min(t.now + Backoff(schedule, m'.attempts), m.expires) <= m'.nextAttempt;
      if last.Some? {
        assert accepted + (m.attempts - 1) * step <= last.value;
        assert (m'.attempts - 1) * step == (m.attempts - 1) * step + step;
        assert m'.attempts - 2 == m.attempts - 1;
      }
    }
  }

  lemma {:induction false} LiveIsSpaced(schedule: seq<Time>, m: Meta, turns: seq<Turn>, step: Time)
    requires Steps(schedule, step) && m.attempts == 0 && m.nextAttempt <= m.expires
    requires Lives(schedule, m, turns)
    ensures Spaced(Played(schedule, m, turns), LastCheck(turns), m.nextAttempt, step)
    ensures Played(schedule, m, turns).expires == m.expires
    ensures NeverFloored(turns) ==> Played(schedule, m, turns).nextAttempt <= m.expires
  {
    if turns != [] {
      var n := |turns| - 1;
      LiveIsSpaced(schedule, m, turns[..n], step);
      TurnKeepsSpacing(schedule, Played(schedule, m, turns[..n]), LastCheck(turns[..n]), m.nextAttempt, step, turns[n]);
    }
  }

  /**
   A message accepted with this lifetime that is still live has had at most lifetime / step + 2
   attempts, so the one that ends it is at most the next; and it is always due by its expiry,
   unless its metadata could not be written and its next attempt was floored.
   */
  lemma BoundedRetries(schedule: seq<Time>, m: Meta, turns: seq<Turn>, step: Time, lifetime: Time)
    requires Steps(schedule, step) && 0 <= lifetime
    requires m.attempts == 0 && m.expires == m.nextAttempt + lifetime
    requires Lives(schedule, m, turns)
    ensures Played(schedule, m, turns).attempts <= lifetime / step + 2
    ensures NeverFloored(turns) ==> Played(schedule, m, turns).nextAttempt <= m.expires
  {
    LiveIsSpaced(schedule, m, turns, step);
    SpacedIsBounded(Played(schedule, m, turns), LastCheck(turns), m.nextAttempt, step, lifetime);
  }

  lemma SpacedIsBounded(m: Meta, last: Option<Time>, accepted: Time, step: Time, lifetime: Time)
    requires Spaced(m, last, accepted, step) && m.expires == accepted + lifetime && 0 < step && 0 <= lifetime
    ensures m.attempts <= lifetime / step + 2
  {
    var n := m.attempts;
    if 2 < n {
      assert (n - 1) * step == (n - 2) * step + step;
      WholeSteps(n - 2, step, lifetime);
    }
  }

  lemma WholeSteps(k: int, step: Time, lifetime: Time)
    requires 0 < step && k * step <= lifetime
    ensures k <= lifetime / step
  {
    var q := lifetime / step;
    assert lifetime < (q + 1) * step;
    assert q + 1 <= k ==> (q + 1) * step <= k * step;
  }

  /** The bound is reached: three temporary failures with a lifetime of one and a half steps. */
  lemma BoundIsReached(m: Meta)
    requires m.attempts == 0 && m.nextAttempt == 0 && m.expires == 3
    ensures exists turns :: Lives([2], m, turns) && Played([2], m, turns).attempts == 3 / 2 + 2
  {
    var a, b, c := Tried(0, 0, 0, None), Tried(2, 2, 2, None), Tried(3, 3, 3, None);
    assert [a][..0] == [] && [a, b][..1] == [a] && [a, b, c][..2] == [a, b];
    assert Played([2], m, [a]) == m.(attempts := 1, nextAttempt := 2, lastError := "temporary failure");
    assert Played([2], m, [a, b]) == m.(attempts := 2, nextAttempt := 3, lastError := "temporary failure");
    assert Lives([2], m, []) && LastCheck([]) == None && Played([2], m, []) == m;
    assert Lives([2], m, [a]) && LastCheck([a]) == Some(0);
    assert Lives([2], m, [a, b]) && LastCheck([a, b]) == Some(2);
    assert Lives([2], m, [a, b, c]);
    assert Played([2], m, [a, b, c]).attempts == 3;
  }

  function AtExpiry(m: Meta): Turn {
    Tried(m.expires, m.expires, m.expires, None)
  }

  function Repeated(t: Turn, n: nat): seq<Turn> {
    if n == 0 then [] else Repeated(t, n - 1) + [t]
  }

  /**
   Strictly later checks are needed: on a clock that stands still at the expiry a message is tried
   any number of times, and every one of these attempts is allowed.
   */
  lemma {:induction false} StandingClock(schedule: seq<Time>, step: Time, m: Meta, n: nat)
    requires Steps(schedule, step) && m.nextAttempt <= m.expires && m.attempts == 0
    ensures Played(schedule, m, Repeated(AtExpiry(m), n)) ==
            if n == 0 then m else m.(attempts := n, nextAttempt := m.expires, lastError := "temporary failure")
    ensures CanTurn(Played(schedule, m, Repeated(AtExpiry(m), n)), None, AtExpiry(m))
  {
    if n > 0 {
      StandingClock(schedule, step, m, n - 1);
      var before := Repeated(AtExpiry(m), n - 1);
      assert (before + [AtExpiry(m)])[..|before|] == before;
      TriedAtExpiry(schedule, step, Played(schedule, m, before));
    }
  }

  lemma TriedAtExpiry(schedule: seq<Time>, step: Time, m: Meta)
    requires Steps(schedule, step)
    ensures Turned(schedule, m, AtExpiry(m)) == m.(attempts := m.attempts + 1, nextAttempt := m.expires, lastError := "temporary failure")
  {
    assert step <= Backoff(schedule, m.attempts + 1);
  }

  // ---- The same for messages in the spool -----------------------------------

  /** The message is in the queue and stands where these turns have brought it since it was accepted. */
  ghost predicate IsAlive(schedule: seq<Time>, accepted: Meta, turns: seq<Turn>, index: map<QueueId, Meta>)
    requires schedule != []
  {
    && accepted.id in index && index[accepted.id] == Played(schedule, accepted, turns)
    && Lives(schedule, accepted, turns)
  }

  /** A message's life begins with its commit: no attempt so far, due at once, and a lifetime to go. */
  method Accept(mgr: Manager, st: Staged, env: Envelope, lifetime: Time, head: Octets, id: QueueId, now: Time)
    returns (r: Result<QueueId, SpoolError>, ghost accepted: Meta)
    requires mgr.schedule != [] && mgr.spool.Valid() && Unused(mgr.spool.disk.files, id) && id !in mgr.spool.index
    requires StagedPath(st.id) in mgr.spool.disk.files ==> st.size == |OctetsAt(mgr.spool.disk.files, StagedPath(st.id))|
    modifies mgr.spool`index, mgr.spool`indexBytes, mgr.spool`wake, mgr.spool.disk, mgr.spool.quota`reserved
    ensures mgr.spool.Valid()
    ensures r.Ok? ==> && accepted.id == id && IsAlive(mgr.schedule, accepted, [], mgr.spool.index)
                      && accepted.attempts == 0 && accepted.nextAttempt == now
                      && accepted.expires == accepted.nextAttempt + lifetime
  {
    r := mgr.spool.Commit(st, env, lifetime, head, id, now);
    accepted := if r.Ok? then mgr.spool.index[id] else Meta(id, env, 0, "", now, now);
  }

  lemma OneTurnMore(schedule: seq<Time>, accepted: Meta, turns: seq<Turn>, t: Turn)
    requires schedule != [] && Lives(schedule, accepted, turns)
    requires CanTurn(Played(schedule, accepted, turns), LastCheck(turns), t)
    ensures Lives(schedule, accepted, turns + [t])
    ensures Played(schedule, accepted, turns + [t]) == Turned(schedule, Played(schedule, accepted, turns), t)
  {
    assert (turns + [t])[..|turns|] == turns;
  }

  /** A live message that is held or tried is still in the queue afterwards only by a turn it could take. */
  method TakeTurn(mgr: Manager, m: Meta, held: Option<Time>, s: Session, opening: Opening, readable: bool, complete: bool,
                  cancelled: bool, claimed: Time, check: Time, now: Time, wall: Time, ghost last: Option<Time>)
    returns (ghost t: Turn)
    requires mgr.spool.Valid() && mgr.schedule != [] && m.id in mgr.spool.index && mgr.spool.index[m.id] == m
    requires m.nextAttempt <= claimed <= check <= now && (held.Some? ==> 0 <= held.value)
    requires last.Some? ==> last.value < check
    modifies mgr`events, mgr.spool`index, mgr.spool`indexBytes, mgr.spool`leased, mgr.spool.disk, mgr.spool.failed`index,
             mgr.spool.failed`bytes, mgr.journal, mgr.fails, s
    ensures mgr.spool.Valid() && mgr.spool.index - {m.id} == old(mgr.spool.index) - {m.id}
    ensures m.id in mgr.spool.index ==> CanTurn(m, last, t) && mgr.spool.index[m.id] == Turned(mgr.schedule, m, t)
    ensures t.Tried? <==> held.None? && !cancelled
  {
    if held.Some? {
      mgr.Hold(m, held.value, now);
      t := Held(now, held.value);
    } else {
      t := TryTurn(mgr, m, s, opening, readable, complete, cancelled, claimed, check, now, wall, last);
    }
  }

  /** The same for an attempt: a cancelled one is a hold without a wait. */
  method TryTurn(mgr: Manager, m: Meta, s: Session, opening: Opening, readable: bool, complete: bool, cancelled: bool,
                 claimed: Time, check: Time, now: Time, wall: Time, ghost last: Option<Time>)
    returns (ghost t: Turn)
    requires mgr.spool.Valid() && mgr.schedule != [] && m.id in mgr.spool.index && mgr.spool.index[m.id] == m
    requires m.nextAttempt <= claimed <= check <= now && (last.Some? ==> last.value < check)
    modifies mgr`events, mgr.spool`index, mgr.spool`indexBytes, mgr.spool`leased, mgr.spool.disk, mgr.spool.failed`index,
             mgr.spool.failed`bytes, mgr.journal, mgr.fails, s
    ensures mgr.spool.Valid() && mgr.spool.index - {m.id} == old(mgr.spool.index) - {m.id}
    ensures m.id in mgr.spool.index ==> CanTurn(m, last, t) && mgr.spool.index[m.id] == Turned(mgr.schedule, m, t)
    ensures t.Tried? <==> !cancelled
  {
    ghost var faults := mgr.spool.disk.faults;
    ghost var fate := mgr.Attempt(m, s, opening, readable, complete, cancelled, check, now, wall);
    t := if cancelled then Held(now, 0) else TriedAt(claimed, check, now, wall, mgr.spool.disk.faults != faults);
    ReleasedIsTurned(mgr.schedule, m, claimed, check, now, wall, mgr.spool.disk.faults != faults);
  }

  ghost function TriedAt(claimed: Time, check: Time, now: Time, wall: Time, faulted: bool): Turn {
    Tried(claimed, check, now, if faulted then Some(wall + RELEASE_RETRY_DELAY) else None)
  }

  lemma ReleasedIsTurned(schedule: seq<Time>, m: Meta, claimed: Time, check: Time, now: Time, wall: Time, faulted: bool)
    requires schedule != []
    ensures Turned(schedule, m, Held(now, 0)) == m.(nextAttempt := Min(now, m.expires))
    ensures Turned(schedule, m, TriedAt(claimed, check, now, wall, faulted)) ==
            Released(m.(attempts := m.attempts + 1, nextAttempt := Min(now + Backoff(schedule, m.attempts + 1), m.expires),
                        lastError := "temporary failure"), wall, faulted)
  {
  }

  /**
   One more round of a message's life: a scan claims what is due, and if the message is in the
   batch it is held, because its route has no room, or tried.
   */
  method Round(mgr: Manager, id: QueueId, held: Option<Time>, s: Session, opening: Opening, readable: bool, complete: bool,
               cancelled: bool, claimed: Time, check: Time, now: Time, wall: Time, ghost accepted: Meta, ghost turns: seq<Turn>)
    returns (ghost turns': seq<Turn>)
    requires mgr.spool.Valid() && mgr.schedule != []
    requires accepted.id == id && IsAlive(mgr.schedule, accepted, turns, mgr.spool.index)
    requires claimed <= check <= now && (held.Some? ==> 0 <= held.value)
    requires LastCheck(turns).Some? ==> LastCheck(turns).value < check
    modifies mgr`events, mgr.spool`index, mgr.spool`indexBytes, mgr.spool`leased, mgr.spool.disk, mgr.spool.failed`index,
             mgr.spool.failed`bytes, mgr.journal, mgr.fails, s
    ensures mgr.spool.Valid() && turns <= turns'
    ensures id in mgr.spool.index ==> IsAlive(mgr.schedule, accepted, turns', mgr.spool.index)
  {
    turns' := turns;
    var batch := mgr.spool.ClaimBatch(claimed, CLAIM_BATCH_SIZE, route => false);
    if m :| m in batch && m.id == id {
      ghost var t := TakeTurn(mgr, m, held, s, opening, readable, complete, cancelled, claimed, check, now, wall, LastCheck(turns));
      if id in mgr.spool.index {
        OneTurnMore(mgr.schedule, accepted, turns, t);
        turns' := turns + [t];
      }
    }
  }

  /** So the bound holds of every accepted message, as long as it is in the queue. */
  lemma AliveIsBounded(schedule: seq<Time>, accepted: Meta, turns: seq<Turn>, index: map<QueueId, Meta>, step: Time,
                       lifetime: Time)
    requires Steps(schedule, step) && 0 <= lifetime
    requires accepted.attempts == 0 && accepted.expires == accepted.nextAttempt + lifetime
    requires IsAlive(schedule, accepted, turns, index)
    ensures index[accepted.id].attempts <= lifetime / step + 2
    ensures index[accepted.id].expires == accepted.nextAttempt + lifetime
    ensures NeverFloored(turns) ==> index[accepted.id].nextAttempt <= accepted.expires
  {
    BoundedRetries(schedule, accepted, turns, step, lifetime);
    LiveIsSpaced(schedule, accepted, turns, step);
  }
}
