/**
 How far the spool can exceed its ceiling when commits, failures and requeues overlap. A commit
 is judged against the two running totals, each read under its own lock, and what decides is how
 far such a read falls short of what the spool holds.
 */
module QuotaRuns {
  import opened Types
  import opened Totals
  import opened Quota

  datatype Ledger = Ledger(
    live: int,                          // the running total of the index
    mirror: int,                        // and of what is kept in failed
    leaving: map<QueueId, int>,         // out of the index, not yet charged to the mirror
    doubled: map<QueueId, int>,         // back in the index, not yet out of the mirror
    inFlight: map<QueueId, int>)        // admitted and reserved, not yet indexed

  datatype Move =
    | Admit(commit: QueueId, n: int, read: int)     // read: the total of live and mirror it was judged against
    | Index(commit: QueueId, prefix: int)
    | Abort(commit: QueueId)
    | FreeLive(bytes: int)                          // removed or discarded from the queue
    | FreeMirror(bytes: int)                        // swept or discarded from failed
    | LeaveIndex(id: QueueId, bytes: int)           // Fail, before its renames
    | ChargeMirror(id: QueueId, onDisk: int)        // Fail, after them: what the body occupies, if it is there
    | EnterIndex(id: QueueId, bytes: int)           // Requeue from failed, its first critical section
    | LeaveMirror(id: QueueId)                      // and its second

  /**
   One critical section. Index gives the reservation back at once; the code does so only when
   Commit returns, so for a while the copy is charged twice and less is admitted than here.
   */
  ghost predicate Step(a: Ledger, m: Move, b: Ledger, maxBytes: int, maxPrefix: int) {
    match m
    case Admit(c, n, read) =>
      && c !in a.inFlight && 0 <= n
      && Admits(maxBytes, read, Total(a.inFlight), n)
      && b == a.(inFlight := a.inFlight[c := n])
    case Index(c, prefix) =>
      && c in a.inFlight && 0 <= prefix <= maxPrefix
      && b == a.(live := a.live + a.inFlight[c] + prefix, inFlight := a.inFlight - {c})
    case Abort(c) =>
      && c in a.inFlight
      && b == a.(inFlight := a.inFlight - {c})
    case FreeLive(bytes) => 0 <= bytes && b == a.(live := a.live - bytes)
    case FreeMirror(bytes) => 0 <= bytes && b == a.(mirror := a.mirror - bytes)
    case LeaveIndex(id, bytes) =>
      && id !in a.leaving && 0 <= bytes
      && b == a.(live := a.live - bytes, leaving := a.leaving[id := bytes])
    case ChargeMirror(id, onDisk) =>
      && id in a.leaving && 0 <= onDisk <= a.leaving[id]
      && b == a.(mirror := a.mirror + onDisk, leaving := a.leaving - {id})
    case EnterIndex(id, bytes) =>
      && id !in a.doubled && 0 <= bytes
      && b == a.(live := a.live + bytes, doubled := a.doubled[id := bytes])
    case LeaveMirror(id) =>
      && id in a.doubled
      && b == a.(mirror := a.mirror - a.doubled[id], doubled := a.doubled - {id})
  }

  /** What the spool holds, whichever total charges for it. */
  ghost function Held(l: Ledger): int {
    l.live + l.mirror + Total(l.leaving) - Total(l.doubled)
  }

  /** No total counts anything below nothing. */
  ghost predicate NonNegative(l: Ledger) {
    && (forall c :: c in l.inFlight ==> 0 <= l.inFlight[c])
    && (forall c :: c in l.leaving ==> 0 <= l.leaving[c])
    && (forall c :: c in l.doubled ==> 0 <= l.doubled[c])
  }

  ghost predicate IsRun(states: seq<Ledger>, moves: seq<Move>, maxBytes: int, maxPrefix: int) {
    && |states| == |moves| + 1
    && states[0].inFlight == map[] && states[0].leaving == map[] && states[0].doubled == map[]
    && (forall i :: 0 <= i < |moves| ==> Step(states[i], moves[i], states[i + 1], maxBytes, maxPrefix))
  }

  /** How far an admission's read falls short of what is held when it is judged. */
  ghost function Shortfall(a: Ledger, m: Move): int {
    if m.Admit? then Held(a) - m.read else 0
  }

  /** What is held once every commit in flight has been indexed with the longest prefix. */
  ghost function Committed(l: Ledger, maxPrefix: int): int {
    Held(l) + Total(l.inFlight) + |l.inFlight| * maxPrefix
  }

  /** Even if every commit in flight succeeds, the ceiling is exceeded by no more than slack. */
  ghost predicate Bounded(l: Ledger, maxBytes: int, maxPrefix: int, slack: int) {
    NonNegative(l) && Committed(l, maxPrefix) <= maxBytes + slack
  }

  /** What a move puts into what is held: only indexing a commit adds to it. */
  ghost function Indexed(a: Ledger, m: Move): int {
    if m.Index? && m.commit in a.inFlight then a.inFlight[m.commit] + m.prefix else 0
  }

  /** What a move takes out of the mirror. */
  ghost function MirrorLoss(a: Ledger, m: Move): int {
    match m
    case FreeMirror(bytes) => bytes
    case LeaveMirror(id) => if id in a.doubled then a.doubled[id] else 0
    case _ => 0
  }

  lemma HeldMoves(a: Ledger, m: Move, b: Ledger, maxBytes: int, maxPrefix: int)
    requires Step(a, m, b, maxBytes, maxPrefix)
    ensures Held(b) <= Held(a) + Indexed(a, m)
    ensures b.mirror >= a.mirror - MirrorLoss(a, m)
    ensures NonNegative(a) ==> NonNegative(b) && 0 <= Indexed(a, m) && 0 <= MirrorLoss(a, m)
  {
    match m
    case LeaveIndex(id, bytes) => TotalPut(a.leaving, id, bytes);
    case ChargeMirror(id, onDisk) => TotalDrop(a.leaving, id);
    case EnterIndex(id, bytes) => TotalPut(a.doubled, id, bytes);
    case LeaveMirror(id) => TotalDrop(a.doubled, id);
    case _ =>
  }

  lemma BoundedStep(a: Ledger, m: Move, b: Ledger, maxBytes: int, maxPrefix: int, slack: int, short: int)
    requires Step(a, m, b, maxBytes, maxPrefix) && Shortfall(a, m) <= short
    requires 0 < maxBytes && 0 <= maxPrefix && |b.inFlight| * maxPrefix + short <= slack
    requires Bounded(a, maxBytes, maxPrefix, slack)
    ensures Bounded(b, maxBytes, maxPrefix, slack)
  {
    HeldMoves(a, m, b, maxBytes, maxPrefix);
    match m
    case Admit(c, n, read) => TotalPut(a.inFlight, c, n);
    case Index(c, prefix) => OneLess(a.inFlight, c, maxPrefix);
    case Abort(c) => OneLess(a.inFlight, c, maxPrefix);
    case _ =>
  }

  lemma OneLess(inFlight: map<QueueId, int>, c: QueueId, maxPrefix: int)
    requires c in inFlight
    ensures Total(inFlight - {c}) == Total(inFlight) - inFlight[c]
    ensures |inFlight - {c}| * maxPrefix == |inFlight| * maxPrefix - maxPrefix
  {
    TotalDrop(inFlight, c);
    assert inFlight.Keys == (inFlight - {c}).Keys + {c};
    assert |inFlight| == |inFlight - {c}| + 1;
  }

  lemma {:induction false} RunStaysBounded(states: seq<Ledger>, moves: seq<Move>, maxBytes: int, maxPrefix: int, slack: int,
                                           short: int, i: nat)
    requires IsRun(states, moves, maxBytes, maxPrefix) && i < |states|
    requires 0 < maxBytes && 0 <= maxPrefix && 0 <= slack && Held(states[0]) <= maxBytes
    requires forall k :: 0 <= k < |moves| ==> Shortfall(states[k], moves[k]) <= short
    requires forall k :: 0 <= k < |states| ==> |states[k].inFlight| * maxPrefix + short <= slack
    ensures Bounded(states[i], maxBytes, maxPrefix, slack)
    decreases i
  {
    if i > 0 {
      RunStaysBounded(states, moves, maxBytes, maxPrefix, slack, short, i - 1);
      assert Step(states[i - 1], moves[i - 1], states[i], maxBytes, maxPrefix);
      BoundedStep(states[i - 1], moves[i - 1], states[i], maxBytes, maxPrefix, slack, short);
    }
  }

  /**
   The ceiling: what the spool holds never exceeds it by more than the worst shortfall of a read
   and one prefix for each commit that can be in flight at once.
   */
  lemma CeilingHolds(states: seq<Ledger>, moves: seq<Move>, maxBytes: int, maxPrefix: int, width: nat, short: nat, i: nat)
    requires IsRun(states, moves, maxBytes, maxPrefix) && i < |states|
    requires 0 < maxBytes && 0 <= maxPrefix && Held(states[0]) <= maxBytes
    requires forall k :: 0 <= k < |moves| ==> Shortfall(states[k], moves[k]) <= short
    requires forall k :: 0 <= k < |states| ==> |states[k].inFlight| <= width
    ensures Held(states[i]) <= maxBytes + width * maxPrefix + short
  {
    forall k | 0 <= k < |states|
      ensures |states[k].inFlight| * maxPrefix <= width * maxPrefix
    {
      Scaled(|states[k].inFlight|, width, maxPrefix);
    }
    Scaled(0, width, maxPrefix);
    RunStaysBounded(states, moves, maxBytes, maxPrefix, width * maxPrefix + short, short, i);
    TotalNonNegative(states[i].inFlight);
    Scaled(0, |states[i].inFlight|, maxPrefix);
  }

  lemma Scaled(a: nat, b: nat, c: int)
    requires a <= b && 0 <= c
    ensures a * c <= b * c
  {
  }

  // What can make a read fall short: the live total is read first, the mirror's after it, and the
  // judgement comes last.

  ghost function IndexedIn(states: seq<Ledger>, moves: seq<Move>, from: nat, until: nat): int
    requires |states| == |moves| + 1 && from <= until <= |moves|
    decreases until
  {
    if from == until then 0
    else IndexedIn(states, moves, from, until - 1) + Indexed(states[until - 1], moves[until - 1])
  }

  ghost function MirrorLossIn(states: seq<Ledger>, moves: seq<Move>, from: nat, until: nat): int
    requires |states| == |moves| + 1 && from <= until <= |moves|
    decreases until
  {
    if from == until then 0
    else MirrorLossIn(states, moves, from, until - 1) + MirrorLoss(states[until - 1], moves[until - 1])
  }

  lemma {:induction false} HeldSince(states: seq<Ledger>, moves: seq<Move>, maxBytes: int, maxPrefix: int, from: nat, until: nat)
    requires IsRun(states, moves, maxBytes, maxPrefix) && from <= until <= |moves|
    ensures Held(states[until]) <= Held(states[from]) + IndexedIn(states, moves, from, until)
    ensures states[until].mirror >= states[from].mirror - MirrorLossIn(states, moves, from, until)
    decreases until
  {
    if from < until {
      HeldSince(states, moves, maxBytes, maxPrefix, from, until - 1);
      assert Step(states[until - 1], moves[until - 1], states[until], maxBytes, maxPrefix);
      HeldMoves(states[until - 1], moves[until - 1], states[until], maxBytes, maxPrefix);
    }
  }

  lemma {:induction false} AlwaysNonNegative(states: seq<Ledger>, moves: seq<Move>, maxBytes: int, maxPrefix: int, i: nat)
    requires IsRun(states, moves, maxBytes, maxPrefix) && i < |states|
    ensures NonNegative(states[i])
    decreases i
  {
    if i > 0 {
      AlwaysNonNegative(states, moves, maxBytes, maxPrefix, i - 1);
      assert Step(states[i - 1], moves[i - 1], states[i], maxBytes, maxPrefix);
      HeldMoves(states[i - 1], moves[i - 1], states[i], maxBytes, maxPrefix);
    }
  }

  /**
   A read falls short by no more than three things: the messages on their way from index to failed
   when the index was read, what left the mirror between the two reads, and what was indexed before
   the judgement.
   */
  lemma ReadIsShortBy(states: seq<Ledger>, moves: seq<Move>, maxBytes: int, maxPrefix: int, r: nat, s: nat, k: nat)
    requires IsRun(states, moves, maxBytes, maxPrefix) && r <= s <= k < |moves|
    requires moves[k].Admit? && moves[k].read == states[r].live + states[s].mirror
    ensures Shortfall(states[k], moves[k])
            <= Total(states[r].leaving) + MirrorLossIn(states, moves, r, s) + IndexedIn(states, moves, r, k)
  {
    HeldSince(states, moves, maxBytes, maxPrefix, r, k);
    HeldSince(states, moves, maxBytes, maxPrefix, r, s);
    AlwaysNonNegative(states, moves, maxBytes, maxPrefix, r);
    TotalNonNegative(states[r].doubled);
  }

  /** Reading and reserving are one step. */
  ghost predicate Atomic(a: Ledger, m: Move) {
    m.Admit? ==> m.read == a.live + a.mirror
  }

  /**
   With atomic reads only a failing message can be missed: the excess is one prefix for each commit
   in flight, and whatever is on its way from index to failed during an admission; nothing more if
   no admission falls between.
   */
  lemma AtomicCeiling(states: seq<Ledger>, moves: seq<Move>, maxBytes: int, maxPrefix: int, width: nat, gap: nat, i: nat)
    requires IsRun(states, moves, maxBytes, maxPrefix) && i < |states|
    requires 0 < maxBytes && 0 <= maxPrefix && Held(states[0]) <= maxBytes
    requires forall k :: 0 <= k < |moves| ==> Atomic(states[k], moves[k])
    requires forall k :: 0 <= k < |moves| && moves[k].Admit? ==> Total(states[k].leaving) <= gap
    requires forall k :: 0 <= k < |states| ==> |states[k].inFlight| <= width
    ensures Held(states[i]) <= maxBytes + width * maxPrefix + gap
  {
    forall k | 0 <= k < |moves|
      ensures Shortfall(states[k], moves[k]) <= gap
    {
      if moves[k].Admit? {
        ReadIsShortBy(states, moves, maxBytes, maxPrefix, k, k, k);
      }
    }
    CeilingHolds(states, moves, maxBytes, maxPrefix, width, gap, i);
  }

  // A run that reaches the bound: a message begins to fail, width commits of at least an octet each,
  // together as large as the ceiling, are all admitted while it is charged nowhere, and then all of
  // it is charged.

  function NthId(i: nat): QueueId {
    QueueId(seq(i, _ => 'x'))
  }

  /** The first commit takes what the others leave of the ceiling, and each of those takes an octet. */
  function SizeOf(i: nat, maxBytes: int, width: nat): int {
    if i == 0 then maxBytes - width + 1 else 1
  }

  function FirstIn(k: nat, maxBytes: int, width: nat): map<QueueId, int> {
    if k == 0 then map[] else FirstIn(k - 1, maxBytes, width)[NthId(k - 1) := SizeOf(k - 1, maxBytes, width)]
  }

  function BytesIn(k: nat, maxBytes: int, width: nat): int {
    if k == 0 then 0 else maxBytes - width + k
  }

  lemma {:induction false} FirstInFacts(k: nat, maxBytes: int, width: nat)
    ensures var m := FirstIn(k, maxBytes, width);
            && Total(m) == BytesIn(k, maxBytes, width) && |m| == k
            && (forall c :: c in m ==> |c.text| < k)
    decreases k
  {
    if k > 0 {
      FirstInFacts(k - 1, maxBytes, width);
      var before, id := FirstIn(k - 1, maxBytes, width), NthId(k - 1);
      assert |id.text| == k - 1 && id !in before;
      TotalPut(before, id, SizeOf(k - 1, maxBytes, width));
      assert before[id := SizeOf(k - 1, maxBytes, width)].Keys == before.Keys + {id};
    }
  }

  ghost function InGap(live: int, k: nat, gap: int, maxBytes: int, width: nat): Ledger {
    Ledger(live, 0, map[NthId(0) := gap], map[], FirstIn(k, maxBytes, width))
  }

  /** Step t of that run while the message is charged nowhere: first nothing is live, then one prefix more for each commit indexed. */
  ghost function StateAt(t: nat, gap: int, maxBytes: int, maxPrefix: int, width: nat): Ledger
    requires t <= 2 * width
  {
    if t <= width then InGap(0, t, gap, maxBytes, width)
    else InGap(BytesIn(width, maxBytes, width) - BytesIn(2 * width - t, maxBytes, width) + (t - width) * maxPrefix,
               2 * width - t, gap, maxBytes, width)
  }

  function MoveAt(t: nat, maxBytes: int, maxPrefix: int, width: nat): Move
    requires t < 2 * width
  {
    if t < width then Admit(NthId(t), SizeOf(t, maxBytes, width), 0) else Index(NthId(2 * width - t - 1), maxPrefix)
  }

  lemma AdmitNth(k: nat, gap: int, maxBytes: int, maxPrefix: int, width: nat)
    requires k < width <= maxBytes
    ensures Step(InGap(0, k, gap, maxBytes, width), Admit(NthId(k), SizeOf(k, maxBytes, width), 0),
                 InGap(0, k + 1, gap, maxBytes, width), maxBytes, maxPrefix)
  {
    FirstInFacts(k, maxBytes, width);
    assert |NthId(k).text| == k;
  }

  lemma IndexNth(k: nat, live: int, gap: int, maxBytes: int, maxPrefix: int, width: nat)
    requires 0 <= maxPrefix
    ensures Step(InGap(live, k + 1, gap, maxBytes, width), Index(NthId(k), maxPrefix),
                 InGap(live + SizeOf(k, maxBytes, width) + maxPrefix, k, gap, maxBytes, width), maxBytes, maxPrefix)
  {
    FirstInFacts(k, maxBytes, width);
    assert |NthId(k).text| == k;
    var before := FirstIn(k, maxBytes, width);
    assert before[NthId(k) := SizeOf(k, maxBytes, width)] - {NthId(k)} == before;
  }

  lemma OneMoreTimes(n: int, p: int)
    ensures (n + 1) * p == n * p + p
  {
  }

  lemma StepAt(t: nat, gap: int, maxBytes: int, maxPrefix: int, width: nat)
    requires t < 2 * width && width <= maxBytes && 0 < maxPrefix
    ensures var a, m := StateAt(t, gap, maxBytes, maxPrefix, width), MoveAt(t, maxBytes, maxPrefix, width);
            Step(a, m, StateAt(t + 1, gap, maxBytes, maxPrefix, width), maxBytes, maxPrefix) && Atomic(a, m)
  {
    if t < width {
      AdmitNth(t, gap, maxBytes, maxPrefix, width);
    } else {
      var k := 2 * width - t - 1;
      IndexNth(k, StateAt(t, gap, maxBytes, maxPrefix, width).live, gap, maxBytes, maxPrefix, width);
      OneMoreTimes(t - width, maxPrefix);
      assert BytesIn(k + 1, maxBytes, width) - BytesIn(k, maxBytes, width) == SizeOf(k, maxBytes, width);
    }
  }

  ghost function GapState(t: nat, gap: int, maxBytes: int, maxPrefix: int, width: nat): Ledger
    requires t <= 2 * width + 2
  {
    if t == 0 then Ledger(gap, 0, map[], map[], map[])
    else if t <= 2 * width + 1 then StateAt(t - 1, gap, maxBytes, maxPrefix, width)
    else Ledger(BytesIn(width, maxBytes, width) + width * maxPrefix, gap, map[], map[], map[])
  }

  function GapMove(t: nat, gap: int, maxBytes: int, maxPrefix: int, width: nat): Move
    requires t <= 2 * width + 1
  {
    if t == 0 then LeaveIndex(NthId(0), gap)
    else if t <= 2 * width then MoveAt(t - 1, maxBytes, maxPrefix, width)
    else ChargeMirror(NthId(0), gap)
  }

  lemma GapStep(t: nat, gap: nat, maxBytes: int, maxPrefix: int, width: nat)
    requires 0 < width <= maxBytes && 0 < maxPrefix && t <= 2 * width + 1
    ensures var a, m := GapState(t, gap, maxBytes, maxPrefix, width), GapMove(t, gap, maxBytes, maxPrefix, width);
            && Step(a, m, GapState(t + 1, gap, maxBytes, maxPrefix, width), maxBytes, maxPrefix) && Atomic(a, m)
            && (m.Admit? ==> Total(a.leaving) == gap)
  {
    TotalPut<QueueId>(map[], NthId(0), gap);
    if 0 < t <= 2 * width {
      StepAt(t - 1, gap, maxBytes, maxPrefix, width);
    } else {
      assert map[NthId(0) := gap] - {NthId(0)} == map[];
    }
  }

  lemma GapWidth(t: nat, gap: nat, maxBytes: int, maxPrefix: int, width: nat)
    requires t <= 2 * width + 2
    ensures |GapState(t, gap, maxBytes, maxPrefix, width).inFlight| <= width
  {
    if 0 < t <= 2 * width + 1 {
      FirstInFacts(if t - 1 <= width then t - 1 else 2 * width - (t - 1), maxBytes, width);
    }
  }

  /**
   No smaller bound holds, atomic reads or not: for every number of commits in flight, and every
   message that fails meanwhile, there is a run that reaches this one.
   */
  lemma EveryWidthReachesItsBound(gap: nat, maxBytes: int, maxPrefix: int, width: nat)
    requires 0 < width <= maxBytes && 0 < maxPrefix && gap <= maxBytes
    ensures exists states: seq<Ledger>, moves: seq<Move> ::
              && IsRun(states, moves, maxBytes, maxPrefix) && Held(states[0]) == gap
              && (forall k :: 0 <= k < |moves| ==> Atomic(states[k], moves[k]))
              && (forall k :: 0 <= k < |moves| && moves[k].Admit? ==> Total(states[k].leaving) == gap)
              && (forall k :: 0 <= k < |states| ==> |states[k].inFlight| <= width)
              && Held(states[|states| - 1]) == maxBytes + width * maxPrefix + gap
  {
    var states := seq(2 * width + 3, t requires 0 <= t <= 2 * width + 2 => GapState(t, gap, maxBytes, maxPrefix, width));
    var moves := seq(2 * width + 2, t requires 0 <= t <= 2 * width + 1 => GapMove(t, gap, maxBytes, maxPrefix, width));
    forall k | 0 <= k < |moves|
      ensures Step(states[k], moves[k], states[k + 1], maxBytes, maxPrefix) && Atomic(states[k], moves[k])
      ensures moves[k].Admit? ==> Total(states[k].leaving) == gap
    {
      GapStep(k, gap, maxBytes, maxPrefix, width);
    }
    forall k | 0 <= k < |states|
      ensures |states[k].inFlight| <= width
    {
      GapWidth(k, gap, maxBytes, maxPrefix, width);
    }
    assert IsRun(states, moves, maxBytes, maxPrefix);
  }

  /**
   When the read is not atomic with the reservation, commits that all read early can each
   pass: any number of messages of the full ceiling, not one message over it. The last read is
   short of all of them but one, so this too is the ceiling and the worst shortfall.
   */
  lemma StaleReadsAreNotBounded(size: int, count: nat)
    requires 0 < size && 0 < count
    ensures exists states: seq<Ledger>, moves: seq<Move> ::
              IsRun(states, moves, size, 0) && AllReadEarly(states, moves, (count - 1) * size)
              && states[|states| - 1] == Ledger(count * size, 0, map[], map[], map[])
  {
    var states, moves := AllEarly(size, count);
    TimesIs(count, size);
    TimesIs(count - 1, size);
    assert IsRun(states, moves, size, 0) && AllReadEarly(states, moves, (count - 1) * size);
  }

  function Times(n: nat, size: int): int {
    if n == 0 then 0 else Times(n - 1, size) + size
  }

  lemma {:induction false} TimesIs(n: nat, size: int)
    ensures Times(n, size) == n * size
  {
    if n > 0 {
      TimesIs(n - 1, size);
    }
  }

  lemma NoneEarly(l: Ledger, size: int)
    requires l == Ledger(0, 0, map[], map[], map[])
    ensures EarlyRun([l], [], size, 0)
  {
  }

  lemma {:induction false} AllEarly(size: int, count: nat) returns (states: seq<Ledger>, moves: seq<Move>)
    requires 0 < size
    ensures EarlyRun(states, moves, size, Times(count, size))
    decreases count
  {
    if count == 0 {
      var empty := Ledger(0, 0, map[], map[], map[]);
      states, moves := [empty], [];
      NoneEarly(empty, size);
    } else {
      var live := Times(count - 1, size);
      states, moves := AllEarly(size, count - 1);
      states, moves := OneMoreEarly(states, moves, size, live);
      assert Times(count, size) == live + size;
    }
  }

  lemma OneMoreEarly(was: seq<Ledger>, before: seq<Move>, size: int, live: int)
      returns (states: seq<Ledger>, moves: seq<Move>)
    requires 0 < size && EarlyRun(was, before, size, live)
    ensures EarlyRun(states, moves, size, live + size)
  {
    var c := QueueId("");
    var last := was[|was| - 1];
    var admitted := last.(inFlight := map[c := size]);
    assert map[c := size] - {c} == map[];
    states := was + [admitted, Ledger(live + size, 0, map[], map[], map[])];
    moves := before + [Admit(c, size, 0), Index(c, 0)];
    assert Step(last, Admit(c, size, 0), admitted, size, 0);
    forall k | 0 <= k < |moves|
      ensures Step(states[k], moves[k], states[k + 1], size, 0)
      ensures moves[k].Admit? ==> moves[k].read == 0 && Shortfall(states[k], moves[k]) <= live
    {
      if k < |before| {
        assert states[k] == was[k] && states[k + 1] == was[k + 1] && moves[k] == before[k];
        assert moves[k].Admit? ==> Shortfall(was[k], before[k]) <= live - size;
      }
    }
  }

  ghost predicate EarlyRun(states: seq<Ledger>, moves: seq<Move>, size: int, live: int) {
    && IsRun(states, moves, size, 0) && AllReadEarly(states, moves, live - size)
    && states[|states| - 1] == Ledger(live, 0, map[], map[], map[])
  }

  /** Every admission was judged against the empty spool the run started with, and none fell further short than this. */
  ghost predicate AllReadEarly(states: seq<Ledger>, moves: seq<Move>, short: int) {
    && |states| == |moves| + 1 && states[0].live == states[0].mirror == 0
    && (forall k :: 0 <= k < |moves| && moves[k].Admit? ==> moves[k].read == 0 && Shortfall(states[k], moves[k]) <= short)
  }
}
