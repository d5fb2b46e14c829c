/**
 Failure reports: one dispatcher turns the failures recorded per origin into digests, while
 deliveries keep recording more of them, and no failure goes missing on the way.
 */
module Bounce {
  import opened Types

  const MAX_DIGEST_ENTRIES := 200

  const MAX_PENDING := 10 * MAX_DIGEST_ENTRIES

  // One digest: what it says, and the start of the hour it was charged to.
  datatype Digest = Digest(origin: string, total: int, listed: seq<QueueId>, omitted: int, hour: Time)

  datatype Client = Client(name: string, notify: seq<string>)

  function Ids(m: map<string, seq<QueueId>>, origin: string): seq<QueueId> {
    if origin in m then m[origin] else []
  }

  function Num(m: map<string, int>, origin: string): int {
    if origin in m then m[origin] else 0
  }

  /** The counters once these failures are counted for this origin, or not. */
  ghost function Counted(m: map<string, int>, origin: string, n: int, yes: bool): map<string, int> {
    if yes then m[origin := Num(m, origin) + n] else m
  }

  ghost function Bag(m: map<string, multiset<QueueId>>, origin: string): multiset<QueueId> {
    if origin in m then m[origin] else multiset{}
  }

  function RecipientsFor(clients: seq<Client>, everyone: seq<string>, origin: string): seq<string> {
    if clients == [] then everyone
    else if clients[0].name == origin && clients[0].notify != [] then clients[0].notify
    else RecipientsFor(clients[1..], everyone, origin)
  }

  predicate OwnList(c: Client, origin: string, to: seq<string>) {
    c.name == origin && to == c.notify != []
  }

  /** A client's own list if it has one, else the global one; nobody else's. */
  lemma {:induction false} OwnListFirst(clients: seq<Client>, everyone: seq<string>, origin: string)
    ensures var to := RecipientsFor(clients, everyone, origin);
            if exists c :: c in clients && OwnList(c, origin, c.notify)
            then exists c :: c in clients && OwnList(c, origin, to)
            else to == everyone
  {
    if clients != [] {
      OwnListFirst(clients[1..], everyone, origin);
      assert clients[0] in clients && forall c :: c in clients <==> c == clients[0] || c in clients[1..];
      var to := RecipientsFor(clients, everyone, origin);
      assert clients[0].name == origin && clients[0].notify != [] ==> OwnList(clients[0], origin, to);
    }
  }

  /** What a digest says about these failures: its total is all of them, listed or not. */
  function Compose(origin: string, ids: seq<QueueId>, overflow: int, hour: Time): (d: Digest)
    ensures d.total == |ids| + overflow == |d.listed| + d.omitted
    ensures d.listed <= ids && |d.listed| <= MAX_DIGEST_ENTRIES
    ensures d.omitted > overflow ==> |d.listed| == MAX_DIGEST_ENTRIES
  {
    var listed := if |ids| > MAX_DIGEST_ENTRIES then ids[..MAX_DIGEST_ENTRIES] else ids;
    Digest(origin, |ids| + overflow, listed, |ids| + overflow - |listed|, hour)
  }

  // Where every failure recorded so far for one origin is.
  datatype Account = Account(
    failed: multiset<QueueId>,      // all of them
    sent: int,                      // in digests that went out
    dropped: int,                   // because nobody is to be told
    told: multiset<QueueId>,        // the ids among the last two
    pending: seq<QueueId>,
    overflow: int,
    draining: seq<QueueId>,         // taken by the dispatcher, fate still open
    drainingOver: int)

  /** Ids are kept up to the cap, and only past a full list are failures merely counted. */
  ghost predicate Capped(ids: seq<QueueId>, over: int) {
    |ids| <= MAX_PENDING && 0 <= over && (0 < over ==> |ids| == MAX_PENDING)
  }

  /** Nothing is lost, invented or told twice. */
  ghost predicate Balanced(a: Account) {
    && Capped(a.pending, a.overflow) && Capped(a.draining, a.drainingOver)
    && |a.failed| == a.sent + a.dropped + |a.pending| + a.overflow + |a.draining| + a.drainingOver
    && a.told + multiset(a.pending) + multiset(a.draining) <= a.failed
  }

  ghost function Recorded(a: Account, id: QueueId): Account {
    var a := a.(failed := a.failed + multiset{id});
    if |a.pending| >= MAX_PENDING then a.(overflow := a.overflow + 1) else a.(pending := a.pending + [id])
  }

  ghost function Drained(a: Account): Account {
    a.(pending := [], overflow := 0, draining := a.pending, drainingOver := a.overflow)
  }

  ghost function Told(a: Account, mailed: bool): Account {
    var total := |a.draining| + a.drainingOver;
    a.(told := a.told + multiset(a.draining), draining := [], drainingOver := 0,
       sent := if mailed then a.sent + total else a.sent,
       dropped := if mailed then a.dropped else a.dropped + total)
  }

  ghost function PutBack(a: Account): Account {
    var room := Max(MAX_PENDING - |a.pending|, 0);
    var kept := if |a.draining| > room then a.draining[..room] else a.draining;
    a.(pending := a.pending + kept, overflow := a.overflow + a.drainingOver + |a.draining| - |kept|,
       draining := [], drainingOver := 0)
  }

  lemma RecordedKeepsBalance(a: Account, id: QueueId)
    requires Balanced(a)
    ensures Balanced(Recorded(a, id))
  {
    assert multiset(a.pending + [id]) == multiset(a.pending) + multiset{id};
  }

  /** An origin with an overflow has a full list, so going through the lists meets it. */
  lemma DrainedKeepsBalance(a: Account)
    requires Balanced(a) && a.draining == [] && a.drainingOver == 0
    ensures Balanced(Drained(a)) && (0 < a.overflow ==> a.pending != [])
  {
  }

  lemma ToldKeepsBalance(a: Account, mailed: bool)
    requires Balanced(a)
    ensures Balanced(Told(a, mailed))
  {
  }

  lemma PutBackKeepsBalance(a: Account)
    requires Balanced(a)
    ensures Balanced(PutBack(a))
  {
    var room := Max(MAX_PENDING - |a.pending|, 0);
    if |a.draining| > room {
      assert a.draining == a.draining[..room] + a.draining[room..];
      assert multiset(a.draining) == multiset(a.draining[..room]) + multiset(a.draining[room..]);
    }
    var kept := if |a.draining| > room then a.draining[..room] else a.draining;
    assert multiset(a.pending + kept) == multiset(a.pending) + multiset(kept);
  }

  // The accounts of every origin, as the notifier's maps hold them.
  datatype Ledger = Ledger(
    failed: map<string, multiset<QueueId>>,
    sent: map<string, int>,
    dropped: map<string, int>,
    told: map<string, multiset<QueueId>>,
    pending: map<string, seq<QueueId>>,
    overflow: map<string, int>,
    draining: map<string, seq<QueueId>>,
    drainingOver: map<string, int>)

  ghost function AccountOf(l: Ledger, o: string): Account {
    Account(Bag(l.failed, o), Num(l.sent, o), Num(l.dropped, o), Bag(l.told, o), Ids(l.pending, o), Num(l.overflow, o),
            Ids(l.draining, o), Num(l.drainingOver, o))
  }

  ghost predicate AllBalanced(l: Ledger) {
    forall o {:trigger Balanced(AccountOf(l, o))} :: Balanced(AccountOf(l, o))
  }

  ghost function RecordIn(l: Ledger, o: string, id: QueueId): Ledger {
    var full := |Ids(l.pending, o)| >= MAX_PENDING;
    l.(failed := l.failed[o := Bag(l.failed, o) + multiset{id}],
       overflow := if full then l.overflow[o := Num(l.overflow, o) + 1] else l.overflow,
       pending := if full then l.pending else l.pending[o := Ids(l.pending, o) + [id]])
  }

  ghost function DrainIn(l: Ledger): Ledger {
    l.(pending := map[], overflow := map[], draining := l.pending,
       drainingOver := map o | o in l.pending :: Num(l.overflow, o))
  }

  ghost function TellIn(l: Ledger, o: string, mailed: bool): Ledger {
    var a := Told(AccountOf(l, o), mailed);
    l.(told := l.told[o := a.told], draining := l.draining - {o}, drainingOver := l.drainingOver - {o},
       sent := if mailed then l.sent[o := a.sent] else l.sent,
       dropped := if mailed then l.dropped else l.dropped[o := a.dropped])
  }

  ghost function PutBackIn(l: Ledger, o: string): Ledger {
    var a := PutBack(AccountOf(l, o));
    l.(pending := l.pending[o := a.pending], overflow := l.overflow[o := a.overflow],
       draining := l.draining - {o}, drainingOver := l.drainingOver - {o})
  }

  /** No failure is forgotten and nothing that was told or dropped is taken back. */
  ghost predicate Grew(l: Ledger, l': Ledger) {
    forall o {:trigger AccountGrew(AccountOf(l, o), AccountOf(l', o))} :: AccountGrew(AccountOf(l, o), AccountOf(l', o))
  }

  ghost predicate AccountGrew(a: Account, b: Account) {
    a.failed <= b.failed && a.told <= b.told && a.sent <= b.sent && a.dropped <= b.dropped
  }

  lemma GrewOn(a: Ledger, b: Ledger, c: Ledger)
    requires Grew(a, b) && Grew(b, c)
    ensures Grew(a, c)
  {
    forall o
      ensures AccountGrew(AccountOf(a, o), AccountOf(c, o))
    {
      assert AccountGrew(AccountOf(a, o), AccountOf(b, o)) && AccountGrew(AccountOf(b, o), AccountOf(c, o));
    }
  }

  lemma OneAccountGrew(l: Ledger, l': Ledger, o: string)
    requires Only(l, l', o) && AccountGrew(AccountOf(l, o), AccountOf(l', o))
    ensures Grew(l, l')
  {
    forall k
      ensures AccountGrew(AccountOf(l, k), AccountOf(l', k))
    {
      assert k != o ==> AccountOf(l', k) == AccountOf(l, k);
    }
  }

  /** The failures in the digests that went out for one origin. */
  ghost function InDigests(digests: seq<Digest>, o: string): int {
    if digests == [] then 0
    else
      var last := digests[|digests| - 1];
      InDigests(digests[..|digests| - 1], o) + (if last.origin == o then last.total else 0)
  }

  /** Between the two only failures were recorded. */
  ghost predicate OnlyRecorded(l: Ledger, l': Ledger) {
    l'.sent == l.sent && l'.dropped == l.dropped && l'.told == l.told
    && l'.draining == l.draining && l'.drainingOver == l.drainingOver
  }

  /** The dispatcher has nothing of this origin in its hands any more. */
  ghost predicate TakenOut(l: Ledger, l': Ledger, o: string) {
    l'.draining == l.draining - {o} && l'.drainingOver == l.drainingOver - {o}
  }

  /** What counts as sent is what the digests say. */
  ghost predicate SentAdds(sent: map<string, int>, digests: seq<Digest>) {
    forall o {:trigger InDigests(digests, o)} :: Num(sent, o) == InDigests(digests, o)
  }

  lemma SentAddsOne(sent: map<string, int>, digests: seq<Digest>, d: Digest)
    requires SentAdds(sent, digests)
    ensures SentAdds(sent[d.origin := Num(sent, d.origin) + d.total], digests + [d])
  {
    assert (digests + [d])[..|digests|] == digests;
    forall o
      ensures InDigests(digests + [d], o) == InDigests(digests, o) + (if d.origin == o then d.total else 0)
    {
    }
  }

  /**
   What a dispatch has made of the failures it took for one origin: dropped when nobody is to be
   told, else sent whole, or kept because the mail did not go out or the hour's budget is spent.
   */
  ghost predicate Dealt(o: string, total: int, before: Ledger, now: Ledger, to: seq<string>, goes: bool, spent: bool) {
    && Num(now.dropped, o) == Num(before.dropped, o) + (if to == [] then total else 0)
    && (Num(now.sent, o) == Num(before.sent, o)
        || (to != [] && goes && Num(now.sent, o) == Num(before.sent, o) + total))
    && (to != [] && goes && !spent ==> Num(now.sent, o) == Num(before.sent, o) + total)
  }

  /** So for every origin dealt with; the others have neither lost nor sent anything. */
  ghost predicate DealtSoFar(done: set<string>, taken: map<string, seq<QueueId>>, over: map<string, int>, before: Ledger,
                             now: Ledger, clients: seq<Client>, everyone: seq<string>, goes: set<string>, spent: bool)
  {
    forall o :: if o in done
                then Dealt(o, TakenFor(o, taken, over), before, now, RecipientsFor(clients, everyone, o), o in goes, spent)
                else Num(now.sent, o) == Num(before.sent, o) && Num(now.dropped, o) == Num(before.dropped, o)
  }

  lemma OneMoreDealt(done: set<string>, origin: string, taken: map<string, seq<QueueId>>, over: map<string, int>,
                     before: Ledger, mid: Ledger, now: Ledger, clients: seq<Client>, everyone: seq<string>,
                     goes: set<string>, spent: bool, spent': bool)
    requires DealtSoFar(done, taken, over, before, mid, clients, everyone, goes, spent) && origin !in done && (spent ==> spent')
    requires var total, to := TakenFor(origin, taken, over), RecipientsFor(clients, everyone, origin);
             && now.sent == Counted(mid.sent, origin, total, to != [] && !spent && origin in goes)
             && now.dropped == Counted(mid.dropped, origin, total, to == [])
    ensures DealtSoFar(done + {origin}, taken, over, before, now, clients, everyone, goes, spent')
  {
    forall o | o != origin
      ensures Num(now.sent, o) == Num(mid.sent, o) && Num(now.dropped, o) == Num(mid.dropped, o)
    {
    }
    var total, to := TakenFor(origin, taken, over), RecipientsFor(clients, everyone, origin);
    assert Num(mid.sent, origin) == Num(before.sent, origin) && Num(mid.dropped, origin) == Num(before.dropped, origin);
    assert Dealt(origin, total, before, now, to, origin in goes, spent');
    forall o | o in done
      ensures Dealt(o, TakenFor(o, taken, over), before, now, RecipientsFor(clients, everyone, o), o in goes, spent')
    {
      assert Dealt(o, TakenFor(o, taken, over), before, mid, RecipientsFor(clients, everyone, o), o in goes, spent);
    }
  }

  ghost function TakenFor(o: string, pending: map<string, seq<QueueId>>, overflow: map<string, int>): int {
    |Ids(pending, o)| + Num(overflow, o)
  }

  /** Only this origin's account differs. */
  ghost predicate Only(l: Ledger, l': Ledger, o: string) {
    forall k :: k != o ==> AccountOf(l', k) == AccountOf(l, k)
  }

  lemma OneAccountChanged(l: Ledger, l': Ledger, o: string)
    requires AllBalanced(l) && Only(l, l', o) && Balanced(AccountOf(l', o))
    ensures AllBalanced(l')
  {
    forall k
      ensures Balanced(AccountOf(l', k))
    {
      if k != o {
        assert AccountOf(l', k) == AccountOf(l, k);
      }
    }
  }

  lemma RecordInAccount(l: Ledger, o: string, id: QueueId)
    ensures AccountOf(RecordIn(l, o, id), o) == Recorded(AccountOf(l, o), id)
  {
    assert Bag(RecordIn(l, o, id).failed, o) == AccountOf(l, o).failed + multiset{id};
  }

  lemma RecordInOnly(l: Ledger, o: string, id: QueueId)
    ensures Only(l, RecordIn(l, o, id), o)
  {
    forall k | k != o
      ensures AccountOf(RecordIn(l, o, id), k) == AccountOf(l, k)
    {
      assert Bag(RecordIn(l, o, id).failed, k) == Bag(l.failed, k);
    }
  }

  lemma RecordInKeeps(l: Ledger, o: string, id: QueueId)
    requires AllBalanced(l)
    ensures AllBalanced(RecordIn(l, o, id)) && Grew(l, RecordIn(l, o, id))
  {
    RecordInAccount(l, o, id);
    RecordInOnly(l, o, id);
    assert Balanced(AccountOf(l, o));
    RecordedKeepsBalance(AccountOf(l, o), id);
    OneAccountChanged(l, RecordIn(l, o, id), o);
    OneAccountGrew(l, RecordIn(l, o, id), o);
  }

  lemma DrainInKeeps(l: Ledger)
    requires AllBalanced(l) && l.draining == map[] && l.drainingOver == map[]
    ensures AllBalanced(DrainIn(l)) && forall o :: AccountOf(DrainIn(l), o) == Drained(AccountOf(l, o))
  {
    forall o
      ensures AccountOf(DrainIn(l), o) == Drained(AccountOf(l, o)) && Balanced(Drained(AccountOf(l, o)))
    {
      var a := AccountOf(l, o);
      assert Balanced(a);
      DrainedKeepsBalance(a);
      assert o !in l.pending ==> a.overflow == 0;
    }
  }

  lemma DrainInGrows(l: Ledger)
    ensures Grew(l, DrainIn(l))
  {
    forall o
      ensures AccountGrew(AccountOf(l, o), AccountOf(DrainIn(l), o))
    {
    }
  }

  lemma TellInAccount(l: Ledger, o: string, mailed: bool)
    ensures Only(l, TellIn(l, o, mailed), o) && AccountOf(TellIn(l, o, mailed), o) == Told(AccountOf(l, o), mailed)
  {
  }

  lemma TellInKeeps(l: Ledger, o: string, mailed: bool)
    requires AllBalanced(l)
    ensures AllBalanced(TellIn(l, o, mailed)) && Grew(l, TellIn(l, o, mailed))
  {
    TellInAccount(l, o, mailed);
    assert Balanced(AccountOf(l, o));
    ToldKeepsBalance(AccountOf(l, o), mailed);
    OneAccountChanged(l, TellIn(l, o, mailed), o);
    OneAccountGrew(l, TellIn(l, o, mailed), o);
  }

  lemma PutBackInAccount(l: Ledger, o: string)
    ensures Only(l, PutBackIn(l, o), o) && AccountOf(PutBackIn(l, o), o) == PutBack(AccountOf(l, o))
  {
  }

  /** What a settlement does to the two counters, and a return to the two lists, in the words of the code. */
  lemma TellInCounts(l: Ledger, o: string, mailed: bool, ids: seq<QueueId>, over: int)
    requires Ids(l.draining, o) == ids && Num(l.drainingOver, o) == over
    ensures var l' := TellIn(l, o, mailed);
            && l'.sent == Counted(l.sent, o, |ids| + over, mailed)
            && l'.dropped == Counted(l.dropped, o, |ids| + over, !mailed)
            && l'.pending == l.pending && l'.overflow == l.overflow && TakenOut(l, l', o)
  {
  }

  lemma PutBackInLists(l: Ledger, o: string, ids: seq<QueueId>, over: int)
    requires Ids(l.draining, o) == ids && Num(l.drainingOver, o) == over
    ensures var l', room := PutBackIn(l, o), Max(MAX_PENDING - |Ids(l.pending, o)|, 0);
            && l'.pending == l.pending[o := Ids(l.pending, o) + (if |ids| > room then ids[..room] else ids)]
            && l'.overflow == l.overflow[o := Num(l.overflow, o) + (if |ids| > room then over + |ids| - room else over)]
            && l'.sent == l.sent && l'.dropped == l.dropped && TakenOut(l, l', o)
  {
  }

  lemma PutBackInKeeps(l: Ledger, o: string)
    requires AllBalanced(l)
    ensures AllBalanced(PutBackIn(l, o)) && Grew(l, PutBackIn(l, o))
  {
    PutBackInAccount(l, o);
    assert Balanced(AccountOf(l, o));
    PutBackKeepsBalance(AccountOf(l, o));
    OneAccountChanged(l, PutBackIn(l, o), o);
    OneAccountGrew(l, PutBackIn(l, o), o);
  }

  ghost function Restricted(m: map<string, seq<QueueId>>, todo: set<string>): map<string, seq<QueueId>> {
    map o | o in todo :: Ids(m, o)
  }

  ghost function RestrictedNum(m: map<string, int>, todo: set<string>): map<string, int> {
    map o | o in todo :: Num(m, o)
  }

  lemma NoOriginLeft(taken: map<string, seq<QueueId>>, over: map<string, int>)
    ensures Restricted(taken, {}) == map[] && RestrictedNum(over, {}) == map[]
  {
  }

  lemma InHand(l: Ledger, taken: map<string, seq<QueueId>>, over: map<string, int>, todo: set<string>, origin: string)
    requires l.draining == Restricted(taken, todo) && l.drainingOver == RestrictedNum(over, todo)
    requires origin in todo && origin in taken
    ensures Ids(l.draining, origin) == taken[origin] && Num(l.drainingOver, origin) == Num(over, origin)
  {
  }

  lemma OutOfHand(l: Ledger, l': Ledger, taken: map<string, seq<QueueId>>, over: map<string, int>, todo: set<string>,
                  origin: string)
    requires l.draining == Restricted(taken, todo) && l.drainingOver == RestrictedNum(over, todo) && TakenOut(l, l', origin)
    ensures l'.draining == Restricted(taken, todo - {origin}) && l'.drainingOver == RestrictedNum(over, todo - {origin})
  {
  }

  /** How many digests were charged to one hour. */
  ghost function ChargedTo(digests: seq<Digest>, hour: Time): nat {
    if digests == [] then 0
    else ChargedTo(digests[..|digests| - 1], hour) + (if digests[|digests| - 1].hour == hour then 1 else 0)
  }

  /** No hour is charged with more digests than the cap, and the current one with what was counted. */
  ghost predicate CapHolds(digests: seq<Digest>, hour: Time, sentThisHour: int, maxPerHour: int) {
    && (forall h :: ChargedTo(digests, h) <= Max(maxPerHour, 0))
    && ChargedTo(digests, hour) == sentThisHour
    && (forall d :: d in digests ==> d.hour <= hour)
  }

  /** What was added to the digests is all charged to this hour. */
  ghost predicate ChargedOnlyTo(before: seq<Digest>, digests: seq<Digest>, hour: Time) {
    before <= digests && forall k :: |before| <= k < |digests| ==> digests[k].hour == hour
  }

  lemma {:induction false} NothingChargedLater(digests: seq<Digest>, hour: Time)
    requires forall d :: d in digests ==> d.hour < hour
    ensures ChargedTo(digests, hour) == 0
  {
    if digests != [] {
      NothingChargedLater(digests[..|digests| - 1], hour);
    }
  }

  lemma OneMoreDigest(digests: seq<Digest>, d: Digest, maxPerHour: int)
    requires CapHolds(digests, d.hour, ChargedTo(digests, d.hour), maxPerHour)
    requires ChargedTo(digests, d.hour) < maxPerHour
    ensures CapHolds(digests + [d], d.hour, ChargedTo(digests, d.hour) + 1, maxPerHour)
  {
    assert (digests + [d])[..|digests|] == digests;
    forall h
      ensures ChargedTo(digests + [d], h) == ChargedTo(digests, h) + (if h == d.hour then 1 else 0)
    {
    }
  }

  /** What holds of the digests that went out: the cap, and that they say what counts as sent. */
  ghost predicate DigestsRight(digests: seq<Digest>, sent: map<string, int>, hour: Time, sentThisHour: int, maxPerHour: int) {
    CapHolds(digests, hour, sentThisHour, maxPerHour) && SentAdds(sent, digests)
  }

  lemma OneMoreDigestRight(digests: seq<Digest>, sent: map<string, int>, d: Digest, n: int, maxPerHour: int)
    requires DigestsRight(digests, sent, d.hour, n - 1, maxPerHour) && n <= maxPerHour
    ensures DigestsRight(digests + [d], Counted(sent, d.origin, d.total, true), d.hour, n, maxPerHour)
  {
    OneMoreDigest(digests, d, maxPerHour);
    SentAddsOne(sent, digests, d);
  }

  class Notifier {
    const clients: seq<Client>
    const everyone: seq<string>
    const maxPerHour: int

    var pending: map<string, seq<QueueId>>
    var overflow: map<string, int>
    var hourStart: Time
    var sentThisHour: int

    ghost var books: Ledger
    ghost var digests: seq<Digest>

    constructor (clients: seq<Client>, everyone: seq<string>, maxPerHour: int, now: Time)
      ensures Valid() && Idle() && hourStart == now
      ensures this.clients == clients && this.everyone == everyone && this.maxPerHour == maxPerHour
    {
      this.clients, this.everyone, this.maxPerHour := clients, everyone, maxPerHour;
      pending, overflow, hourStart, sentThisHour := map[], map[], now, 0;
      books, digests := Ledger(map[], map[], map[], map[], map[], map[], map[], map[]), [];
    }

    /** The books follow every move of a failure. */
    ghost predicate Kept()
      reads this
    {
      books.pending == pending && books.overflow == overflow && AllBalanced(books)
    }

    /** What holds whenever the lock is free. */
    ghost predicate Valid()
      reads this
    {
      Kept() && DigestsRight(digests, books.sent, hourStart, sentThisHour, maxPerHour)
    }

    /** No dispatch is under way. */
    ghost predicate Idle()
      reads this
    {
      books.draining == map[] && books.drainingOver == map[]
    }

    method RecordFail(origin: string, id: QueueId)
      requires Kept()
      modifies this`pending, this`overflow, this`books
      ensures Kept() && books == RecordIn(old(books), origin, id) && Grew(old(books), books)
    {
      RecordInKeeps(books, origin, id);
      books := RecordIn(books, origin, id);
      if |Ids(pending, origin)| >= MAX_PENDING {
        overflow := overflow[origin := Num(overflow, origin) + 1];
        return;
      }
      pending := pending[origin := Ids(pending, origin) + [id]];
    }

    /** Whatever deliveries record while the dispatcher does not hold the lock. */
    method Meanwhile()
      requires Kept()
      modifies this`pending, this`overflow, this`books
      ensures Kept() && Grew(old(books), books) && OnlyRecorded(old(books), books)
    {
      var more: int := *;
      ghost var was := books;
      while 0 < more
        invariant Kept() && Grew(was, books) && OnlyRecorded(was, books)
      {
        ghost var mid := books;
        var origin: string, id: QueueId := *, *;
        RecordFail(origin, id);
        GrewOn(was, mid, books);
        more := more - 1;
      }
    }

    /**
     dispatch: one digest per origin, within the hourly cap. goes says for which origins the mail
     can be handed over. Every failure it took away is told, dropped for want of a recipient, or
     put back, and no failure recorded before or meanwhile is forgotten.
     */
    method Dispatch(now: Time, goes: set<string>)
      requires Valid() && Idle() && hourStart <= now
      modifies this
      ensures Valid() && Idle()
      ensures Grew(old(books), books)
      ensures DealtSoFar(old(pending).Keys, old(pending), old(overflow), old(books), books, clients, everyone, goes,
                         maxPerHour <= sentThisHour)
      ensures hourStart == if now - old(hourStart) >= HOUR then now else old(hourStart)
      ensures ChargedOnlyTo(old(digests), digests, hourStart)
    {
      ghost var l := books;
      var taken, over := Drain(now);
      ghost var drained := books;
      DispatchAll(taken, over, goes);
      NoOriginLeft(taken, over);
      GrewOn(l, drained, books);
    }

    /** In the middle of a dispatch: these origins are still in the dispatcher's hands, those are dealt with. */
    ghost predicate Underway(todo: set<string>, done: set<string>, taken: map<string, seq<QueueId>>, over: map<string, int>,
                             goes: set<string>, l: Ledger, was: seq<Digest>)
      reads this
    {
      && Valid()
      && books.draining == Restricted(taken, todo) && books.drainingOver == RestrictedNum(over, todo)
      && ChargedOnlyTo(was, digests, hourStart) && Grew(l, books)
      && DealtSoFar(done, taken, over, l, books, clients, everyone, goes, maxPerHour <= sentThisHour)
    }

    method DispatchAll(taken: map<string, seq<QueueId>>, over: map<string, int>, goes: set<string>)
      requires Valid()
      requires books.draining == Restricted(taken, taken.Keys) && books.drainingOver == RestrictedNum(over, taken.Keys)
      modifies this`pending, this`overflow, this`sentThisHour, this`books, this`digests
      ensures Underway({}, taken.Keys, taken, over, goes, old(books), old(digests))
    {
      var todo := taken.Keys;
      ghost var l, was, done: set<string> := books, digests, {};
      while todo != {}
        invariant todo !! done && todo + done == taken.Keys
        invariant Underway(todo, done, taken, over, goes, l, was)
        decreases |todo|
      {
        var origin :| origin in todo;
        DispatchNext(origin, taken, over, todo, goes, done, l, was);
        todo, done := todo - {origin}, done + {origin};
      }
      assert done == taken.Keys;
    }

    method DispatchNext(origin: string, taken: map<string, seq<QueueId>>, over: map<string, int>, ghost todo: set<string>,
                        goes: set<string>, ghost done: set<string>, ghost l: Ledger, ghost was: seq<Digest>)
      requires origin in todo && origin in taken && origin !in done
      requires Underway(todo, done, taken, over, goes, l, was)
      modifies this`pending, this`overflow, this`sentThisHour, this`books, this`digests
      ensures Underway(todo - {origin}, done + {origin}, taken, over, goes, l, was)
    {
      ghost var mid, spent := books, maxPerHour <= sentThisHour;
      InHand(mid, taken, over, todo, origin);
      DispatchOne(origin, taken[origin], Num(over, origin), origin in goes);
      OutOfHand(mid, books, taken, over, todo, origin);
      GrewOn(l, mid, books);
      OneMoreDealt(done, origin, taken, over, l, mid, books, clients, everyone, goes, spent, maxPerHour <= sentThisHour);
    }

    /** The first critical section of dispatch. */
    method Drain(now: Time) returns (taken: map<string, seq<QueueId>>, over: map<string, int>)
      requires Valid() && Idle() && hourStart <= now
      modifies this`pending, this`overflow, this`hourStart, this`sentThisHour, this`books
      ensures Valid() && books == DrainIn(old(books)) && Grew(old(books), books)
      ensures taken == old(pending) && over == old(overflow)
      ensures books.draining == Restricted(taken, taken.Keys) && books.drainingOver == RestrictedNum(over, taken.Keys)
      ensures hourStart == if now - old(hourStart) >= HOUR then now else old(hourStart)
    {
      if now - hourStart >= HOUR {
        NothingChargedLater(digests, now);
        hourStart, sentThisHour := now, 0;
      }
      DrainInKeeps(books);
      DrainInGrows(books);
      books := DrainIn(books);
      taken, over := pending, overflow;
      pending, overflow := map[], map[];
    }

    /** What dispatch does for one origin. Deliveries record more whenever the lock is free. */
    method DispatchOne(origin: string, ids: seq<QueueId>, over: int, goes: bool)
      requires Valid() && Ids(books.draining, origin) == ids && Num(books.drainingOver, origin) == over
      modifies this`pending, this`overflow, this`sentThisHour, this`books, this`digests
      ensures Valid() && Grew(old(books), books) && TakenOut(old(books), books, origin)
      ensures var out := RecipientsFor(clients, everyone, origin) != [] && old(sentThisHour) < maxPerHour && goes;
              && digests == (if out then old(digests) + [Compose(origin, ids, over, hourStart)] else old(digests))
              && sentThisHour == old(sentThisHour) + (if out then 1 else 0)
              && books.sent == Counted(old(books).sent, origin, |ids| + over, out)
      ensures books.dropped ==
              Counted(old(books).dropped, origin, |ids| + over, RecipientsFor(clients, everyone, origin) == [])
    {
      var recipients := RecipientsFor(clients, everyone, origin);
      if recipients == [] {
        Settle(origin, false, ids, over);
      } else {
        Notify(origin, ids, over, goes);
      }
    }

    /** Ask for a unit of the hourly budget, and send or put back. */
    method Notify(origin: string, ids: seq<QueueId>, over: int, goes: bool)
      requires Valid() && Ids(books.draining, origin) == ids && Num(books.drainingOver, origin) == over
      modifies this`pending, this`overflow, this`sentThisHour, this`books, this`digests
      ensures Valid() && Grew(old(books), books) && TakenOut(old(books), books, origin)
      ensures var out := old(sentThisHour) < maxPerHour && goes;
              && digests == (if out then old(digests) + [Compose(origin, ids, over, hourStart)] else old(digests))
              && sentThisHour == old(sentThisHour) + (if out then 1 else 0)
              && books.sent == Counted(old(books).sent, origin, |ids| + over, out)
      ensures books.dropped == old(books).dropped
    {
      ghost var l := books;
      Meanwhile();
      ghost var mid := books;
      var capped := sentThisHour >= maxPerHour;
      if capped {
        Postpone(origin, ids, over);
      } else {
        sentThisHour := sentThisHour + 1;
        SendDigest(origin, ids, over, goes);
      }
      GrewOn(l, mid, books);
    }

    /** Put back what the hour's budget has no room for, or what did not go out. */
    method Postpone(origin: string, ids: seq<QueueId>, over: int)
      requires Kept() && Ids(books.draining, origin) == ids && Num(books.drainingOver, origin) == over
      modifies this`pending, this`overflow, this`books
      ensures Kept() && Grew(old(books), books) && TakenOut(old(books), books, origin)
      ensures books.sent == old(books).sent && books.dropped == old(books).dropped
    {
      ghost var l := books;
      Meanwhile();
      ghost var mid := books;
      RequeuePending(origin, ids, over);
      GrewOn(l, mid, books);
    }

    /** Send one digest against a unit of the hourly budget, or give both back. */
    method SendDigest(origin: string, ids: seq<QueueId>, over: int, goes: bool)
      requires Kept() && DigestsRight(digests, books.sent, hourStart, sentThisHour - 1, maxPerHour)
      requires sentThisHour <= maxPerHour
      requires Ids(books.draining, origin) == ids && Num(books.drainingOver, origin) == over
      modifies this`pending, this`overflow, this`sentThisHour, this`books, this`digests
      ensures Valid() && Grew(old(books), books) && TakenOut(old(books), books, origin)
      ensures digests == if goes then old(digests) + [Compose(origin, ids, over, hourStart)] else old(digests)
      ensures sentThisHour == if goes then old(sentThisHour) else old(sentThisHour) - 1
      ensures books.sent == Counted(old(books).sent, origin, |ids| + over, goes)
      ensures books.dropped == old(books).dropped
    {
      ghost var l := books;
      // Deliveries go on while the mail is handed over.
      Meanwhile();
      ghost var mid := books;
      if goes {
        HandOver(Compose(origin, ids, over, hourStart), origin, ids, over);
      } else {
        if sentThisHour > 0 {
          sentThisHour := sentThisHour - 1;
        }
        Postpone(origin, ids, over);
      }
      GrewOn(l, mid, books);
    }

    /** The digest is out. */
    ghost method HandOver(d: Digest, origin: string, ids: seq<QueueId>, over: int)
      requires d.origin == origin && d.total == |ids| + over && d.hour == hourStart
      requires Kept() && DigestsRight(digests, books.sent, hourStart, sentThisHour - 1, maxPerHour)
      requires sentThisHour <= maxPerHour
      requires Ids(books.draining, origin) == ids && Num(books.drainingOver, origin) == over
      modifies this`books, this`digests
      ensures Valid() && Grew(old(books), books) && TakenOut(old(books), books, origin)
      ensures digests == old(digests) + [d]
      ensures books.sent == Counted(old(books).sent, origin, |ids| + over, true)
      ensures books.dropped == old(books).dropped
    {
      OneMoreDigestRight(digests, books.sent, d, sentThisHour, maxPerHour);
      digests := digests + [d];
      Settle(origin, true, ids, over);
    }

    /** The failures of this origin are settled: in a digest that went out, or for nobody. */
    ghost method Settle(origin: string, mailed: bool, ids: seq<QueueId>, over: int)
      requires Kept() && Ids(books.draining, origin) == ids && Num(books.drainingOver, origin) == over
      modifies this`books
      ensures Kept() && Grew(old(books), books) && TakenOut(old(books), books, origin)
      ensures books.sent == Counted(old(books).sent, origin, |ids| + over, mailed)
      ensures books.dropped == Counted(old(books).dropped, origin, |ids| + over, !mailed)
    {
      TellInCounts(books, origin, mailed, ids, over);
      TellInKeeps(books, origin, mailed);
      books := TellIn(books, origin, mailed);
    }

    /** Return failures to the next digest, counting instead of keeping what is past the cap. */
    method RequeuePending(origin: string, ids: seq<QueueId>, over: int)
      requires Kept() && Ids(books.draining, origin) == ids && Num(books.drainingOver, origin) == over
      modifies this`pending, this`overflow, this`books
      ensures Kept() && books == PutBackIn(old(books), origin)
      ensures Grew(old(books), books) && TakenOut(old(books), books, origin)
      ensures books.sent == old(books).sent && books.dropped == old(books).dropped
    {
      ghost var l := books;
      PutBackInKeeps(l, origin);
      ghost var l' := PutBackIn(l, origin);
      BackInLists(origin, ids, over, l, l');
      books := l';
    }

    method BackInLists(origin: string, ids: seq<QueueId>, over: int, ghost l: Ledger, ghost l': Ledger)
      requires pending == l.pending && overflow == l.overflow && l' == PutBackIn(l, origin)
      requires Ids(l.draining, origin) == ids && Num(l.drainingOver, origin) == over
      modifies this`pending, this`overflow
      ensures pending == l'.pending && overflow == l'.overflow
      ensures l'.sent == l.sent && l'.dropped == l.dropped && TakenOut(l, l', origin)
    {
      PutBackInLists(l, origin, ids, over);
      var room := Max(MAX_PENDING - |Ids(pending, origin)|, 0);
      var kept, counted := ids, over;
      if |ids| > room {
        counted := counted + |ids| - room;
        kept := ids[..room];
      }
      pending := pending[origin := Ids(pending, origin) + kept];
      overflow := overflow[origin := Num(overflow, origin) + counted];
    }
  }
}
