/**
 The history store's write path: the attempts table, the summary columns each message row
 carries so that lists need not group that table, and the repair of rows an older version left.
 */
module History {
  import opened Types
  import opened JournalClass

  // One row of the attempts table; its place in the table is its primary key. Times are in
  // seconds, the precision they are stored with.
  datatype Attempt = Attempt(
    id: QueueId,
    num: int,
    at: int,
    code: Option<int>,
    response: string,
    outcome: Class,
    next: Option<int>)

  // The summary columns of a message row.
  datatype Summary = Summary(
    count: int,
    first: Option<int>,
    last: Option<int>,
    latest: Option<Class>,
    code: Option<int>,
    response: Option<string>,
    bounced: int)

  // What the columns of a message nothing has happened to default to.
  const UNTOUCHED := Summary(0, None, None, None, None, None, 0)

  /** The attempts of one message, oldest first. */
  function Of(attempts: seq<Attempt>, id: QueueId): seq<Attempt> {
    if attempts == [] then []
    else
      var n := |attempts| - 1;
      Of(attempts[..n], id) + (if attempts[n].id == id then [attempts[n]] else [])
  }

  /** Every row that is a delivery attempt: a requeue is not one. */
  function Counted(rows: seq<Attempt>): seq<Attempt> {
    if rows == [] then []
    else
      var n := |rows| - 1;
      Counted(rows[..n]) + (if rows[n].outcome.Requeued? then [] else [rows[n]])
  }

  lemma {:induction false} OfMembers(attempts: seq<Attempt>, id: QueueId)
    ensures forall a :: a in Of(attempts, id) <==> a in attempts && a.id == id
  {
    if attempts != [] {
      var n := |attempts| - 1;
      OfMembers(attempts[..n], id);
      assert attempts == attempts[..n] + [attempts[n]];
    }
  }

  lemma {:induction false} CountedMembers(rows: seq<Attempt>)
    ensures forall a :: a in Counted(rows) <==> a in rows && !a.outcome.Requeued?
  {
    if rows != [] {
      var n := |rows| - 1;
      CountedMembers(rows[..n]);
      assert rows == rows[..n] + [rows[n]];
    }
  }

  function MinAt(rows: seq<Attempt>): (t: Option<int>)
    ensures t.None? <==> rows == []
  {
    if rows == [] then None
    else
      var rest := MinAt(rows[..|rows| - 1]);
      Some(if rest.None? then rows[|rows| - 1].at else Min(rest.value, rows[|rows| - 1].at))
  }

  function MaxAt(rows: seq<Attempt>): (t: Option<int>)
    ensures t.None? <==> rows == []
  {
    if rows == [] then None
    else
      var rest := MaxAt(rows[..|rows| - 1]);
      Some(if rest.None? then rows[|rows| - 1].at else Max(rest.value, rows[|rows| - 1].at))
  }

  /** MIN and MAX are the earliest and the latest time in the rows, and occur there. */
  lemma {:induction false} MinMaxAt(rows: seq<Attempt>)
    requires rows != []
    ensures forall a :: a in rows ==> MinAt(rows).value <= a.at <= MaxAt(rows).value
    ensures exists a, b :: a in rows && b in rows && a.at == MinAt(rows).value && b.at == MaxAt(rows).value
  {
    var n := |rows| - 1;
    assert rows == rows[..n] + [rows[n]] && rows[n] in rows;
    if n > 0 {
      MinMaxAt(rows[..n]);
      var a, b :| a in rows[..n] && b in rows[..n] && a.at == MinAt(rows[..n]).value && b.at == MaxAt(rows[..n]).value;
      var first := if rows[n].at < a.at then rows[n] else a;
      var last := if b.at < rows[n].at then rows[n] else b;
      assert first in rows && last in rows && first.at == MinAt(rows).value && last.at == MaxAt(rows).value;
    }
  }

  /** Counting some of the rows cannot find an earlier one than all of them have a latest. */
  lemma CountedWithin(rows: seq<Attempt>)
    ensures Counted(rows) != [] ==> rows != [] && MinAt(Counted(rows)).value <= MaxAt(rows).value
  {
    if Counted(rows) != [] {
      CountedMembers(rows);
      MinMaxAt(Counted(rows));
      var a :| a in Counted(rows) && a.at == MinAt(Counted(rows)).value;
      assert a in rows;
      MinMaxAt(rows);
    }
  }

  function MaxNum(rows: seq<Attempt>): int {
    if rows == [] then 0 else Max(MaxNum(rows[..|rows| - 1]), rows[|rows| - 1].num)
  }

  predicate IsBounce(c: Class) {
    ClassStatus(c) == Some(StatusBounced)
  }

  predicate HasBounced(rows: seq<Attempt>) {
    exists a :: a in rows && IsBounce(a.outcome)
  }

  /** A message counts as bounced for good once one attempt was refused permanently or came too late, whatever followed. */
  lemma BouncedOnceRefused(rows: seq<Attempt>)
    ensures Aggregate(rows).bounced == 1 <==> exists a :: a in rows && (a.outcome.Permanent? || a.outcome.Expired?)
  {
  }

  /** What every summary column means, read off the attempts table. */
  function Aggregate(rows: seq<Attempt>): Summary {
    var counted := Counted(rows);
    Summary(
      |counted|,
      MinAt(counted),
      MaxAt(rows),
      if rows == [] then None else Some(rows[|rows| - 1].outcome),
      if counted == [] then None else counted[|counted| - 1].code,
      if counted == [] then None else Some(counted[|counted| - 1].response),
      if HasBounced(rows) then 1 else 0)
  }

  /** What one write does to the columns, without looking at the table. */
  function After(s: Summary, row: Attempt): Summary {
    if row.outcome.Requeued? then s.(latest := Some(row.outcome), last := Some(row.at))
    else Summary(
           s.count + 1,
           if s.first.None? then Some(row.at) else s.first,
           Some(row.at),
           Some(row.outcome),
           row.code,
           Some(row.response),
           Max(s.bounced, if IsBounce(row.outcome) then 1 else 0))
  }

  /** The table's own answer after one more row. */
  function Extended(a: Summary, row: Attempt): Summary {
    var latest := Max(if a.last.None? then row.at else a.last.value, row.at);
    var bounced := Max(a.bounced, if IsBounce(row.outcome) then 1 else 0);
    if row.outcome.Requeued? then
      a.(last := Some(latest), latest := Some(row.outcome), bounced := bounced)
    else
      Summary(a.count + 1, Some(Min(if a.first.None? then row.at else a.first.value, row.at)), Some(latest),
              Some(row.outcome), row.code, Some(row.response), bounced)
  }

  lemma AggregateAppend(rows: seq<Attempt>, row: Attempt)
    ensures Aggregate(rows + [row]) == Extended(Aggregate(rows), row)
  {
    BouncedAppend(rows, row);
    MaxAtAppend(rows, row);
    CountedAfter(rows, row);
    var a, b := Aggregate(rows), Aggregate(rows + [row]);
    assert b.latest == Some(row.outcome) && b.bounced == Extended(a, row).bounced;
    assert b.last == Extended(a, row).last;
  }

  /** What the columns that leave requeues out are read off. */
  lemma CountedAfter(rows: seq<Attempt>, row: Attempt)
    ensures var c, c' := Counted(rows), Counted(rows + [row]);
            if row.outcome.Requeued? then c' == c
            else |c'| == |c| + 1 && c'[|c|] == row
                 && MinAt(c') == Some(if c == [] then row.at else Min(MinAt(c).value, row.at))
  {
    CountedAppend(rows, row);
    MinAtAppend(Counted(rows), row);
  }

  lemma CountedAppend(rows: seq<Attempt>, row: Attempt)
    ensures Counted(rows + [row]) == Counted(rows) + (if row.outcome.Requeued? then [] else [row])
  {
    assert (rows + [row])[..|rows|] == rows;
  }

  lemma MaxAtAppend(rows: seq<Attempt>, row: Attempt)
    ensures MaxAt(rows + [row]) == Some(if rows == [] then row.at else Max(MaxAt(rows).value, row.at))
  {
    assert (rows + [row])[..|rows|] == rows;
  }

  lemma MinAtAppend(rows: seq<Attempt>, row: Attempt)
    ensures MinAt(rows + [row]) == Some(if rows == [] then row.at else Min(MinAt(rows).value, row.at))
  {
    assert (rows + [row])[..|rows|] == rows;
  }

  /** One write keeps the columns right exactly when the clock has not gone back for this message. */
  lemma StepKeepsSummary(rows: seq<Attempt>, row: Attempt)
    ensures After(Aggregate(rows), row) == Aggregate(rows + [row])
            <==> (rows == [] || MaxAt(rows).value <= row.at)
  {
    AggregateAppend(rows, row);
    CountedWithin(rows);
    AfterIsExtended(Aggregate(rows), row);
  }

  lemma AfterIsExtended(a: Summary, row: Attempt)
    requires 0 <= a.bounced && (a.first.Some? ==> a.last.Some? && a.first.value <= a.last.value)
    ensures After(a, row) == Extended(a, row) <==> a.last.None? || a.last.value <= row.at
  {
  }

  lemma BouncedAppend(rows: seq<Attempt>, row: Attempt)
    ensures HasBounced(rows + [row]) <==> HasBounced(rows) || IsBounce(row.outcome)
  {
    if HasBounced(rows) {
      var a :| a in rows && IsBounce(a.outcome);
      assert a in rows + [row];
    }
    assert row in rows + [row];
  }

  /** The columns the write path leaves after a whole history. */
  function Replay(rows: seq<Attempt>): Summary {
    if rows == [] then UNTOUCHED else After(Replay(rows[..|rows| - 1]), rows[|rows| - 1])
  }

  /** For any history and any clock, every column but the two times agrees with the table. */
  lemma {:induction false} ReplayColumns(rows: seq<Attempt>)
    ensures var r, a := Replay(rows), Aggregate(rows);
            && r == a.(first := r.first, last := r.last)
            && r.last == (if rows == [] then None else Some(rows[|rows| - 1].at))
            && r.first == (if Counted(rows) == [] then None else Some(Counted(rows)[0].at))
  {
    if rows != [] {
      var n := |rows| - 1;
      ReplayColumns(rows[..n]);
      assert rows == rows[..n] + [rows[n]];
      AggregateAppend(rows[..n], rows[n]);
      CountedAppend(rows[..n], rows[n]);
    }
  }

  /** The times agree exactly when the first counted row is the earliest and the last row the latest. */
  lemma ReplayAgrees(rows: seq<Attempt>)
    ensures Replay(rows) == Aggregate(rows)
            <==> && (rows == [] || MaxAt(rows) == Some(rows[|rows| - 1].at))
                 && (Counted(rows) == [] || MinAt(Counted(rows)) == Some(Counted(rows)[0].at))
  {
    ReplayColumns(rows);
  }

  // Both tables.
  datatype Tables = Tables(messages: map<QueueId, Summary>, attempts: seq<Attempt>)

  // One transaction of the write path.
  datatype Write = Write(id: QueueId, at: int, code: Option<int>, response: string, outcome: Class, next: Option<int>)

  /** No SMTP reply is stored as no code. */
  function CodeOf(smtpCode: int): Option<int> {
    if smtpCode > 0 then Some(smtpCode) else None
  }

  /** The row a write inserts: its number continues the message's own. */
  function RowOf(t: Tables, w: Write): Attempt {
    Attempt(w.id, MaxNum(Of(t.attempts, w.id)) + 1, w.at, w.code, w.response, w.outcome, w.next)
  }

  /** A write for an unknown message violates the foreign key and changes nothing. */
  function Applied(t: Tables, w: Write): Tables {
    if w.id !in t.messages then t
    else Tables(t.messages[w.id := After(t.messages[w.id], RowOf(t, w))], t.attempts + [RowOf(t, w)])
  }

  function AppliedAll(t: Tables, ws: seq<Write>): Tables
    decreases |ws|
  {
    if ws == [] then t else AppliedAll(Applied(t, ws[0]), ws[1..])
  }

  /** Every attempt belongs to a message, and a message's attempts are numbered 1, 2, and so on. */
  ghost predicate WellNumbered(t: Tables) {
    && (forall a :: a in t.attempts ==> a.id in t.messages)
    && (forall id :: id in t.messages ==> NumberedFromOne(Of(t.attempts, id)))
  }

  ghost predicate NumberedFromOne(rows: seq<Attempt>) {
    forall i :: 0 <= i < |rows| ==> rows[i].num == i + 1
  }

  /** The summaries of every message say what the attempts table says. */
  ghost predicate Consistent(t: Tables) {
    forall id :: id in t.messages ==> t.messages[id] == Aggregate(Of(t.attempts, id))
  }

  ghost predicate NoneAfter(t: Tables, now: int) {
    forall a :: a in t.attempts ==> a.at <= now
  }

  lemma OfAppend(attempts: seq<Attempt>, row: Attempt, id: QueueId)
    ensures Of(attempts + [row], id) == Of(attempts, id) + (if row.id == id then [row] else [])
  {
    assert (attempts + [row])[..|attempts|] == attempts;
  }

  lemma {:induction false} MaxNumIsLength(rows: seq<Attempt>)
    requires NumberedFromOne(rows)
    ensures MaxNum(rows) == |rows|
  {
    if rows != [] {
      MaxNumIsLength(rows[..|rows| - 1]);
    }
  }

  lemma WriteKeepsNumbers(t: Tables, w: Write)
    requires WellNumbered(t)
    ensures WellNumbered(Applied(t, w))
  {
    if w.id in t.messages {
      var row := RowOf(t, w);
      MaxNumIsLength(Of(t.attempts, w.id));
      forall id | id in t.messages
        ensures NumberedFromOne(Of(t.attempts + [row], id))
      {
        OfAppend(t.attempts, row, id);
      }
    }
  }

  /** One write keeps every message consistent exactly when its own message's clock did not go back. */
  lemma WriteKeepsSummaries(t: Tables, w: Write)
    requires Consistent(t)
    ensures Consistent(Applied(t, w))
            <==> (w.id !in t.messages || Of(t.attempts, w.id) == [] || MaxAt(Of(t.attempts, w.id)).value <= w.at)
  {
    if w.id in t.messages {
      var t' := Applied(t, w);
      WriteKeepsItsSummary(t, w);
      forall id | id in t.messages && id != w.id
        ensures t'.messages[id] == Aggregate(Of(t'.attempts, id))
      {
        WriteLeavesOthers(t, w, id);
      }
    }
  }

  lemma WriteKeepsItsSummary(t: Tables, w: Write)
    requires w.id in t.messages && t.messages[w.id] == Aggregate(Of(t.attempts, w.id))
    ensures Applied(t, w).messages[w.id] == Aggregate(Of(Applied(t, w).attempts, w.id))
            <==> (Of(t.attempts, w.id) == [] || MaxAt(Of(t.attempts, w.id)).value <= w.at)
  {
    StepKeepsSummary(Of(t.attempts, w.id), RowOf(t, w));
    OfAppend(t.attempts, RowOf(t, w), w.id);
  }

  lemma WriteLeavesOthers(t: Tables, w: Write, id: QueueId)
    requires id in t.messages && id != w.id
    ensures id in Applied(t, w).messages && Applied(t, w).messages[id] == t.messages[id]
    ensures Of(Applied(t, w).attempts, id) == Of(t.attempts, id)
  {
    if w.id in t.messages {
      OfAppend(t.attempts, RowOf(t, w), id);
    }
  }

  lemma WriteInOrder(t: Tables, w: Write)
    requires Consistent(t) && NoneAfter(t, w.at)
    ensures Consistent(Applied(t, w)) && NoneAfter(Applied(t, w), w.at)
  {
    WriteKeepsSummaries(t, w);
    var rows := Of(t.attempts, w.id);
    if rows != [] {
      OfMembers(t.attempts, w.id);
      MinMaxAt(rows);
      var a :| a in rows && a.at == MaxAt(rows).value;
      assert a in t.attempts;
    }
  }

  /** Over any run of writes whose times never go back, numbers and summaries stay right. */
  lemma {:induction false} RunKeepsSummaries(t: Tables, ws: seq<Write>)
    requires WellNumbered(t) && Consistent(t)
    requires forall i :: 0 <= i < |ws| ==> NoneAfter(t, ws[i].at)
    requires forall i, j :: 0 <= i < j < |ws| ==> ws[i].at <= ws[j].at
    ensures WellNumbered(AppliedAll(t, ws)) && Consistent(AppliedAll(t, ws))
    decreases |ws|
  {
    if ws != [] {
      WriteKeepsNumbers(t, ws[0]);
      WriteInOrder(t, ws[0]);
      forall i | 0 <= i < |ws[1..]|
        ensures NoneAfter(Applied(t, ws[0]), ws[1..][i].at)
      {
        assert ws[0].at <= ws[i + 1].at == ws[1..][i].at;
      }
      RunKeepsSummaries(Applied(t, ws[0]), ws[1..]);
    }
  }

  /** A row the repair has to fill: attempts, but no latest class. */
  predicate NeedsFill(s: Summary, rows: seq<Attempt>) {
    s.latest.None? && rows != []
  }

  // A statement of the repair sets one column of a row.
  type Column = (Summary, seq<Attempt>) -> Summary

  function Guarded(s: Summary, rows: seq<Attempt>, column: Column): Summary {
    if NeedsFill(s, rows) then column(s, rows) else s
  }

  /** One UPDATE over the rows still marked as pending. */
  function Statement(t: map<QueueId, Summary>, rows: map<QueueId, seq<Attempt>>, column: Column): map<QueueId, Summary>
    requires t.Keys == rows.Keys
  {
    map id | id in t :: Guarded(t[id], rows[id], column)
  }

  function SetCount(s: Summary, rows: seq<Attempt>): Summary { s.(count := |Counted(rows)|) }

  function SetFirst(s: Summary, rows: seq<Attempt>): Summary { s.(first := MinAt(Counted(rows))) }

  function SetLast(s: Summary, rows: seq<Attempt>): Summary { s.(last := MaxAt(rows)) }

  function SetCode(s: Summary, rows: seq<Attempt>): Summary { s.(code := Aggregate(rows).code) }

  function SetResponse(s: Summary, rows: seq<Attempt>): Summary { s.(response := Aggregate(rows).response) }

  function SetBounced(s: Summary, rows: seq<Attempt>): Summary { if HasBounced(rows) then s.(bounced := 1) else s }

  function SetLatest(s: Summary, rows: seq<Attempt>): Summary { s.(latest := Aggregate(rows).latest) }

  /** The statements one after the other, on one row. */
  function FillRow(s: Summary, rows: seq<Attempt>): Summary {
    var s := Guarded(s, rows, SetCount);
    var s := Guarded(s, rows, SetFirst);
    var s := Guarded(s, rows, SetLast);
    var s := Guarded(s, rows, SetCode);
    var s := Guarded(s, rows, SetResponse);
    var s := Guarded(s, rows, SetBounced);
    Guarded(s, rows, SetLatest)
  }

  /** Only because the marker is written last does the whole row get filled. */
  lemma FillRowIsFilled(s: Summary, rows: seq<Attempt>)
    ensures FillRow(s, rows) == Filled(s, rows)
  {
    var a := Aggregate(rows);
    assert Filled(s, rows).bounced == SetBounced(s, rows).bounced || !NeedsFill(s, rows);
  }

  /** What the repair leaves of a row. */
  function Filled(s: Summary, rows: seq<Attempt>): Summary {
    if !NeedsFill(s, rows) then s
    else Aggregate(rows).(bounced := if HasBounced(rows) then 1 else s.bounced)
  }

  /** A row the write path kept never needs the repair, and the repair leaves it alone. */
  lemma RepairLeavesKeptRows(rows: seq<Attempt>)
    ensures !NeedsFill(Aggregate(rows), rows) && Filled(Aggregate(rows), rows) == Aggregate(rows)
    ensures !NeedsFill(Replay(rows), rows) && Filled(Replay(rows), rows) == Replay(rows)
  {
    ReplayAgrees(rows);
  }

  /** The repair makes a row it touches right exactly when its bounced flag was not already wrong. */
  lemma RepairIsExact(s: Summary, rows: seq<Attempt>)
    requires NeedsFill(s, rows)
    ensures Filled(s, rows) == Aggregate(rows) <==> s.bounced == 0 || HasBounced(rows)
    ensures !NeedsFill(Filled(s, rows), rows) && Filled(Filled(s, rows), rows) == Filled(s, rows)
  {
    assert Aggregate(rows).latest == Some(rows[|rows| - 1].outcome);
  }

  /** The statements one after the other, on the whole table. */
  lemma StatementsFill(s: map<QueueId, Summary>, rows: map<QueueId, seq<Attempt>>)
    requires s.Keys == rows.Keys
    ensures var t := Statement(s, rows, SetCount);
            var t := Statement(t, rows, SetFirst);
            var t := Statement(t, rows, SetLast);
            var t := Statement(t, rows, SetCode);
            var t := Statement(t, rows, SetResponse);
            var t := Statement(t, rows, SetBounced);
            var t := Statement(t, rows, SetLatest);
            t.Keys == s.Keys && forall id :: id in s ==> t[id] == Filled(s[id], rows[id])
  {
    forall id | id in s
      ensures FillRow(s[id], rows[id]) == Filled(s[id], rows[id])
    {
      FillRowIsFilled(s[id], rows[id]);
    }
  }

  method RunStatements(s: map<QueueId, Summary>, rows: map<QueueId, seq<Attempt>>) returns (t: map<QueueId, Summary>)
    requires s.Keys == rows.Keys
    ensures t.Keys == s.Keys && forall id :: id in s ==> t[id] == Filled(s[id], rows[id])
  {
    t := Statement(s, rows, SetCount);
    t := Statement(t, rows, SetFirst);
    t := Statement(t, rows, SetLast);
    t := Statement(t, rows, SetCode);
    t := Statement(t, rows, SetResponse);
    t := Statement(t, rows, SetBounced);
    t := Statement(t, rows, SetLatest);
    StatementsFill(s, rows);
  }

  class Store {
    var messages: map<QueueId, Summary>
    var attempts: seq<Attempt>

    // How often the database has refused a statement or a commit.
    ghost var faults: nat

    ghost function Now(): Tables
      reads this
    {
      Tables(messages, attempts)
    }

    ghost predicate Valid()
      reads this
    {
      WellNumbered(Now())
    }

    constructor ()
      ensures Valid() && Consistent(Now()) && messages == map[] && attempts == []
    {
      messages, attempts, faults := map[], [], 0;
    }

    /** Whether the database does what it is asked to. */
    method Try() returns (done: bool)
      modifies this`faults
      ensures faults == if done then old(faults) else old(faults) + 1
    {
      done := *;
      faults := if done then faults else faults + 1;
    }

    method RecordMessage(id: QueueId) returns (ok: bool)
      requires Valid()
      modifies this
      ensures Valid() && attempts == old(attempts)
      ensures messages == if ok then old(messages)[id := UNTOUCHED] else old(messages)
      ensures old(faults) <= faults && (ok <==> id !in old(messages) && faults == old(faults))
      ensures old(Consistent(Now())) ==> Consistent(Now())
    {
      ok := Try();
      if id in messages || !ok {
        return false;
      }
      messages := messages[id := UNTOUCHED];
      OfMembers(attempts, id);
      assert forall a :: a !in Of(attempts, id);
    }

    /** One transaction: the row and the summary columns, or neither. */
    method Transaction(w: Write) returns (ok: bool)
      requires Valid()
      modifies this
      ensures Valid() && Now() == if ok then Applied(old(Now()), w) else old(Now())
      ensures old(faults) <= faults && (ok <==> w.id in old(messages) && faults == old(faults))
    {
      var num := MaxNum(Of(attempts, w.id)) + 1;
      var inserted := Try();
      if w.id !in messages || !inserted {
        return false;
      }
      WriteKeepsNumbers(Now(), w);
      var row := Attempt(w.id, num, w.at, w.code, w.response, w.outcome, w.next);
      var committed := Try();
      if !committed {
        return false;
      }
      attempts := attempts + [row];
      messages := messages[w.id := After(messages[w.id], row)];
      ok := true;
    }

    method RecordAttempt(id: QueueId, smtpCode: int, response: string, outcome: Class, next: Option<int>, now: int)
      returns (ok: bool)
      requires Valid() && !outcome.Requeued?
      modifies this
      ensures Valid()
      ensures Now() == if ok then Applied(old(Now()), Write(id, now, CodeOf(smtpCode), response,
                                                            outcome, next))
                       else old(Now())
      ensures old(faults) <= faults && (ok <==> id in old(messages) && faults == old(faults))
      ensures ok ==> messages[id].latest == Some(outcome) && messages[id].count == old(messages)[id].count + 1
      ensures ok ==> && messages[id].code == (if smtpCode > 0 then Some(smtpCode) else None)
                     && messages[id].response == Some(response) && messages[id].last == Some(now)
    {
      ok := Transaction(Write(id, now, CodeOf(smtpCode), response, outcome, next));
    }

    /** The message left the spool at an operator's hand. */
    method RecordRemoval(id: QueueId, now: int) returns (ok: bool)
      requires Valid()
      modifies this
      ensures Valid()
      ensures Now() == if ok then Applied(old(Now()), Write(id, now, None, "", Removed, None)) else old(Now())
      ensures ok ==> id in messages && ClassToStatus(messages[id].latest) == StatusRemoved
      ensures old(faults) <= faults && (ok <==> id in old(messages) && faults == old(faults))
    {
      ok := RecordAttempt(id, 0, "", Removed, None, now);
      assert ok ==> id in messages && messages[id].latest == Some(Removed);
    }

    /** A requeue is listed, but it is not an attempt and hides no response. */
    method RecordRequeue(id: QueueId, now: int) returns (ok: bool)
      requires Valid()
      modifies this
      ensures Valid()
      ensures Now() == if ok then Applied(old(Now()), Write(id, now, None, "", Requeued, None)) else old(Now())
      ensures ok ==> id in old(messages) && messages[id] ==
                                            old(messages)[id].(latest := Some(Requeued), last := Some(now))
      ensures ok ==> Active(messages[id].latest)
      ensures old(faults) <= faults && (ok <==> id in old(messages) && faults == old(faults))
    {
      ok := Transaction(Write(id, now, None, "", Requeued, None));
    }

    /** Clear a listed message whose spool copy is gone; an outcome already reached is not rewritten. */
    method ReconcileRemoved(id: QueueId, now: int) returns (cleared: Result<bool, ()>)
      requires Valid()
      modifies this
      ensures Valid()
      ensures old(faults) <= faults && (cleared.Err? <==> faults != old(faults))
      ensures cleared == Ok(true) <==> faults == old(faults) && id in old(messages) && Active(old(messages)[id].latest)
      ensures cleared == Ok(true) ==> && id in messages && ClassToStatus(messages[id].latest) == StatusRemoved
                                      && Now() == Applied(old(Now()), Write(id, now, None, "", Removed, None))
      ensures cleared != Ok(true) ==> Now() == old(Now())
    {
      var found := Try();
      if !found {
        return Err(());
      }
      if id !in messages || !Active(messages[id].latest) {
        return Ok(false);
      }
      var ok := RecordRemoval(id, now);
      cleared := if ok then Ok(true) else Err(());
    }

    /**
     backfillSummaries: seven statements in one transaction. The latest class goes last, because
     it is what marks a row as filled.
     */
    method BackfillSummaries() returns (ok: bool)
      requires Valid()
      modifies this`messages, this`faults
      ensures Valid() && messages.Keys == old(messages).Keys
      ensures old(faults) <= faults && (ok <==> faults == old(faults))
      ensures !ok ==> messages == old(messages)
      ensures ok ==> forall id :: id in messages ==> messages[id] == Filled(old(messages)[id], Of(attempts, id))
    {
      var needed := exists id :: id in messages && NeedsFill(messages[id], Of(attempts, id));
      if !needed {
        return true;
      }
      var committed := Try();
      if !committed {
        return false;
      }
      var rows := map id | id in messages :: Of(attempts, id);
      messages := RunStatements(messages, rows);
      ok := true;
    }
  }
}
