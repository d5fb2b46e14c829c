/**
 One delivery transaction with a smarthost, from MAIL to QUIT, over a session that may answer
 anything or break at any point.
 */
module Smarthost {
  import opened Types

  // What a command came back with: a reply code, or no reply at all.
  datatype Reply = Code(code: int) | Broken

  datatype Command =
    | MAIL(from: string)
    | RCPT(to: string)
    | DATA
    | BODY(complete: bool)   // the body and its terminating dot; complete unless reading it failed
    | QUIT

  datatype Exchange = Exchange(command: Command, reply: Reply)

  datatype Rejection = Rejection(recipient: string, reply: Reply)

  /** The outcome types Deliver can return; Fine and the next two mean "do not retry". */
  datatype Outcome =
    | Fine
    | QuitError
    | PartialError(rejected: seq<Rejection>)
    | TempError
    | PermError
    | AuthError

  predicate MeansDelivered(o: Outcome) {
    o.Fine? || o.QuitError? || o.PartialError?
  }

  /** net/smtp accepts exactly these replies to each command. */
  predicate Accepts(c: Command, r: Reply) {
    r.Code? &&
    match c
    case MAIL(_) => r.code == 250
    case RCPT(_) => 250 <= r.code < 260
    case DATA => r.code == 354
    case BODY(_) => r.code == 250
    case QUIT => r.code == 221
  }

  /** What a refusal says of the message: a reply in the five hundreds ends it, silence or any other reply does not. */
  function Classify(r: Reply): Outcome {
    if r.Code? && 500 <= r.code < 600 then PermError else TempError
  }

  predicate IsPermanentReply(r: Reply) {
    Classify(r).PermError?
  }

  /** The recipients a run of RCPT exchanges refused for good, in order. */
  function Refused(exchanges: seq<Exchange>): seq<Rejection>
    decreases |exchanges|
  {
    if exchanges == [] then []
    else
      var e := exchanges[0];
      (if e.command.RCPT? && !Accepts(e.command, e.reply) && IsPermanentReply(e.reply)
       then [Rejection(e.command.to, e.reply)] else [])
      + Refused(exchanges[1..])
  }

  lemma {:induction false} RefusedBoth(a: seq<Exchange>, b: seq<Exchange>)
    ensures Refused(a + b) == Refused(a) + Refused(b)
    decreases |a|
  {
    if a == [] {
      assert a + b == b;
    } else {
      assert (a + b)[1..] == a[1..] + b;
      RefusedBoth(a[1..], b);
    }
  }

  /** Those refused with a reply in the five hundreds, each with the reply it was refused with, and nobody else. */
  lemma {:induction false} RefusedExactly(exchanges: seq<Exchange>, x: Rejection)
    ensures x in Refused(exchanges) <==>
            Exchange(RCPT(x.recipient), x.reply) in exchanges && x.reply.Code? && 500 <= x.reply.code < 600
    decreases |exchanges|
  {
    if exchanges != [] {
      assert exchanges == [exchanges[0]] + exchanges[1..];
      RefusedExactly(exchanges[1..], x);
    }
  }

  /** The exchanges are RCPT commands for exactly these recipients. */
  ghost predicate Offers(exchanges: seq<Exchange>, to: seq<string>) {
    && |exchanges| == |to|
    && (forall i :: 0 <= i < |to| ==> exchanges[i].command == RCPT(to[i]))
  }

  /** No recipient was refused temporarily: each was accepted or refused for good. */
  ghost predicate AllSettled(exchanges: seq<Exchange>) {
    forall e :: e in exchanges && e.command.RCPT? ==> Accepts(e.command, e.reply) || IsPermanentReply(e.reply)
  }

  ghost predicate SomeAccepted(exchanges: seq<Exchange>) {
    exists e :: e in exchanges && e.command.RCPT? && Accepts(e.command, e.reply)
  }

  /** The smarthost answered the whole body with success: it owns the message from here on. */
  ghost predicate Accepted(exchanges: seq<Exchange>) {
    exists e :: e in exchanges && e.command == BODY(true) && Accepts(e.command, e.reply)
  }

  /** Some body was answered with success, whole or not. */
  ghost predicate BodyTaken(exchanges: seq<Exchange>) {
    exists e :: e in exchanges && e.command.BODY? && Accepts(e.command, e.reply)
  }

  ghost predicate BodiesAre(exchanges: seq<Exchange>, complete: bool) {
    forall e :: e in exchanges && e.command.BODY? ==> e.command.complete == complete
  }

  /** A reply that fails the message itself for good: recipients and an unfinished body are not judged by it. */
  predicate RefusedForGood(e: Exchange) {
    && (e.command.MAIL? || e.command.DATA? || e.command == BODY(true))
    && !Accepts(e.command, e.reply) && IsPermanentReply(e.reply)
  }

  /** No retry can help: the last reply said so, or every recipient was refused for good. */
  ghost predicate GivenUp(said: seq<Exchange>, to: seq<string>)
    requires said != []
  {
    || RefusedForGood(said[|said| - 1])
    || (Accepts(said[0].command, said[0].reply) && Offers(said[1..], to) && AllSettled(said[1..]) && !SomeAccepted(said[1..]))
  }

  /** What a transaction's exchanges mean for the message. */
  ghost function Verdict(said: seq<Exchange>, to: seq<string>): Outcome
    requires said != []
  {
    if Accepted(said) then
      if Refused(said) != [] then PartialError(Refused(said))
      else if Accepts(QUIT, said[|said| - 1].reply) && said[|said| - 1].command.QUIT? then Fine
      else QuitError
    else if GivenUp(said, to) then PermError
    else TempError
  }

  /** The same for the DATA phase alone. */
  ghost function Ending(tail: seq<Exchange>, rejected: seq<Rejection>): Outcome
    requires tail != []
  {
    var last := tail[|tail| - 1];
    if Accepted(tail) then
      if rejected != [] then PartialError(rejected)
      else if Accepts(QUIT, last.reply) && last.command.QUIT? then Fine
      else QuitError
    else if RefusedForGood(last) then PermError
    else TempError
  }

  // How far a session came before MAIL.
  datatype Opening =
    | Ready
    | Misconfigured            // no TLS configuration, an unknown SASL mechanism, credentials in the clear
    | Unreachable              // no connection
    | Greeted(reply: Reply)    // the greeting or the answer to EHLO was this refusal
    | Unprotected              // STARTTLS not offered, or failed
    | Unauthenticated          // the credentials were rejected, or no token was to be had

  /** A rejected credential is the relay's fault, never the message's. */
  function Before(opening: Opening): Outcome
    requires !opening.Ready?
  {
    match opening
    case Misconfigured => PermError
    case Greeted(reply) => Classify(reply)
    case Unauthenticated => AuthError
    case _ => TempError
  }

  /** The outcome of an attempt, from how it opened and what was said. */
  ghost function OutcomeOf(opening: Opening, said: seq<Exchange>, to: seq<string>): Outcome
    requires opening.Ready? ==> said != []
  {
    if opening.Ready? then Verdict(said, to) else Before(opening)
  }

  /**
   A message is failed for good only by a reply in the five hundreds, the last one given, by having
   no recipient at all, or by the configuration. An answer in the four hundreds never does it.
   */
  lemma FailedForGoodOnlyIf(opening: Opening, said: seq<Exchange>, to: seq<string>)
    requires opening.Ready? ==> said != []
    requires OutcomeOf(opening, said, to) == PermError
    ensures || opening.Misconfigured?
            || (opening.Greeted? && opening.reply.Code? && 500 <= opening.reply.code < 600)
            || (opening.Ready? && to == [])
            || (opening.Ready? && said[|said| - 1].reply.Code? && 500 <= said[|said| - 1].reply.code < 600)
  {
    if opening.Ready? && !RefusedForGood(said[|said| - 1]) && to != [] {
      var last := said[|said| - 1];
      assert Offers(said[1..], to) && said[1..][|to| - 1] == last && last in said[1..] && last.command.RCPT?;
    }
  }

  /** And so is it the other way about, whatever had been settled of the recipients. */
  lemma FailedForGoodIf(opening: Opening, said: seq<Exchange>, to: seq<string>)
    requires opening.Ready? ==> said != [] && !Accepted(said)
    requires || opening.Misconfigured?
             || (opening.Greeted? && opening.reply.Code? && 500 <= opening.reply.code < 600)
             || (opening.Ready? && var last := said[|said| - 1];
                   && last.reply.Code? && 500 <= last.reply.code < 600
                   && (last.command.MAIL? || last.command.DATA? || last.command == BODY(true)))
    ensures OutcomeOf(opening, said, to) == PermError
  {
  }

  /** A body whose reading failed can be answered with success all the same; it is retried. */
  lemma TakenAndRetried(from: string, to: string)
    ensures var said := [Exchange(MAIL(from), Code(250)), Exchange(RCPT(to), Code(250)), Exchange(DATA, Code(354)),
                         Exchange(BODY(false), Code(250))];
            BodyTaken(said) && DataIsSafe(said, [to]) && Verdict(said, [to]) == TempError
  {
    var said := [Exchange(MAIL(from), Code(250)), Exchange(RCPT(to), Code(250)), Exchange(DATA, Code(354)),
                 Exchange(BODY(false), Code(250))];
    assert said[3] in said && said[1..2] == [said[1]] && said[1] in said[1..2];
    assert said[1..] == [said[1], said[2], said[3]];
  }

  /** DATA is sent only after every recipient was offered and none was left to be retried. */
  ghost predicate DataIsSafe(exchanges: seq<Exchange>, to: seq<string>) {
    forall k :: 0 <= k < |exchanges| && (exchanges[k].command.DATA? || exchanges[k].command.BODY?) ==>
      |to| + 1 <= k
      && Offers(exchanges[1..|to| + 1], to) && AllSettled(exchanges[1..|to| + 1])
      && SomeAccepted(exchanges[1..|to| + 1])
  }

  class Session {
    var log: seq<Exchange>

    constructor ()
      ensures log == []
    {
      log := [];
    }

    method Do(c: Command) returns (r: Reply)
      modifies this
      ensures log == old(log) + [Exchange(c, r)]
    {
      r := *;
      log := log + [Exchange(c, r)];
    }
  }

  lemma OneMoreOffer(said: seq<Exchange>, e: Exchange, to: seq<string>, i: nat)
    requires i < |to| && Offers(said, to[..i]) && e.command == RCPT(to[i])
    ensures Offers(said + [e], to[..i + 1])
    ensures AllSettled(said + [e]) <==> AllSettled(said) && (Accepts(e.command, e.reply) || IsPermanentReply(e.reply))
    ensures SomeAccepted(said + [e]) <==> SomeAccepted(said) || Accepts(e.command, e.reply)
    ensures Refused(said + [e]) ==
            Refused(said) + (if !Accepts(e.command, e.reply) && IsPermanentReply(e.reply) then [Rejection(to[i], e.reply)] else [])
    ensures forall x :: x in said + [e] <==> x in said || x == e
  {
    RefusedBoth(said, [e]);
    assert e in said + [e];
    assert to[..i + 1] == to[..i] + [to[i]];
  }

  /** The same three questions in codes. */
  lemma OffersSay(said: seq<Exchange>)
    requires forall e :: e in said ==> e.command.RCPT?
    ensures !AllSettled(said) <==>
            exists e :: e in said && (e.reply.Code? ==> !(250 <= e.reply.code < 260) && !(500 <= e.reply.code < 600))
    ensures AllSettled(said) && !SomeAccepted(said) <==> forall e :: e in said ==> e.reply.Code? && 500 <= e.reply.code < 600
    ensures forall k :: 0 <= k < |Refused(said)| ==> Refused(said)[k].reply.Code? && 500 <= Refused(said)[k].reply.code < 600
  {
    forall k | 0 <= k < |Refused(said)|
      ensures Refused(said)[k].reply.Code? && 500 <= Refused(said)[k].reply.code < 600
    {
      RefusedExactly(said, Refused(said)[k]);
    }
  }

  /** offerRecipients: one RCPT each; a temporary refusal ends the whole attempt. */
  method OfferRecipients(s: Session, to: seq<string>) returns (rejected: seq<Rejection>, err: Option<Outcome>)
    modifies s
    ensures old(s.log) <= s.log
    ensures var said := s.log[|old(s.log)|..];
            && (forall e :: e in said ==> e.command.RCPT?)
            && (err.None? ==> Offers(said, to) && AllSettled(said) && SomeAccepted(said) && rejected == Refused(said))
            && (err == Some(PermError) ==> Offers(said, to) && AllSettled(said) && !SomeAccepted(said))
            && (err.Some? ==> err == Some(PermError) || (err == Some(TempError) && !AllSettled(said)))
    ensures forall k :: 0 <= k < |rejected| ==> rejected[k].reply.Code? && 500 <= rejected[k].reply.code < 600
    ensures var said := s.log[|old(s.log)|..];
            && (err == Some(TempError) <==>
                  exists e :: e in said && (e.reply.Code? ==> !(250 <= e.reply.code < 260) && !(500 <= e.reply.code < 600)))
            && (err == Some(PermError) <==>
                  |said| == |to| && forall e :: e in said ==> e.reply.Code? && 500 <= e.reply.code < 600)
  {
    rejected := [];
    var accepted := 0;
    ghost var start := s.log;
    ghost var said: seq<Exchange> := [];
    for i := 0 to |to|
      invariant s.log == start + said
      invariant Offers(said, to[..i]) && AllSettled(said)
      invariant rejected == Refused(said)
      invariant accepted >= 0 && (accepted > 0 <==> SomeAccepted(said))
    {
      var r := s.Do(RCPT(to[i]));
      ghost var e := Exchange(RCPT(to[i]), r);
      OneMoreOffer(said, e, to, i);
      said := said + [e];
      assert s.log == start + said && s.log[|start|..] == said;
      if Accepts(RCPT(to[i]), r) {
        accepted := accepted + 1;
      } else if IsPermanentReply(r) {
        rejected := rejected + [Rejection(to[i], r)];
      } else {
        OffersSay(said);
        return [], Some(Classify(r));
      }
    }
    assert to[..|to|] == to && s.log[|start|..] == said;
    OffersSay(said);
    if accepted == 0 {
      return [], Some(PermError);
    }
    err := None;
  }

  /**
   transact: one exchange after another, as far as the replies allow. complete says whether the
   body could be read to its end; the outcome means "delivered" exactly when the smarthost
   accepted a body that could.
   */
  method Transact(s: Session, from: string, to: seq<string>, complete: bool) returns (o: Outcome)
    modifies s
    ensures old(s.log) <= s.log
    ensures var said := s.log[|old(s.log)|..];
            && said != []
            && DataIsSafe(said, to) && BodiesAre(said, complete)
            && o == Verdict(said, to)
            && (BodyTaken(said) ==> (MeansDelivered(o) <==> complete))
            && (MeansDelivered(o) ==> |to| + 1 < |said| && Offers(said[1..|to| + 1], to))
    ensures var said := s.log[|old(s.log)|..];
            && said[0].command == MAIL(from) && !o.AuthError?
            && (o.PermError? ==> to == [] || (said[|said| - 1].reply.Code? && 500 <= said[|said| - 1].reply.code < 600))
            && (forall e :: e in said && (e.command.MAIL? || e.command.DATA? || e.command == BODY(true)) ==>
                  (e.reply.Code? && 500 <= e.reply.code < 600 ==> o.PermError?))
            && (o.Fine? || o.QuitError? || o.PartialError? <==> Exchange(BODY(true), Code(250)) in said)
            && (forall e :: e in said && e.command.DATA? ==> said[0].reply == Code(250))
            && (forall e :: e in said && e.command.BODY? ==> Exchange(DATA, Code(354)) in said)
  {
    ghost var start := s.log;
    var r := s.Do(MAIL(from));
    ghost var mail := Exchange(MAIL(from), r);
    if !Accepts(MAIL(from), r) {
      assert s.log[|start|..] == [mail];
      return Classify(r);
    }
    o := OfferAndSend(s, from, to, complete, start, mail);
  }

  /** transact, once the sender has been accepted. */
  method OfferAndSend(s: Session, from: string, to: seq<string>, complete: bool,
                      ghost start: seq<Exchange>, ghost mail: Exchange) returns (o: Outcome)
    requires s.log == start + [mail] && mail == Exchange(MAIL(from), Code(250))
    modifies s
    ensures start + [mail] <= s.log
    ensures s.log[|start|] == mail && Conducted(s.log[|start|..], to, complete, o)
    ensures RepliesSay(s.log[|start|..], to, o)
  {
    ghost var mid := s.log;
    var rejected, err := OfferRecipients(s, to);
    ghost var offers := s.log[|mid|..];
    ghost var head := [mail] + offers;
    assert s.log == start + head && s.log[|start|..] == head;
    if err.Some? {
      OnlyOffered(mail, offers, to, complete, err.value);
      return err.value;
    }
    RefusedBoth([mail], offers);
    assert head[1..] == offers;
    o := SendBody(s, to, rejected, complete, start, head);
  }

  /** What a transaction's exchanges are, and what its outcome has to be by them. */
  ghost predicate Conducted(said: seq<Exchange>, to: seq<string>, complete: bool, o: Outcome) {
    && said != [] && DataIsSafe(said, to) && BodiesAre(said, complete)
    && o == Verdict(said, to)
    && (BodyTaken(said) ==> (MeansDelivered(o) <==> complete))
    && (MeansDelivered(o) ==> |to| + 1 < |said| && Offers(said[1..|to| + 1], to))
  }

  /** What the replies say as long as no body has been asked for. */
  lemma OnlyOffered(mail: Exchange, offers: seq<Exchange>, to: seq<string>, complete: bool, o: Outcome)
    requires mail.command.MAIL? && mail.reply == Code(250) && (forall e :: e in offers ==> e.command.RCPT?)
    requires o.PermError? ==> |offers| == |to| && forall e :: e in offers ==> e.reply.Code? && 500 <= e.reply.code < 600
    requires o.PermError? ==> Offers(offers, to) && AllSettled(offers) && !SomeAccepted(offers)
    requires o.PermError? || (o.TempError? && !AllSettled(offers))
    ensures Conducted([mail] + offers, to, complete, o) && RepliesSay([mail] + offers, to, o)
  {
    OffersDecide(mail, offers, to);
    var said := [mail] + offers;
    if to != [] && |offers| == |to| {
      assert said[|said| - 1] == offers[|offers| - 1] && offers[|offers| - 1] in offers;
    }
    assert forall e :: e in said ==> e == mail || e in offers;
  }

  /** The same once DATA has been asked for: what was said before only let it be. */
  lemma SubmitSays(head: seq<Exchange>, tail: seq<Exchange>, to: seq<string>, o: Outcome)
    requires head != [] && head[0].reply == Code(250) && tail != [] && !o.AuthError?
    requires forall k :: 1 <= k < |head| ==> head[k].command.RCPT?
    requires head[0].command.MAIL? && forall e :: e in tail ==> !e.command.MAIL?
    requires o.PermError? <==> exists e :: e in tail && e.reply.Code? && 500 <= e.reply.code < 600
                                           && (e.command.DATA? || e.command == BODY(true))
    requires o.PermError? ==> tail[|tail| - 1].reply.Code? && 500 <= tail[|tail| - 1].reply.code < 600
    requires o.Fine? || o.QuitError? || o.PartialError? <==> Exchange(BODY(true), Code(250)) in tail
    requires forall e :: e in tail && e.command.BODY? ==> Exchange(DATA, Code(354)) in tail
    ensures RepliesSay(head + tail, to, o)
  {
    var said := head + tail;
    assert said[|said| - 1] == tail[|tail| - 1];
    forall e | e in said && e !in tail
      ensures e == head[0] || e.command.RCPT?
    {
      var k :| 0 <= k < |said| && said[k] == e;
      assert k < |head|;
    }
  }


  /** While recipients are being offered, and after the last, only they decide. */
  lemma OffersDecide(mail: Exchange, offers: seq<Exchange>, to: seq<string>)
    requires mail.command.MAIL? && Accepts(mail.command, mail.reply)
    requires forall e :: e in offers ==> e.command.RCPT?
    ensures var head := [mail] + offers;
            && DataIsSafe(head, to) && !BodyTaken(head) && !Accepted(head) && (forall c :: BodiesAre(head, c))
            && head[1..] == offers && Refused(head) == Refused(offers)
            && Verdict(head, to) == if Offers(offers, to) && AllSettled(offers) && !SomeAccepted(offers) then PermError else TempError
  {
    var head := [mail] + offers;
    assert head[1..] == offers;
    RefusedBoth([mail], offers);
    forall k | 0 <= k < |head|
      ensures head[k].command.RCPT? || head[k] == mail
    {
      assert k > 0 ==> head[k] == offers[k - 1];
    }
  }

  /**
   Deliver: dial, greet, secure and authenticate, then transact. Whatever goes wrong before
   MAIL is an outcome of its own and nothing has been sent.
   */
  method Deliver(s: Session, opening: Opening, from: string, to: seq<string>, complete: bool) returns (o: Outcome)
    modifies s
    ensures old(s.log) <= s.log
    ensures var said := s.log[|old(s.log)|..];
            && (opening.Ready? <==> said != [])
            && DataIsSafe(said, to) && BodiesAre(said, complete)
            && o == OutcomeOf(opening, said, to)
            && (MeansDelivered(o) <==> Accepted(said))
            && (BodyTaken(said) ==> (MeansDelivered(o) <==> complete))
    ensures !opening.Ready? ==>
              && (o.PermError? <==> || opening.Misconfigured?
                                    || (opening.Greeted? && opening.reply.Code? && 500 <= opening.reply.code < 600))
              && (o.AuthError? <==> opening.Unauthenticated?) && (o.PermError? || o.AuthError? || o.TempError?)
    ensures var said := s.log[|old(s.log)|..];
            opening.Ready? ==>
              && said[0].command == MAIL(from) && !o.AuthError?
              && (o.PermError? ==> to == [] || (said[|said| - 1].reply.Code? && 500 <= said[|said| - 1].reply.code < 600))
              && (forall e :: e in said && (e.command.MAIL? || e.command.DATA? || e.command == BODY(true)) ==>
                    (e.reply.Code? && 500 <= e.reply.code < 600 ==> o.PermError?))
              && (o.Fine? || o.QuitError? || o.PartialError? <==> Exchange(BODY(true), Code(250)) in said)
  {
    if !opening.Ready? {
      return Before(opening);
    }
    o := Transact(s, from, to, complete);
  }

  /** DATA, the body and QUIT, once somebody has been accepted. */
  method SendBody(s: Session, to: seq<string>, rejected: seq<Rejection>, complete: bool,
                  ghost start: seq<Exchange>, ghost head: seq<Exchange>) returns (o: Outcome)
    requires s.log == start + head
    requires |head| == |to| + 1 && head[0].command.MAIL? && head[0].reply == Code(250) && Offers(head[1..], to)
    requires AllSettled(head[1..]) && SomeAccepted(head[1..]) && rejected == Refused(head)
    modifies s
    ensures start <= s.log && |start| < |s.log| && Conducted(s.log[|start|..], to, complete, o)
    ensures s.log[|start|] == head[0] && RepliesSay(s.log[|start|..], to, o)
  {
    ghost var tail;
    o, tail := Submit(s, rejected, complete);
    Continued(head, tail, to);
    SubmitSays(head, tail, to, o);
    assert s.log == start + (head + tail) && s.log[|start|..] == head + tail;
  }

  /** The DATA phase on its own. */
  method Submit(s: Session, rejected: seq<Rejection>, complete: bool) returns (o: Outcome, ghost tail: seq<Exchange>)
    modifies s
    ensures s.log == old(s.log) + tail && tail != []
    ensures forall e :: e in tail ==> e.command.DATA? || e.command.BODY? || e.command.QUIT?
    ensures BodiesAre(tail, complete) && (BodyTaken(tail) ==> (MeansDelivered(o) <==> complete))
    ensures o == Ending(tail, rejected)
    ensures !o.AuthError?
    ensures o.PermError? <==> exists e :: e in tail && e.reply.Code? && 500 <= e.reply.code < 600
                                          && (e.command.DATA? || e.command == BODY(true))
    ensures o.PermError? ==> tail[|tail| - 1].reply.Code? && 500 <= tail[|tail| - 1].reply.code < 600
    ensures o.Fine? || o.QuitError? || o.PartialError? <==> Exchange(BODY(true), Code(250)) in tail
    ensures o.QuitError? ==> tail[|tail| - 1].command == QUIT && tail[|tail| - 1].reply != Code(221)
    ensures o.Fine? ==> rejected == [] && tail[|tail| - 1] == Exchange(QUIT, Code(221))
    ensures forall e :: e in tail && e.command.BODY? ==> Exchange(DATA, Code(354)) in tail
  {
    var r := s.Do(DATA);
    tail := [Exchange(DATA, r)];
    if !Accepts(DATA, r) {
      return Classify(r), tail;
    }
    r := s.Do(BODY(complete));
    tail := tail + [Exchange(BODY(complete), r)];
    if !complete {
      // Closing the writer still ends the body; its reply is not looked at.
      return TempError, tail;
    }
    if !Accepts(BODY(true), r) {
      return Classify(r), tail;
    }
    assert tail[1] in tail && Accepted(tail);
    var quit := s.Do(QUIT);
    ghost var before := tail;
    tail := tail + [Exchange(QUIT, quit)];
    assert tail[1] == before[1] && tail[1] in tail && Accepted(tail);
    if |rejected| > 0 {
      return PartialError(rejected), tail;
    }
    if !Accepts(QUIT, quit) {
      return QuitError, tail;
    }
    return Fine, tail;
  }

  /** What the replies of a transaction have to do with its outcome, in codes. */
  ghost predicate RepliesSay(said: seq<Exchange>, to: seq<string>, o: Outcome) {
    && said != [] && !o.AuthError?
    && (o.PermError? ==> to == [] || (said[|said| - 1].reply.Code? && 500 <= said[|said| - 1].reply.code < 600))
    && (forall e :: e in said && (e.command.MAIL? || e.command.DATA? || e.command == BODY(true)) ==>
          (e.reply.Code? && 500 <= e.reply.code < 600 ==> o.PermError?))
    && (o.Fine? || o.QuitError? || o.PartialError? <==> Exchange(BODY(true), Code(250)) in said)
    && (forall e :: e in said && e.command.DATA? ==> said[0].reply == Code(250))
    && (forall e :: e in said && e.command.BODY? ==> Exchange(DATA, Code(354)) in said)
  }

  /** What was settled before DATA stays settled, whatever is said after it. */
  lemma Continued(head: seq<Exchange>, tail: seq<Exchange>, to: seq<string>)
    requires |head| == |to| + 1 && head[0].command.MAIL? && Offers(head[1..], to)
    requires AllSettled(head[1..]) && SomeAccepted(head[1..])
    requires forall e :: e in tail ==> e.command.DATA? || e.command.BODY? || e.command.QUIT?
    ensures DataIsSafe(head + tail, to)
    ensures Refused(head + tail) == Refused(head)
    ensures Accepted(head + tail) <==> Accepted(tail)
    ensures BodyTaken(head + tail) <==> BodyTaken(tail)
    ensures forall complete :: BodiesAre(tail, complete) ==> BodiesAre(head + tail, complete)
    ensures tail != [] ==> Verdict(head + tail, to) == Ending(tail, Refused(head))
    ensures (head + tail)[1..|to| + 1] == head[1..]
  {
    assert (head + tail)[1..|to| + 1] == head[1..];
    RefusedBoth(head, tail);
    NoneRefused(tail);
    forall e | e in head
      ensures !e.command.BODY? && !e.command.DATA?
    {
      var k :| 0 <= k < |head| && head[k] == e;
      if k > 0 {
        assert head[1..][k - 1] == e;
      }
    }
    assert forall k :: 0 <= k < |head| ==> head[k] in head;
  }

  lemma {:induction false} NoneRefused(tail: seq<Exchange>)
    requires forall e :: e in tail ==> !e.command.RCPT?
    ensures Refused(tail) == []
    decreases |tail|
  {
    if tail != [] {
      NoneRefused(tail[1..]);
    }
  }
}
