/** Sender rewriting: a compiled policy applied to one message's envelope sender and headers. */
module Rewrite {
  import opened Types
  import opened Text
  import opened MailAddr
  import opened Header

  const MODE_OFF := "off"
  const MODE_IF_UNAUTHORIZED := "if_unauthorized"
  const MODE_FORCE := "force"

  const KEEP := "keep"

  const MAX_PRESERVED_FROM := 512

  // A client's rewrite block as configured.
  datatype Policy = Policy(mode: string, envelopeFrom: string, headerFrom: string, replyTo: string,
                           allowedSenders: seq<string>)

  // An allowed sender; without a local part it stands for the whole domain.
  datatype Pattern = Pattern(local: string, domain: string)

  datatype ReplyTo = Preserve | Drop | Fixed(addr: string)

  // The compiled policy.
  datatype Rules = Rules(mode: string, allowed: seq<Pattern>, envFrom: string, headerFrom: string, replyTo: ReplyTo)

  datatype Input = Input(envelopeFrom: string, headers: Octets)

  datatype Rewriting = Rewriting(envelopeFrom: string, headers: Octets, rewritten: bool, originalFrom: string)

  datatype Refusal = TrailingData | AmbiguousFrom | HeaderTooLong | UnsafeHeader

  function ParseReplyTo(s: string): Option<ReplyTo> {
    var rt := TrimSpace(s);
    if rt == "" || rt == "preserve" then Some(Preserve)
    else if rt == "drop" then Some(Drop)
    else if HasPrefix(rt, "fixed:") then
      var addr := TrimSpace(rt[|"fixed:"|..]);
      if ValidAddress(addr) then Some(Fixed(addr)) else None
    else None
  }

  function CompilePattern(s: string): Option<Pattern> {
    var s := TrimSpace(s);
    if HasPrefix(s, "*@") then
      var d := Lower(s[2..]);
      if ValidDomain(d) then Some(Pattern("", d)) else None
    else if ValidAddress(s) then
      var at := LastIndexOf(s, '@');
      Some(Pattern(s[..at], Lower(s[at + 1..])))
    else None
  }

  predicate IsAtext(c: char) {
    'a' <= c <= 'z' || 'A' <= c <= 'Z' || '0' <= c <= '9' || c in "!#$%&'*+-/=?^_`{|}~"
  }

  predicate NeedsQuoting(display: string) {
    exists c :: c in display && c != ' ' && !IsAtext(c)
  }

  function Angle(addr: string): string {
    ['<'] + (addr + ['>'])
  }

  function Phrase(display: string): string {
    if display == "" then ""
    else if NeedsQuoting(display) then "\"" + display + "\" "
    else display + " "
  }

  function FormatMailbox(m: Mailbox): string {
    Phrase(m.display) + Angle(m.addr)
  }

  predicate IsListing(c: char) {
    c == '(' || c == ')' || c == ',' || c == ';' || c == ':'
  }

  /** The address in a From value, unless that would take a guess. */
  function AddrOfMailbox(s: string): string {
    AddrIn(TrimSpace(s))
  }

  function AddrIn(s: string): string {
    var i := LastIndexOf(s, '<');
    if i >= 0 then Bracketed(s, i, IndexOf(s[i..], '>'))
    else if exists c :: c in s && IsListing(c) then ""
    else s
  }

  /** What stands between a bracket at i and the one that closes it, j further on. */
  function Bracketed(s: string, i: nat, j: int): string
    requires i <= |s| && j < |s| - i
  {
    if j < 1 then "" else TrimSpace(s[i + 1..i + j])
  }

  predicate SafeValue(s: Octets) {
    forall c :: c in s ==> ' ' <= c && c != '\U{7F}'
  }

  /** What Compile guarantees about a policy that rewrites at all. */
  ghost predicate Sound(r: Rules) {
    r.mode != MODE_OFF ==>
      && r.mode in {MODE_IF_UNAUTHORIZED, MODE_FORCE}
      && ValidAddress(r.envFrom)
      && (r.headerFrom == "" || r.headerFrom == KEEP || Aligned(r.headerFrom, r.envFrom))
      && (r.mode == MODE_IF_UNAUTHORIZED ==> r.allowed != [])
      && (r.replyTo.Fixed? ==> ValidAddress(r.replyTo.addr))
  }

  /** A printed mailbox whose domain is that of the envelope sender. */
  ghost predicate Aligned(headerFrom: string, envFrom: string) {
    exists m: Mailbox :: headerFrom == FormatMailbox(m) && PlainMailbox(m) && DomainOf(m.addr) == DomainOf(envFrom)
  }

  ghost predicate PlainMailbox(m: Mailbox) {
    ValidAddress(m.addr) && Trimmed(m.display) && forall c :: c in m.display ==> DisplayChar(c)
  }

  function ModeOf(p: Policy): string {
    if p.mode == "" then MODE_OFF else p.mode
  }

  function HeaderFromOf(p: Policy): Option<string> {
    var h := TrimSpace(p.headerFrom);
    if h == "" || h == KEEP then Some(h)
    else
      var m := SplitMailbox(h);
      if m.None? || DomainOf(m.value.addr) != DomainOf(TrimSpace(p.envelopeFrom)) then None
      else Some(FormatMailbox(m.value))
  }

  /** Which policies compile. */
  ghost predicate Acceptable(p: Policy) {
    || ModeOf(p) == MODE_OFF
    || (&& ModeOf(p) in {MODE_IF_UNAUTHORIZED, MODE_FORCE}
        && ValidAddress(TrimSpace(p.envelopeFrom)) && HeaderFromOf(p).Some?
        && (forall s :: s in p.allowedSenders ==> CompilePattern(s).Some?)
        && (ModeOf(p) == MODE_IF_UNAUTHORIZED ==> p.allowedSenders != [])
        && ParseReplyTo(p.replyTo).Some?)
  }

  /** Compile: every check of the configuration is repeated here, since only its rules reach a header. */
  method Compile(p: Policy) returns (r: Option<Rules>)
    ensures r.Some? <==> Acceptable(p)
    ensures r.Some? ==> Sound(r.value) && r.value.mode == ModeOf(p)
    ensures r.Some? && ModeOf(p) != MODE_OFF ==>
              && r.value.envFrom == TrimSpace(p.envelopeFrom) && Some(r.value.headerFrom) == HeaderFromOf(p)
              && Some(r.value.replyTo) == ParseReplyTo(p.replyTo)
              && |r.value.allowed| == |p.allowedSenders|
              && forall i :: 0 <= i < |p.allowedSenders| ==> Some(r.value.allowed[i]) == CompilePattern(p.allowedSenders[i])
  {
    var mode, envFrom := ModeOf(p), TrimSpace(p.envelopeFrom);
    if mode == MODE_OFF {
      return Some(Rules(mode, [], envFrom, TrimSpace(p.headerFrom), Preserve));
    }
    if mode != MODE_IF_UNAUTHORIZED && mode != MODE_FORCE {
      return None;
    }
    if !ValidAddress(envFrom) {
      return None;
    }
    var headerFrom := HeaderFromOf(p);
    if headerFrom.None? {
      return None;
    }
    var allowed := CompilePatterns(p.allowedSenders);
    if allowed.None? {
      return None;
    }
    if mode == MODE_IF_UNAUTHORIZED && allowed.value == [] {
      return None;
    }
    var replyTo := ParseReplyTo(p.replyTo);
    if replyTo.None? {
      return None;
    }
    HeaderFromIsAligned(p);
    r := Some(Rules(mode, allowed.value, envFrom, headerFrom.value, replyTo.value));
  }

  method CompilePatterns(senders: seq<string>) returns (r: Option<seq<Pattern>>)
    ensures r.Some? <==> forall s :: s in senders ==> CompilePattern(s).Some?
    ensures r.Some? ==> |r.value| == |senders|
    ensures r.Some? ==> forall i :: 0 <= i < |senders| ==> Some(r.value[i]) == CompilePattern(senders[i])
  {
    var allowed: seq<Pattern> := [];
    for i := 0 to |senders|
      invariant |allowed| == i
      invariant forall k :: 0 <= k < i ==> Some(allowed[k]) == CompilePattern(senders[k])
    {
      var p := CompilePattern(senders[i]);
      if p.None? {
        assert senders[i] in senders;
        return None;
      }
      allowed := allowed + [p.value];
    }
    r := Some(allowed);
  }

  lemma HeaderFromIsAligned(p: Policy)
    requires HeaderFromOf(p).Some?
    ensures var h := HeaderFromOf(p).value;
            h == "" || h == KEEP || Aligned(h, TrimSpace(p.envelopeFrom))
  {
    var h := TrimSpace(p.headerFrom);
    if h != "" && h != KEEP {
      MailboxIsPlain(h);
      assert PlainMailbox(SplitMailbox(h).value);
    }
  }

  /** Whether the sender may stay as it is. */
  predicate Authorized(r: Rules, sender: string) {
    var at := LastIndexOf(sender, '@');
    0 < at < |sender| - 1
    && exists p :: p in r.allowed && p.domain == Lower(sender[at + 1..]) && (p.local == "" || EqualFold(p.local, sender[..at]))
  }

  /**
   A sender is authorized exactly when the configuration lists, in whatever case, its address or
   "*@" and its domain.
   */
  lemma AuthorizedIffListed(senders: seq<string>, r: Rules, local: string, domain: string)
    requires |r.allowed| == |senders|
    requires forall i :: 0 <= i < |senders| ==> CompilePattern(senders[i]) == Some(r.allowed[i])
    requires local != "" && domain != "" && '@' !in domain
    ensures Authorized(r, local + ['@'] + domain) <==>
            exists s :: s in senders && (EqualFold(TrimSpace(s), "*@" + domain) || EqualFold(TrimSpace(s), local + ['@'] + domain))
  {
    var sender := local + ['@'] + domain;
    LastIs(local, '@', domain);
    assert sender[..|local|] == local && sender[|local| + 1..] == domain;
    forall i | 0 <= i < |senders|
      ensures Matches(r.allowed[i], local, domain) <==>
              EqualFold(TrimSpace(senders[i]), "*@" + domain) || EqualFold(TrimSpace(senders[i]), sender)
    {
      MatchesIffListed(senders[i], r.allowed[i], local, domain);
    }
    if Authorized(r, sender) {
      var p :| p in r.allowed && Matches(p, local, domain);
      var i :| 0 <= i < |r.allowed| && r.allowed[i] == p;
      assert senders[i] in senders;
    }
    if s :| s in senders && (EqualFold(TrimSpace(s), "*@" + domain) || EqualFold(TrimSpace(s), sender)) {
      var i :| 0 <= i < |senders| && senders[i] == s;
      assert Matches(r.allowed[i], local, domain) && r.allowed[i] in r.allowed;
    }
  }

  /** Without a local part, an @ and a domain there is nothing to authorize. */
  lemma NoAddressIsAuthorized(r: Rules, s: string)
    ensures '@' !in s ==> !Authorized(r, s)
    ensures '@' !in s ==> !Authorized(r, ['@'] + s) && !Authorized(r, s + ['@'])
  {
    LastIndexOfIsLast(s, '@');
    if '@' !in s {
      LastIs("", '@', s);
      assert "" + ['@'] + s == ['@'] + s;
      LastIs(s, '@', "");
      assert s + ['@'] + "" == s + ['@'];
    }
  }

  predicate Matches(p: Pattern, local: string, domain: string) {
    p.domain == Lower(domain) && (p.local == "" || EqualFold(p.local, local))
  }

  lemma MatchesIffListed(s: string, p: Pattern, local: string, domain: string)
    requires CompilePattern(s) == Some(p) && local != "" && domain != "" && '@' !in domain
    ensures Matches(p, local, domain) <==>
            EqualFold(TrimSpace(s), "*@" + domain) || EqualFold(TrimSpace(s), local + ['@'] + domain)
  {
    assert "*" + ['@'] + domain == "*@" + domain;
    if HasPrefix(TrimSpace(s), "*@") {
      DomainIsListed(TrimSpace(s), p, local, domain);
    } else {
      var t := TrimSpace(s);
      var at := LastIndexOf(t, '@');
      LastIndexOfIsLast(t, '@');
      assert t == t[..at] + ['@'] + t[at + 1..];
      if t[..at] == "*" {
        StarIsPrefix(t, t[at + 1..]);
      }
      AddressIsListed(t[..at], t[at + 1..], p, local, domain);
    }
  }

  lemma DomainIsListed(t: string, p: Pattern, local: string, domain: string)
    requires HasPrefix(t, "*@") && p == Pattern("", Lower(t[2..])) && ValidDomain(p.domain) && '@' !in domain
    ensures Matches(p, local, domain) <==> EqualFold(t, "*" + ['@'] + domain) || EqualFold(t, local + ['@'] + domain)
  {
    assert t == "*" + ['@'] + t[2..];
    forall k | 0 <= k < |t[2..]|
      ensures t[2..][k] != '@'
    {
      assert p.domain[k] in p.domain;
    }
    FoldsInTwo("*", t[2..], "*", domain);
    FoldsInTwo("*", t[2..], local, domain);
  }

  lemma AddressIsListed(a: string, b: string, p: Pattern, local: string, domain: string)
    requires p == Pattern(a, Lower(b)) && a != "" && a != "*" && '@' !in b && '@' !in domain
    ensures Matches(p, local, domain) <==>
            EqualFold(a + ['@'] + b, "*" + ['@'] + domain) || EqualFold(a + ['@'] + b, local + ['@'] + domain)
  {
    FoldsInTwo(a, b, "*", domain);
    FoldsInTwo(a, b, local, domain);
    OnlyStarFolds(a);
  }

  lemma StarIsPrefix(t: string, b: string)
    requires t == "*" + ['@'] + b
    ensures HasPrefix(t, "*@")
  {
    assert t == "*@" + b;
  }

  lemma OnlyStarFolds(s: string)
    ensures EqualFold(s, "*") <==> s == "*"
  {
    if EqualFold(s, "*") {
      assert |s| == |Lower(s)| == |Lower("*")| == 1;
      assert LowerChar(s[0]) == Lower(s)[0] == Lower("*")[0] == '*';
    }
  }

  /** Two addresses are equal but for case exactly when their local parts and their domains are. */
  lemma FoldsInTwo(a: string, b: string, c: string, d: string)
    requires '@' !in b && '@' !in d
    ensures EqualFold(a + ['@'] + b, c + ['@'] + d) <==> EqualFold(a, c) && EqualFold(b, d)
  {
    LowerParts(a, '@', b);
    LowerParts(c, '@', d);
    LowerKeepsOut(b, '@');
    LowerKeepsOut(d, '@');
    if EqualFold(a + ['@'] + b, c + ['@'] + d) {
      SplitsOneWay(Lower(a), Lower(b), Lower(c), Lower(d), '@');
    }
  }

  /** The client's own From, as far as it can be kept. */
  function Original(fields: seq<Field>): Octets {
    TrimSpace(ValueOf(fields, "from"))
  }

  /** Whether that From survives: only under "keep", and only in the new envelope sender's domain. */
  predicate KeepsFrom(r: Rules, orig: Octets) {
    r.headerFrom == KEEP && orig != ""
    && ValidAddress(AddrOfMailbox(orig)) && DomainOf(AddrOfMailbox(orig)) == DomainOf(r.envFrom)
  }

  function FromValue(r: Rules): string {
    if r.headerFrom != "" && r.headerFrom != KEEP then r.headerFrom else Angle(r.envFrom)
  }

  /** What goes into Reply-To is an address of the client's, never the relay's, and its From comes before its envelope. */
  lemma AnswersReachTheClient(r: Rules, orig: Octets, envelope: string)
    ensures var a, own := ReplyAddress(r, orig, envelope), AddrOfMailbox(orig);
            && (a != "" ==> ValidAddress(a) && Lower(a) != Lower(r.envFrom) && (a == own || a == envelope))
            && (ValidAddress(own) && Lower(own) != Lower(r.envFrom) ==> a == own)
            && (!ValidAddress(own) && ValidAddress(envelope) && Lower(envelope) != Lower(r.envFrom) ==> a == envelope)
  {
  }

  /** Where answers should go when the client said nothing about it. */
  function ReplyAddress(r: Rules, orig: Octets, envelope: string): string {
    var a := AddrOfMailbox(orig);
    if ValidAddress(a) then (if EqualFold(a, r.envFrom) then "" else a)
    else if ValidAddress(envelope) && !EqualFold(envelope, r.envFrom) then envelope
    else ""
  }

  /** Why a message cannot be rewritten, if it cannot. */
  function Refused(fields: seq<Field>): Option<Refusal> {
    if CountOf(fields, "from") > 1 then Some(AmbiguousFrom)
    else if |Original(fields)| > MAX_PRESERVED_FROM then Some(HeaderTooLong)
    else if !SafeValue(Original(fields)) then Some(UnsafeHeader)
    else None
  }

  function WithFrom(r: Rules, fields: seq<Field>): seq<Field> {
    SetNamed(fields, "From", FromValue(r))
  }

  function WithOriginal(fields: seq<Field>, orig: Octets): seq<Field> {
    if orig == "" then fields else SetNamed(fields, "X-Original-From", orig)
  }

  function WithReplyTo(r: Rules, fields: seq<Field>, orig: Octets, envelope: string): seq<Field> {
    match r.replyTo
    case Drop => Without(fields, "reply-to")
    case Fixed(addr) => SetNamed(fields, "Reply-To", Angle(addr))
    case Preserve =>
      var a := ReplyAddress(r, orig, envelope);
      if Has(fields, "reply-to") || a == "" then fields else SetNamed(fields, "Reply-To", Angle(a))
  }

  /** The fields after a rewrite that replaces From. */
  function Edited(r: Rules, fields: seq<Field>, envelope: string): seq<Field> {
    var orig := Original(fields);
    WithReplyTo(r, WithOriginal(WithFrom(r, fields), orig), orig, envelope)
  }

  /** Whether the policy touches the message at all. */
  predicate Concerns(r: Option<Rules>, i: Input) {
    && r.Some? && r.value.mode != MODE_OFF && i.envelopeFrom != ""
    && !(r.value.mode == MODE_IF_UNAUTHORIZED && Authorized(r.value, i.envelopeFrom))
  }

  /** Leave the message alone, refuse it, keep its From, or edit exactly what Edited says. */
  ghost predicate IsApplied(r: Option<Rules>, i: Input, res: Result<Rewriting, Refusal>) {
    if !Concerns(r, i) then res == Ok(Rewriting(i.envelopeFrom, i.headers, false, ""))
    else if Parse(i.headers).None? then res == Err(TrailingData)
    else
      var p := Parse(i.headers).value;
      match Refused(p.fields)
      case Some(e) => res == Err(e)
      case None => res == Ok(Rewriting(r.value.envFrom,
                                       Print(if KeepsFrom(r.value, Original(p.fields)) then p
                                             else Parsed(Edited(r.value, p.fields, i.envelopeFrom), p.blank)),
                                       true, i.envelopeFrom))
  }

  method Apply(r: Option<Rules>, i: Input) returns (res: Result<Rewriting, Refusal>)
    ensures IsApplied(r, i, res)
    ensures r.None? || r.value.mode == "off" || i.envelopeFrom == ""
            || (r.value.mode == "if_unauthorized" && Authorized(r.value, i.envelopeFrom)) <==>
            res.Ok? && !res.value.rewritten
    ensures res.Ok? && !res.value.rewritten ==> res.value.envelopeFrom == i.envelopeFrom && res.value.headers == i.headers
    ensures res.Ok? && res.value.rewritten ==> res.value.envelopeFrom == r.value.envFrom && res.value.originalFrom == i.envelopeFrom
    ensures res.Err? ==> Parse(i.headers).None? || var fields := Parse(i.headers).value.fields;
              CountOf(fields, "from") > 1 || |Original(fields)| > 512 || !SafeValue(Original(fields))
    ensures res.Ok? && res.value.rewritten ==> Parse(i.headers).Some? && var fields := Parse(i.headers).value.fields;
              CountOf(fields, "from") <= 1 && |Original(fields)| <= 512 && SafeValue(Original(fields))
  {
    if r.None? || r.value.mode == MODE_OFF || i.envelopeFrom == "" {
      return Ok(Rewriting(i.envelopeFrom, i.headers, false, ""));
    }
    var rules := r.value;
    if rules.mode == MODE_IF_UNAUTHORIZED && Authorized(rules, i.envelopeFrom) {
      return Ok(Rewriting(i.envelopeFrom, i.headers, false, ""));
    }
    var blk, ok := ParseBlock(i.headers);
    if !ok {
      return Err(TrailingData);
    }
    var froms := blk.Count("from");
    if froms > 1 {
      return Err(AmbiguousFrom);
    }
    var value := blk.Value("from");
    var orig := TrimSpace(value);
    if orig != "" {
      if |orig| > MAX_PRESERVED_FROM {
        return Err(HeaderTooLong);
      }
      if !SafeValue(orig) {
        return Err(UnsafeHeader);
      }
    }
    if !KeepsFrom(rules, orig) {
      EditBlock(rules, blk, orig, i.envelopeFrom);
    }
    var text := blk.ToText();
    res := Ok(Rewriting(rules.envFrom, text, true, i.envelopeFrom));
  }

  method EditBlock(r: Rules, blk: Block, orig: Octets, envelope: string)
    modifies blk
    ensures blk.blank == old(blk.blank)
    ensures blk.fields == WithReplyTo(r, WithOriginal(WithFrom(r, old(blk.fields)), orig), orig, envelope)
  {
    blk.Set("From", FromValue(r));
    if orig != "" {
      blk.Set("X-Original-From", orig);
    }
    match r.replyTo
    case Drop =>
      blk.Remove("reply-to");
    case Fixed(addr) =>
      blk.Set("Reply-To", Angle(addr));
    case Preserve =>
      var n := blk.Count("reply-to");
      if n == 0 {
        var a := ReplyAddress(r, orig, envelope);
        if a != "" {
          blk.Set("Reply-To", Angle(a));
        }
      }
  }

  /** A header line this package writes reads back as the name and value it was written from. */
  lemma WrittenLine(name: string, v: Octets)
    requires NameOk(name) && ValueOk(v)
    ensures NameOf(name + ": " + v) == Lower(name) && LineOk(name + ": " + v) && Unfold([name + ": " + v]) == v
  {
    var line := name + ": " + v;
    assert line == name + [':'] + (" " + v);
    FirstIs(name, ':', " " + v);
    assert line[..|name|] == name && line[|name| + 1..] == " " + v && line[0] == name[0];
    TrimSpaceTrims(name);
    TrimSpaceBlank(v);
    TrimSpaceTrims(v);
  }

  predicate NameOk(name: string) {
    name != "" && Lower(name) != "" && Trimmed(name) && ':' !in name && '\r' !in name
  }

  predicate ValueOk(v: Octets) {
    '\r' !in v && Trimmed(v)
  }

  lemma PlainAddress(a: string)
    requires ValidAddress(a)
    ensures '<' !in a && '>' !in a && '\r' !in a && a != "" && TrimSpace(a) == a
  {
    AddressIsPlain(a);
  }

  lemma Regroup(a: string, b: string, c: string)
    ensures a + b + c == a + (b + c)
  {
  }

  lemma AngleOpens(before: string, a: string)
    requires '<' !in a
    ensures LastIndexOf(before + Angle(a), '<') == |before| && (before + Angle(a))[|before|..] == Angle(a)
  {
    LastIs(before, '<', a + ['>']);
    Regroup(before, ['<'], a + ['>']);
  }

  lemma AngleCloses(a: string)
    requires '>' !in a
    ensures IndexOf(Angle(a), '>') == |a| + 1
  {
    FirstIs(['<'] + a, '>', "");
    Regroup(['<'], a, ['>']);
    assert (['<'] + a) + ['>'] + "" == (['<'] + a) + ['>'];
  }

  lemma AngleTrimmed(before: string, a: string)
    requires before == "" || !IsSpace(before[0])
    ensures Trimmed(before + Angle(a)) && TrimSpace(before + Angle(a)) == before + Angle(a)
  {
    var s := before + Angle(a);
    assert s[0] == (if before == "" then '<' else before[0]) && s[|s| - 1] == '>';
    TrimSpaceTrims(s);
  }

  lemma AngleFound(before: string, a: string)
    requires '<' !in a && '>' !in a && a != "" && TrimSpace(a) == a
    ensures AddrIn(before + Angle(a)) == a
  {
    AngleOpens(before, a);
    AngleCloses(a);
    BracketsFound(before + Angle(a), |before|, |a| + 1);
    AngleBracketed(before, a);
  }

  /** An address between angle brackets is found again, whatever stands before it. */
  lemma AngleAddr(before: string, a: string)
    requires ValidAddress(a) && (before == "" || !IsSpace(before[0]))
    ensures Trimmed(before + Angle(a)) && AddrOfMailbox(before + Angle(a)) == a
  {
    PlainAddress(a);
    AngleFound(before, a);
    AngleTrimmed(before, a);
  }

  lemma BracketsFound(s: string, i: nat, j: nat)
    requires i <= |s| && LastIndexOf(s, '<') == i && IndexOf(s[i..], '>') == j
    ensures j < |s| - i && AddrIn(s) == Bracketed(s, i, j)
  {
  }

  lemma AngleBracketed(before: string, a: string)
    requires a != "" && TrimSpace(a) == a
    ensures Bracketed(before + Angle(a), |before|, |a| + 1) == a
  {
    AngleInside(before, a);
  }

  lemma AngleInside(before: string, a: string)
    ensures (before + Angle(a))[|before| + 1..|before| + |a| + 1] == a
  {
    var s, i := before + Angle(a), |before|;
    assert s[i..] == Angle(a);
    assert s[i..][1..|a| + 1] == s[i + 1..i + |a| + 1];
    assert Angle(a)[1..] == a + ['>'];
    assert Angle(a)[1..|a| + 1] == Angle(a)[1..][..|a|];
  }

  /** The From this policy writes carries an address in the envelope sender's domain. */
  lemma FromValueIsAligned(r: Rules)
    requires Sound(r) && r.mode != MODE_OFF
    ensures Trimmed(FromValue(r)) && '\r' !in FromValue(r)
    ensures ValidAddress(AddrOfMailbox(FromValue(r))) && DomainOf(AddrOfMailbox(FromValue(r))) == DomainOf(r.envFrom)
  {
    if r.headerFrom == "" || r.headerFrom == KEEP {
      BareAddr(r.envFrom);
    } else {
      var m: Mailbox :| r.headerFrom == FormatMailbox(m) && PlainMailbox(m) && DomainOf(m.addr) == DomainOf(r.envFrom);
      FormattedMailbox(m);
    }
  }

  lemma BareAddr(a: string)
    requires ValidAddress(a)
    ensures Trimmed(Angle(a)) && '\r' !in Angle(a) && AddrOfMailbox(Angle(a)) == a
  {
    PlainAddress(a);
    AngleKeepsOut(a, '\r');
    AngleAddr("", a);
    assert "" + Angle(a) == Angle(a);
  }

  lemma AngleKeepsOut(a: string, c: char)
    requires c !in a && c != '<' && c != '>'
    ensures c !in Angle(a)
  {
    assert c !in a + ['>'];
  }

  lemma FormattedMailbox(m: Mailbox)
    requires PlainMailbox(m)
    ensures Trimmed(FormatMailbox(m)) && '\r' !in FormatMailbox(m) && AddrOfMailbox(FormatMailbox(m)) == m.addr
  {
    PlainAddress(m.addr);
    assert '\r' !in Phrase(m.display);
    AngleAddr(Phrase(m.display), m.addr);
  }

  /** Under "keep" a mailbox in the new envelope sender's domain stays, and no other. */
  lemma MailboxIsKept(r: Rules, m: Mailbox)
    requires PlainMailbox(m)
    ensures KeepsFrom(r, FormatMailbox(m)) <==> r.headerFrom == "keep" && DomainOf(m.addr) == DomainOf(r.envFrom)
  {
    FormattedMailbox(m);
  }

  /** The From a policy writes is the mailbox it is configured with, or else the new envelope sender in brackets. */
  lemma FromIsAsConfigured(p: Policy, r: Rules)
    requires r.envFrom == TrimSpace(p.envelopeFrom) && HeaderFromOf(p) == Some(r.headerFrom)
    ensures var h := TrimSpace(p.headerFrom);
            if h == "" || h == "keep" then FromValue(r) == ['<'] + (TrimSpace(p.envelopeFrom) + ['>'])
            else SplitMailbox(h).Some? && FromValue(r) == FormatMailbox(SplitMailbox(h).value)
                 && AddrOfMailbox(FromValue(r)) == SplitMailbox(h).value.addr
  {
    var h := TrimSpace(p.headerFrom);
    if h != "" && h != KEEP {
      var m := SplitMailbox(h).value;
      MailboxIsPlain(h);
      FormattedMailbox(m);
      NotKeep(m);
    }
  }

  lemma NotKeep(m: Mailbox)
    ensures FormatMailbox(m) != "" && FormatMailbox(m) != KEEP
  {
    var f := FormatMailbox(m);
    assert f[|f| - 1] == '>';
  }

  /** The names the relay itself may write. */
  const OWNED: set<string> := {"from", "x-original-from", "reply-to"}

  lemma OwnedNames()
    ensures Lower("From") == "from" && Lower("X-Original-From") == "x-original-from" && Lower("Reply-To") == "reply-to"
    ensures NameOk("From") && NameOk("X-Original-From") && NameOk("Reply-To")
  {
    assert Lower("From") == "from";
    assert Lower("X-Original-From") == "x-original-from";
    assert Lower("Reply-To") == "reply-to";
  }

  /** One field of this name now, saying this, and still a block that prints and parses back. */
  ghost predicate Says(out: seq<Field>, name: string, v: Octets) {
    WellFormed(out) && CountOf(out, name) == 1 && ValueOf(out, name) == v
  }

  lemma SetWritten(fields: seq<Field>, name: string, v: Octets)
    requires WellFormed(fields) && NameOk(name) && ValueOk(v)
    ensures Says(SetNamed(fields, name, v), Lower(name), v)
  {
    WrittenLine(name, v);
    SetIsExact(fields, Lower(name), name + ": " + v);
    EditsKeepShape(fields, Lower(name), name + ": " + v);
  }

  /** A rewrite changes nothing about how often a Return-Path stands in the block. */
  lemma ReturnPathKept(fields: seq<Field>, out: seq<Field>)
    requires Except(out, OWNED) == Except(fields, OWNED)
    ensures CountOf(out, "return-path") == CountOf(fields, "return-path")
  {
    CountExcept(out, OWNED, "return-path");
    CountExcept(fields, OWNED, "return-path");
  }

  lemma WithFromIsExact(r: Rules, fields: seq<Field>)
    requires Sound(r) && r.mode != MODE_OFF && WellFormed(fields)
    ensures Says(WithFrom(r, fields), "from", FromValue(r))
    ensures Except(WithFrom(r, fields), OWNED) == Except(fields, OWNED)
    ensures CountOf(WithFrom(r, fields), "x-original-from") == CountOf(fields, "x-original-from")
    ensures SameNamed(fields, WithFrom(r, fields), "reply-to")
  {
    FromIsSaid(r, fields);
    FromLeavesOthers(fields, FromValue(r));
  }

  lemma FromIsSaid(r: Rules, fields: seq<Field>)
    requires Sound(r) && r.mode != MODE_OFF && WellFormed(fields)
    ensures Says(WithFrom(r, fields), "from", FromValue(r))
  {
    OwnedNames();
    FromValueIsAligned(r);
    SetWritten(fields, "From", FromValue(r));
  }

  lemma FromLeavesOthers(fields: seq<Field>, v: Octets)
    ensures Except(SetNamed(fields, "From", v), OWNED) == Except(fields, OWNED)
    ensures SameNamed(fields, SetNamed(fields, "From", v), "x-original-from")
    ensures SameNamed(fields, SetNamed(fields, "From", v), "reply-to")
  {
    OwnedNames();
    SetNamedKeepsOthers(fields, "From", v, "x-original-from");
    SetNamedKeepsOthers(fields, "From", v, "reply-to");
  }

  lemma SetNamedKeepsOthers(fields: seq<Field>, name: string, v: Octets, other: string)
    requires Lower(name) in OWNED && other != Lower(name)
    ensures Except(SetNamed(fields, name, v), OWNED) == Except(fields, OWNED)
    ensures SameNamed(fields, SetNamed(fields, name, v), other)
  {
    SetKeepsOthers(fields, Lower(name), name + ": " + v, other, OWNED);
  }

  ghost predicate SameNamed(fields: seq<Field>, out: seq<Field>, name: string) {
    && Named(out, name) == Named(fields, name) && CountOf(out, name) == CountOf(fields, name)
    && ValueOf(out, name) == ValueOf(fields, name)
  }

  lemma WithOriginalIsExact(fields: seq<Field>, orig: Octets)
    requires WellFormed(fields) && Trimmed(orig) && SafeValue(orig)
    ensures orig != "" ==> Says(WithOriginal(fields, orig), "x-original-from", orig)
    ensures WellFormed(WithOriginal(fields, orig))
    ensures Except(WithOriginal(fields, orig), OWNED) == Except(fields, OWNED)
    ensures SameNamed(fields, WithOriginal(fields, orig), "from")
    ensures SameNamed(fields, WithOriginal(fields, orig), "reply-to")
  {
    if orig != "" {
      OwnedNames();
      SetWritten(fields, "X-Original-From", orig);
      SetNamedKeepsOthers(fields, "X-Original-From", orig, "from");
      SetNamedKeepsOthers(fields, "X-Original-From", orig, "reply-to");
    }
  }

  lemma SetReplyTo(fields: seq<Field>, a: string)
    requires WellFormed(fields) && ValidAddress(a)
    ensures Says(SetNamed(fields, "Reply-To", Angle(a)), "reply-to", Angle(a))
    ensures OthersThanReplyTo(fields, SetNamed(fields, "Reply-To", Angle(a)))
  {
    OwnedNames();
    BareAddr(a);
    SetWritten(fields, "Reply-To", Angle(a));
    SetNamedKeepsOthers(fields, "Reply-To", Angle(a), "from");
    SetNamedKeepsOthers(fields, "Reply-To", Angle(a), "x-original-from");
  }

  ghost predicate OthersThanReplyTo(fields: seq<Field>, out: seq<Field>) {
    && Except(out, OWNED) == Except(fields, OWNED)
    && SameNamed(fields, out, "from") && SameNamed(fields, out, "x-original-from")
  }

  /** What becomes of Reply-To under each disposition. */
  ghost predicate RepliesGo(r: Rules, fields: seq<Field>, out: seq<Field>, orig: Octets, envelope: string) {
    match r.replyTo
    case Drop => CountOf(out, "reply-to") == 0
    case Fixed(addr) => CountOf(out, "reply-to") == 1 && ValueOf(out, "reply-to") == Angle(addr)
    case Preserve =>
      if Has(fields, "reply-to") || ReplyAddress(r, orig, envelope) == "" then
        SameNamed(fields, out, "reply-to")
      else CountOf(out, "reply-to") == 1 && ValueOf(out, "reply-to") == Angle(ReplyAddress(r, orig, envelope))
  }

  lemma WithReplyToIsExact(r: Rules, fields: seq<Field>, orig: Octets, envelope: string)
    requires Sound(r) && r.mode != MODE_OFF && WellFormed(fields)
    ensures var out := WithReplyTo(r, fields, orig, envelope);
            WellFormed(out) && OthersThanReplyTo(fields, out) && RepliesGo(r, fields, out, orig, envelope)
  {
    match r.replyTo
    case Drop =>
      CountWithout(fields, "reply-to", "reply-to");
      CountWithout(fields, "reply-to", "from");
      CountWithout(fields, "reply-to", "x-original-from");
      WithoutKeepsOthers(fields, "reply-to", "from", OWNED);
      WithoutKeepsOthers(fields, "reply-to", "x-original-from", OWNED);
      WithoutIsWellFormed(fields, "reply-to");
    case Fixed(addr) =>
      SetReplyTo(fields, addr);
    case Preserve =>
      if !Has(fields, "reply-to") && ReplyAddress(r, orig, envelope) != "" {
        SetReplyTo(fields, ReplyAddress(r, orig, envelope));
      }
  }

  /**
   The intended edit and nothing else: the printed result parses back to the edited block, its
   one From is in the new envelope sender's domain, the old From stands in one X-Original-From,
   Reply-To is as the policy says, and every other field is unchanged in bytes and order.
   */
  lemma RewriteIsExact(r: Rules, p: Parsed, headers: Octets, envelope: string)
    requires Sound(r) && r.mode != MODE_OFF
    requires Parse(headers) == Some(p) && Refused(p.fields).None?
    ensures var orig := Original(p.fields);
            var out := Parsed(Edited(r, p.fields, envelope), p.blank);
            && Parse(Print(out)) == Some(out)
            && CountOf(out.fields, "from") == 1
            && ValidAddress(AddrOfMailbox(ValueOf(out.fields, "from")))
            && DomainOf(AddrOfMailbox(ValueOf(out.fields, "from"))) == DomainOf(r.envFrom)
            && (orig != "" ==> CountOf(out.fields, "x-original-from") == 1 && ValueOf(out.fields, "x-original-from") == orig)
            && (orig == "" ==> CountOf(out.fields, "x-original-from") == CountOf(p.fields, "x-original-from"))
            && Except(out.fields, OWNED) == Except(p.fields, OWNED)
            && RepliesGo(r, p.fields, out.fields, orig, envelope)
  {
    var orig := Original(p.fields);
    TrimSpaceTrims(ValueOf(p.fields, "from"));
    ParsedIsWellFormed([], headers);
    WithFromIsExact(r, p.fields);
    FromValueIsAligned(r);
    var a := WithFrom(r, p.fields);
    WithOriginalIsExact(a, orig);
    var b := WithOriginal(a, orig);
    WithReplyToIsExact(r, b, orig, envelope);
    ParsePrint(Parsed(WithReplyTo(r, b, orig, envelope), p.blank));
  }

  /** A From that is kept is the only one and already in the new envelope sender's domain; no byte changes. */
  lemma KeptFromIsAligned(r: Rules, p: Parsed, headers: Octets)
    requires Parse(headers) == Some(p) && Refused(p.fields).None? && KeepsFrom(r, Original(p.fields))
    ensures headers == "" || HasSuffix(headers, CRLF) ==> Print(p) == headers
    ensures CountOf(p.fields, "from") == 1
    ensures DomainOf(AddrOfMailbox(ValueOf(p.fields, "from"))) == DomainOf(r.envFrom)
  {
    PrintParse(headers);
    TrimSpaceTrims(ValueOf(p.fields, "from"));
    NoValueWithoutField(p.fields, "from");
    TrimSpaceTwice(ValueOf(p.fields, "from"));
  }

  lemma {:induction false} NoValueWithoutField(fields: seq<Field>, name: string)
    ensures ValueOf(fields, name) != "" ==> Has(fields, name)
  {
    if fields != [] {
      NoValueWithoutField(fields[..|fields| - 1], name);
    }
  }

  lemma TrimSpaceTwice(s: Octets)
    ensures TrimSpace(TrimSpace(s)) == TrimSpace(s)
    ensures AddrOfMailbox(TrimSpace(s)) == AddrOfMailbox(s)
  {
    TrimSpaceTrims(s);
    TrimSpaceTrims(TrimSpace(s));
  }
}
