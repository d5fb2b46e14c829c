/** The address syntax the relay accepts. */
module MailAddr {
  import opened Types
  import opened Text

  const MAX_LOCAL_PART := 64
  const MAX_DOMAIN_LEN := 255
  const MAX_PATH_LEN := 254
  const MAX_DISPLAY := 128

  predicate IsLdh(c: char) {
    'a' <= c <= 'z' || 'A' <= c <= 'Z' || '0' <= c <= '9' || c == '-'
  }

  predicate HasDotDot(d: string) {
    exists i :: 0 <= i < |d| - 1 && d[i] == '.' && d[i + 1] == '.'
  }

  /** A plain domain name with at least one dot and no empty label. */
  predicate ValidDomain(d: string) {
    && d != "" && |d| <= MAX_DOMAIN_LEN
    && d[0] != '.' && d[|d| - 1] != '.' && !HasDotDot(d)
    && '.' in d
    && (forall c :: c in d ==> IsLdh(c) || c == '.')
  }

  predicate IsSpecial(c: char) {
    c == '<' || c == '>' || c == ',' || c == ';' || c == ':' || c == '\"' || c == '\\'
  }

  /** An addr-spec that can stand in an envelope or between angle brackets as it is. */
  predicate ValidAddress(s: string) {
    && s != "" && |s| <= MAX_PATH_LEN
    && (forall c :: c in s ==> '!' <= c <= '~')
    && var at := LastIndexOf(s, '@');
    && 0 < at < |s| - 1
    && at <= MAX_LOCAL_PART && (forall c :: c in s[..at] ==> !IsSpecial(c))
    && ValidDomain(s[at + 1..])
  }

  /** The lower-cased domain, or nothing. */
  function DomainOf(addr: string): string {
    var at := LastIndexOf(addr, '@');
    if at < 0 || at == |addr| - 1 then "" else Lower(addr[at + 1..])
  }

  datatype Mailbox = Mailbox(display: string, addr: string)

  predicate DisplayChar(c: char) {
    ' ' <= c <= '~' && c != '<' && c != '>' && c != '"' && c != '\\'
  }

  /** A bare address, or a display name before an address in angle brackets. */
  function SplitMailbox(s: string): Option<Mailbox> {
    var s := TrimSpace(s);
    var i, j := LastIndexOf(s, '<'), LastIndexOf(s, '>');
    if s == "" || (i >= 0 && j <= i) then None
    else
      var display := if i >= 0 then TrimSpace(s[..i]) else "";
      var addr := if i >= 0 then TrimSpace(s[i + 1..j]) else s;
      if !ValidAddress(addr) || |display| > MAX_DISPLAY || !(forall c :: c in display ==> DisplayChar(c)) then None
      else Some(Mailbox(display, addr))
  }

  /** Nothing in a valid address can end it, open another one or be trimmed off it. */
  lemma AddressIsPlain(a: string)
    requires ValidAddress(a)
    ensures forall c :: c in a ==> '!' <= c <= '~' && c != '<' && c != '>'
    ensures Trimmed(a) && TrimSpace(a) == a && DomainOf(a) != ""
  {
    var at := LastIndexOf(a, '@');
    forall c | c in a
      ensures c != '<' && c != '>'
    {
      var k :| 0 <= k < |a| && a[k] == c;
      if k < at {
        assert a[..at][k] == c && c in a[..at];
      } else if k > at {
        assert a[at + 1..][k - at - 1] == c && c in a[at + 1..];
      }
    }
    assert a[0] in a && a[|a| - 1] in a;
    TrimSpaceTrims(a);
  }

  /** What SplitMailbox accepts can be put back into a header. */
  lemma MailboxIsPlain(s: string)
    requires SplitMailbox(s).Some?
    ensures var m := SplitMailbox(s).value;
            && ValidAddress(m.addr) && Trimmed(m.display) && |m.display| <= MAX_DISPLAY
            && (forall c :: c in m.display ==> DisplayChar(c))
  {
    var t := TrimSpace(s);
    var i := LastIndexOf(t, '<');
    if i >= 0 {
      TrimSpaceTrims(t[..i]);
    }
  }
}
