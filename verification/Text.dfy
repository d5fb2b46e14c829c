/** Searching, trimming and folding case over octets, as far as addresses and headers need it. */
module Text {
  import opened Types

  const CRLF := "\r\n"

  /** The first place of an octet, or -1. */
  function IndexOf(s: Octets, c: char): (i: int)
    ensures -1 <= i < |s| && (i >= 0 ==> s[i] == c)
  {
    if s == "" then -1
    else if s[0] == c then 0
    else
      var i := IndexOf(s[1..], c);
      if i < 0 then -1 else i + 1
  }

  /** The last place of an octet, or -1. */
  function LastIndexOf(s: Octets, c: char): (i: int)
    ensures -1 <= i < |s| && (i >= 0 ==> s[i] == c)
  {
    if s == "" then -1
    else if s[|s| - 1] == c then |s| - 1
    else LastIndexOf(s[..|s| - 1], c)
  }

  lemma {:induction false} IndexOfIsFirst(s: Octets, c: char)
    ensures var i := IndexOf(s, c);
            if c in s then i >= 0 && s[i] == c && c !in s[..i] else i < 0
  {
    if s != "" && s[0] != c {
      IndexOfIsFirst(s[1..], c);
      var i := IndexOf(s[1..], c);
      assert s == [s[0]] + s[1..];
      assert i >= 0 ==> s[..i + 1] == [s[0]] + s[1..][..i];
    }
  }

  lemma {:induction false} LastIndexOfIsLast(s: Octets, c: char)
    ensures var i := LastIndexOf(s, c);
            if c in s then i >= 0 && s[i] == c && c !in s[i + 1..] else i < 0
  {
    if s != "" && s[|s| - 1] != c {
      var n := |s| - 1;
      LastIndexOfIsLast(s[..n], c);
      var i := LastIndexOf(s[..n], c);
      assert s == s[..n] + [s[n]];
      assert i >= 0 ==> s[i + 1..] == s[..n][i + 1..] + [s[n]];
    }
  }

  /** A first occurrence is where the search from the front stops. */
  lemma {:induction false} FirstIs(before: Octets, c: char, after: Octets)
    requires c !in before
    ensures IndexOf(before + [c] + after, c) == |before|
  {
    if before != "" {
      assert (before + [c] + after)[1..] == before[1..] + [c] + after;
      FirstIs(before[1..], c, after);
    }
  }

  /** A last one is where the search from the back stops. */
  lemma {:induction false} LastIs(before: Octets, c: char, after: Octets)
    requires c !in after
    ensures LastIndexOf(before + [c] + after, c) == |before|
    decreases |after|
  {
    var s, n := before + [c] + after, |before| + |after|;
    if after != "" {
      assert s[..n] == before + [c] + after[..|after| - 1];
      LastIs(before, c, after[..|after| - 1]);
      assert s[n] == after[|after| - 1];
    }
  }

  /** The first place of CRLF, or -1. */
  function IndexOfCrlf(s: Octets): (i: int)
    ensures i == -1 || 0 <= i <= |s| - 2
    ensures i >= 0 ==> s[i] == '\r' && s[i + 1] == '\n' && !HasCrlf(s[..i])
    ensures i < 0 ==> !HasCrlf(s)
  {
    if |s| < 2 then -1
    else if s[0] == '\r' && s[1] == '\n' then 0
    else
      var i := IndexOfCrlf(s[1..]);
      if i < 0 then -1 else i + 1
  }

  predicate HasCrlf(s: Octets) {
    exists i :: 0 <= i < |s| - 1 && s[i] == '\r' && s[i + 1] == '\n'
  }

  predicate HasPrefix(s: Octets, p: Octets) {
    |p| <= |s| && s[..|p|] == p
  }

  predicate HasSuffix(s: Octets, p: Octets) {
    |p| <= |s| && s[|s| - |p|..] == p
  }

  function LowerChar(c: char): char {
    if 'A' <= c <= 'Z' then (c as int + 32) as char else c
  }

  function Lower(s: Octets): Octets {
    seq(|s|, i requires 0 <= i < |s| => LowerChar(s[i]))
  }

  lemma LowerParts(a: Octets, c: char, b: Octets)
    requires LowerChar(c) == c
    ensures Lower(a + [c] + b) == Lower(a) + [c] + Lower(b)
  {
  }

  lemma LowerKeepsOut(s: Octets, c: char)
    requires !('a' <= c <= 'z') && c !in s
    ensures c !in Lower(s)
  {
    forall k | 0 <= k < |s|
      ensures Lower(s)[k] != c
    {
      assert s[k] in s;
    }
  }

  /** The last occurrence settles how a string splits in two. */
  lemma SplitsOneWay(a: Octets, b: Octets, x: Octets, y: Octets, c: char)
    requires c !in b && c !in y && a + [c] + b == x + [c] + y
    ensures a == x && b == y
  {
    LastIs(a, c, b);
    LastIs(x, c, y);
    var s := a + [c] + b;
    assert a == s[..|a|] && x == s[..|x|] && b == s[|a| + 1..] && y == s[|x| + 1..];
  }

  predicate EqualFold(a: Octets, b: Octets) {
    Lower(a) == Lower(b)
  }

  predicate IsSpace(c: char) {
    c == ' ' || '\t' <= c <= '\r'
  }

  function TrimLeft(s: Octets): (t: Octets)
    ensures t == "" || !IsSpace(t[0])
  {
    if s != "" && IsSpace(s[0]) then TrimLeft(s[1..]) else s
  }

  function TrimRight(s: Octets): (t: Octets)
    ensures t == "" || !IsSpace(t[|t| - 1])
  {
    if s != "" && IsSpace(s[|s| - 1]) then TrimRight(s[..|s| - 1]) else s
  }

  function TrimSpace(s: Octets): Octets {
    TrimRight(TrimLeft(s))
  }

  lemma {:induction false} TrimLeftIsSuffix(s: Octets)
    ensures exists k :: 0 <= k <= |s| && TrimLeft(s) == s[k..]
  {
    if s != "" && IsSpace(s[0]) {
      TrimLeftIsSuffix(s[1..]);
      var k :| 0 <= k <= |s| - 1 && TrimLeft(s[1..]) == s[1..][k..];
      assert s[1..][k..] == s[k + 1..];
    } else {
      assert s == s[0..];
    }
  }

  lemma {:induction false} TrimRightIsPrefix(s: Octets)
    ensures TrimRight(s) <= s
  {
    if s != "" && IsSpace(s[|s| - 1]) {
      TrimRightIsPrefix(s[..|s| - 1]);
    }
  }

  /** Neither starts nor ends in white space. */
  predicate Trimmed(s: Octets) {
    s == "" || (!IsSpace(s[0]) && !IsSpace(s[|s| - 1]))
  }

  lemma TrimSpaceTrims(s: Octets)
    ensures Trimmed(TrimSpace(s)) && forall c :: c in TrimSpace(s) ==> c in s
    ensures TrimSpace(s) == s <==> Trimmed(s)
  {
    var l := TrimLeft(s);
    TrimLeftIsSuffix(s);
    var k :| 0 <= k <= |s| && l == s[k..];
    TrimRightIsPrefix(l);
    assert forall c :: c in l ==> c in s;
  }

  /** One leading blank more makes no difference. */
  lemma TrimSpaceBlank(s: Octets)
    ensures TrimSpace(" " + s) == TrimSpace(s)
  {
    assert (" " + s)[1..] == s;
  }
}
