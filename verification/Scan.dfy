/**
 The header scan: parser limits, hop counting, and dropping the fields only the relay may write.
 What it lets through parses and prints back byte for byte.
 */
module HeaderScan {
  import opened Types
  import opened Text
  import opened Header
  import opened Wire

  datatype Limits = Limits(maxHeaders: int, maxHeaderBytes: int)

  // The kept header block, the hops counted in it, and the body behind it.
  datatype Scanned = Scanned(headers: Octets, received: int, rest: Octets)

  /** The name a line would have if it were a field: all of it when there is no colon. */
  function ScanName(line: Octets): string {
    var i := IndexOf(line, ':');
    Lower(TrimSpace(if i >= 0 then line[..i] else line))
  }

  /** Fields that misrepresent a message's origin when a client supplies them. */
  predicate Misdirects(name: string) {
    name == "return-path" || name == "x-original-from"
  }

  // Where a scan stands.
  datatype State = State(headers: Octets, count: int, size: int, received: int, dropping: bool)

  /** One line more, unless a limit is passed. */
  function Step(st: State, line: Octets, lim: Limits): Result<State, ReadError> {
    var size := st.size + |line| + 2;
    if size > lim.maxHeaderBytes then Err(HeadersTooLarge)
    else if line == "" then Ok(st.(headers := st.headers + CRLF, size := size))
    else
      var starts := !Continues(line);
      var count := if starts then st.count + 1 else st.count;
      if starts && count > lim.maxHeaders then Err(TooManyHeaders)
      else
        var dropping := if starts then Misdirects(ScanName(line)) else st.dropping;
        Ok(State(if dropping then st.headers else st.headers + line + CRLF, count, size,
                 if starts && ScanName(line) == "received" then st.received + 1 else st.received, dropping))
  }

  function ScanFrom(stream: Octets, after: ReadError, lim: Limits, st: State): Result<Scanned, ReadError>
    decreases |stream|
  {
    match StructuredLineOf(stream, after, MAX_LINE_OCTETS)
    case Err(e) => if e == Eof then Ok(Scanned(st.headers, st.received, "")) else Err(e)
    case Ok((line, rest)) =>
      match Step(st, line, lim)
      case Err(e) => Err(e)
      case Ok(st') => if line == "" then Ok(Scanned(st'.headers, st'.received, rest)) else ScanFrom(rest, after, lim, st')
  }

  function Scan(stream: Octets, after: ReadError, lim: Limits): Result<Scanned, ReadError> {
    ScanFrom(stream, after, lim, State("", 0, 0, 0, false))
  }

  method ReadStructuredLine(br: Reader, max: nat) returns (r: Result<Octets, ReadError>)
    requires 0 < br.size
    modifies br
    ensures match StructuredLineOf(old(br.rest), br.after, max)
            case Err(e) => r == Err(e)
            case Ok((line, rest)) => r == Ok(line) && br.rest == rest
  {
    var l := ReadLineLimited(br, max);
    if l.Err? {
      return Err(l.error);
    }
    if '\r' in l.value.text {
      return Err(BareCR);
    }
    r := Ok(l.value.text);
  }

  method ScanHeaders(br: Reader, lim: Limits) returns (r: Result<Scanned, ReadError>)
    requires 0 < br.size
    modifies br
    ensures r == Scan(old(br.rest), br.after, lim)
  {
    ghost var stream := br.rest;
    var st := State("", 0, 0, 0, false);
    while true
      invariant ScanFrom(br.rest, br.after, lim, st) == Scan(stream, br.after, lim)
      decreases |br.rest|
    {
      var l := ReadStructuredLine(br, MAX_LINE_OCTETS);
      if l.Err? {
        if l.error == Eof {
          // Headers only and no empty line.
          return Ok(Scanned(st.headers, st.received, ""));
        }
        return Err(l.error);
      }
      var next := TakeLine(st, l.value, lim);
      if next.Err? {
        return Err(next.error);
      }
      st := next.value;
      if l.value == "" {
        return Ok(Scanned(st.headers, st.received, br.rest));
      }
    }
  }

  /** The body of the loop: charge the line against the limits, look at its field, keep or drop it. */
  method TakeLine(st: State, line: Octets, lim: Limits) returns (r: Result<State, ReadError>)
    ensures r == Step(st, line, lim)
  {
    var size := st.size + |line| + 2;
    if size > lim.maxHeaderBytes {
      return Err(HeadersTooLarge);
    }
    if line == "" {
      return Ok(st.(headers := st.headers + CRLF, size := size));
    }
    var count, received, dropping := st.count, st.received, st.dropping;
    if !Continues(line) {
      count := count + 1;
      if count > lim.maxHeaders {
        return Err(TooManyHeaders);
      }
      var name := ScanName(line);
      if name == "received" {
        received := received + 1;
        dropping := false;
      } else {
        dropping := Misdirects(name);
      }
    }
    r := Ok(State(if dropping then st.headers else st.headers + line + CRLF, count, size, received, dropping));
  }

  /** The lines of a header block, up to its empty line or the end of the stream, and which it was. */
  function HeadLines(stream: Octets, after: ReadError): (seq<Octets>, bool)
    decreases |stream|
  {
    match StructuredLineOf(stream, after, MAX_LINE_OCTETS)
    case Err(_) => ([], false)
    case Ok((line, rest)) =>
      if line == "" then ([], true)
      else
        var more := HeadLines(rest, after);
        ([line] + more.0, more.1)
  }

  /** The lines that are kept, when the field before them was or was not dropped. */
  function Kept(lines: seq<Octets>, dropping: bool): seq<Octets> {
    if lines == [] then []
    else
      var d := if Continues(lines[0]) then dropping else Misdirects(ScanName(lines[0]));
      (if d then [] else [lines[0]]) + Kept(lines[1..], d)
  }

  /** How many lines start a field, and how many of those are named Received. */
  function Starts(lines: seq<Octets>): nat {
    if lines == [] then 0 else (if Continues(lines[0]) then 0 else 1) + Starts(lines[1..])
  }

  function Hops(lines: seq<Octets>): nat {
    if lines == [] then 0
    else (if !Continues(lines[0]) && ScanName(lines[0]) == "received" then 1 else 0) + Hops(lines[1..])
  }

  function Size(lines: seq<Octets>): nat {
    if lines == [] then 0 else |lines[0]| + 2 + Size(lines[1..])
  }

  ghost predicate HeaderLine(l: Octets) {
    l != "" && '\n' !in l && '\r' !in l && '\0' !in l
  }

  /** What a successful scan returns, in terms of the block's lines. */
  lemma {:induction false} ScanIsFilter(stream: Octets, after: ReadError, lim: Limits, st: State)
    requires ScanFrom(stream, after, lim, st).Ok?
    ensures var (lines, blank) := HeadLines(stream, after);
            && ScanFrom(stream, after, lim, st).value.headers ==
               st.headers + Join(Kept(lines, st.dropping)) + (if blank then CRLF else "")
            && ScanFrom(stream, after, lim, st).value.received == st.received + Hops(lines)
            && (forall l :: l in lines ==> HeaderLine(l))
            && (Starts(lines) > 0 ==> st.count + Starts(lines) <= lim.maxHeaders)
            && (lines != [] || blank ==> st.size + Size(lines) + (if blank then 2 else 0) <= lim.maxHeaderBytes)
    decreases |stream|
  {
    var r := StructuredLineOf(stream, after, MAX_LINE_OCTETS);
    if r.Ok? {
      var (line, rest) := r.value;
      LineIsPlain(stream, after, MAX_LINE_OCTETS);
      if line != "" {
        var st' := Step(st, line, lim).value;
        ScanIsFilter(rest, after, lim, st');
        FilterOneMore(line, HeadLines(rest, after).0, st, st', lim);
      }
    }
  }

  /** The body is what is left of the stream: nothing of it is read or changed by the scan. */
  lemma {:induction false} BodyIsUntouched(stream: Octets, after: ReadError, lim: Limits, st: State)
    requires ScanFrom(stream, after, lim, st).Ok?
    ensures var rest := ScanFrom(stream, after, lim, st).value.rest;
            HasSuffix(stream, rest) && (!HeadLines(stream, after).1 ==> rest == "")
    decreases |stream|
  {
    var r := StructuredLineOf(stream, after, MAX_LINE_OCTETS);
    if r.Ok? {
      var (line, more) := r.value;
      RestFollows(stream, after);
      if line != "" {
        var st' := Step(st, line, lim).value;
        BodyIsUntouched(more, after, lim, st');
        SuffixOfSuffix(stream, more, ScanFrom(more, after, lim, st').value.rest);
      }
    }
  }

  lemma RestFollows(stream: Octets, after: ReadError)
    requires StructuredLineOf(stream, after, MAX_LINE_OCTETS).Ok?
    ensures HasSuffix(stream, StructuredLineOf(stream, after, MAX_LINE_OCTETS).value.1)
  {
    LineIsPlain(stream, after, MAX_LINE_OCTETS);
  }

  lemma SuffixOfSuffix(a: Octets, b: Octets, c: Octets)
    requires HasSuffix(a, b) && HasSuffix(b, c)
    ensures HasSuffix(a, c)
  {
    assert a[|a| - |c|..] == a[|a| - |b|..][|b| - |c|..];
  }

  lemma FilterOneMore(line: Octets, more: seq<Octets>, st: State, st': State, lim: Limits)
    requires line != "" && Step(st, line, lim) == Ok(st')
    ensures st'.headers + Join(Kept(more, st'.dropping)) == st.headers + Join(Kept([line] + more, st.dropping))
    ensures st'.received + Hops(more) == st.received + Hops([line] + more)
    ensures st'.count + Starts(more) == st.count + Starts([line] + more)
    ensures st'.size + Size(more) == st.size + Size([line] + more)
    ensures !Continues(line) ==> st'.count <= lim.maxHeaders
  {
    var lines := [line] + more;
    assert lines[0] == line && lines[1..] == more;
    KeptOneMore(line, more, st, st', lim);
  }

  lemma KeptOneMore(line: Octets, more: seq<Octets>, st: State, st': State, lim: Limits)
    requires line != "" && Step(st, line, lim) == Ok(st')
    ensures st'.headers + Join(Kept(more, st'.dropping)) == st.headers + Join(Kept([line] + more, st.dropping))
  {
    var kept := Kept(more, st'.dropping);
    assert ([line] + more)[1..] == more;
    if st'.dropping {
      assert Kept([line] + more, st.dropping) == [] + kept == kept;
    } else {
      assert Kept([line] + more, st.dropping) == [line] + kept;
      assert ([line] + kept)[1..] == kept;
      Regroup(st.headers, line + CRLF, Join(kept));
      assert st'.headers == st.headers + (line + CRLF);
    }
  }

  /** Whether the field a line belongs to is one that is dropped. */
  predicate Dropped(lines: seq<Octets>, i: nat)
    requires i < |lines|
  {
    if Continues(lines[i]) then i > 0 && Dropped(lines, i - 1) else Misdirects(ScanName(lines[i]))
  }

  /** The lines whose own field is not dropped, in order. */
  function OfOtherFields(lines: seq<Octets>, n: nat): seq<Octets>
    requires n <= |lines|
  {
    if n == 0 then [] else OfOtherFields(lines, n - 1) + (if Dropped(lines, n - 1) then [] else [lines[n - 1]])
  }

  lemma {:induction false} KeptFrom(lines: seq<Octets>, n: nat)
    requires n <= |lines|
    ensures OfOtherFields(lines, n) + Kept(lines[n..], n > 0 && Dropped(lines, n - 1)) == Kept(lines, false)
  {
    if n == 0 {
      assert lines[0..] == lines;
    } else {
      KeptFrom(lines, n - 1);
      assert lines[n - 1..][1..] == lines[n..] && lines[n - 1..][0] == lines[n - 1];
    }
  }

  /** A scan keeps exactly the lines whose own field it does not drop: a folded line goes with its field. */
  lemma KeptByField(lines: seq<Octets>)
    ensures Kept(lines, false) == OfOtherFields(lines, |lines|)
  {
    KeptFrom(lines, |lines|);
    assert lines[|lines|..] == [];
  }

  /** How many lines start a field of this name, as parsing sees it. */
  function NamedLines(lines: seq<Octets>, name: string): nat {
    if lines == [] then 0 else (if NameOf(lines[0]) == name then 1 else 0) + NamedLines(lines[1..], name)
  }

  lemma {:induction false} CountAddLines(fields: seq<Field>, lines: seq<Octets>, name: string)
    requires name != "" && forall k :: 0 <= k < |lines| ==> lines[k] != ""
    ensures CountOf(AddLines(fields, lines), name) == CountOf(fields, name) + NamedLines(lines, name)
    ensures |AddLines(fields, lines)| <= |fields| + Starts(lines) + (if fields == [] then 1 else 0)
    decreases |lines|
  {
    if lines != [] {
      CountAddLine(fields, lines[0], name);
      CountAddLines(AddLine(fields, lines[0]), lines[1..], name);
    }
  }

  lemma {:induction false} ShapeAddLines(fields: seq<Field>, lines: seq<Octets>)
    requires WellFormed(fields) && forall l :: l in lines ==> LineOk(l)
    ensures WellFormed(AddLines(fields, lines))
    decreases |lines|
  {
    if lines != [] {
      assert lines[0] in lines && lines == [lines[0]] + lines[1..];
      AddLineKeepsShape(fields, lines[0]);
      ShapeAddLines(AddLine(fields, lines[0]), lines[1..]);
    }
  }

  lemma SplitHead(a: seq<Octets>, lines: seq<Octets>)
    requires lines != []
    ensures a + [lines[0]] + lines[1..] == a + lines
  {
  }

  lemma {:induction false} LinesOfAddLines(fields: seq<Field>, lines: seq<Octets>)
    ensures LinesOf(AddLines(fields, lines)) == LinesOf(fields) + lines
    decreases |lines|
  {
    if lines == [] {
      assert LinesOf(fields) + lines == LinesOf(fields);
    } else {
      var next := AddLine(fields, lines[0]);
      LinesOfAddLine(fields, lines[0]);
      LinesOfAddLines(next, lines[1..]);
      SplitHead(LinesOf(fields), lines);
    }
  }

  lemma CountAddLine(fields: seq<Field>, line: Octets, name: string)
    requires name != "" && line != ""
    ensures CountOf(AddLine(fields, line), name) == CountOf(fields, name) + (if NameOf(line) == name then 1 else 0)
    ensures |AddLine(fields, line)| == |fields| + (if Continues(line) && fields != [] then 0 else 1)
  {
    var n := |fields| - 1;
    if Continues(line) && fields != [] {
      assert AddLine(fields, line)[..n] == fields[..n];
    } else {
      assert AddLine(fields, line)[..|fields|] == fields;
    }
  }

  /** Parsing names a field only where the scan saw that name too. */
  lemma {:induction false} NamesAgree(lines: seq<Octets>, dropping: bool)
    ensures NamedLines(Kept(lines, dropping), "return-path") == 0
    ensures NamedLines(Kept(lines, dropping), "x-original-from") == 0
    ensures NamedLines(Kept(lines, dropping), "received") <= Hops(lines)
    ensures Starts(Kept(lines, dropping)) <= Starts(lines)
    ensures forall l :: l in Kept(lines, dropping) ==> l in lines
  {
    if lines != [] {
      var d := if Continues(lines[0]) then dropping else Misdirects(ScanName(lines[0]));
      NamesAgree(lines[1..], d);
      var kept := Kept(lines[1..], d);
      assert lines == [lines[0]] + lines[1..];
      assert ([lines[0]] + kept)[1..] == kept && [] + kept == kept;
      assert NameOf(lines[0]) != "" ==> NameOf(lines[0]) == ScanName(lines[0]) && !Continues(lines[0]);
    }
  }

  /**
   Scan, parse, print is the identity: what a scan accepts parses without trailing data and
   prints back byte for byte. The block holds no Return-Path or X-Original-From field, no more
   Received fields than the hop count reports, and no more fields than the limit allows, plus
   one for folded lines that have no field before them.
   */
  lemma ScannedIsClean(stream: Octets, after: ReadError, lim: Limits)
    requires Scan(stream, after, lim).Ok?
    ensures var sc := Scan(stream, after, lim).value;
            && Parse(sc.headers).Some? && Print(Parse(sc.headers).value) == sc.headers
            && Clean(Parse(sc.headers).value.fields, HeadLines(stream, after).0, sc.received, lim)
  {
    ScanIsFilter(stream, after, lim, State("", 0, 0, 0, false));
    var (lines, blank) := HeadLines(stream, after);
    var kept := Kept(lines, false);
    assert "" + Join(kept) == Join(kept);
    KeptAreOk(lines, kept);
    ParsedKept(kept, blank);
    ShapeAddLines([], kept);
    LinesOfAddLines([], kept);
    assert LinesOf([]) + kept == kept;
    KeptByField(lines);
    KeptCounts(lines, kept, lim);
  }

  ghost predicate Clean(fields: seq<Field>, lines: seq<Octets>, received: int, lim: Limits) {
    && WellFormed(fields) && LinesOf(fields) == OfOtherFields(lines, |lines|)
    && CountOf(fields, "return-path") == 0 && CountOf(fields, "x-original-from") == 0
    && CountOf(fields, "received") <= received
    && |fields| <= Max(lim.maxHeaders, 0) + 1 && Starts(LinesOf(fields)) <= Max(lim.maxHeaders, 0)
  }

  lemma KeptAreOk(lines: seq<Octets>, kept: seq<Octets>)
    requires kept == Kept(lines, false) && forall l :: l in lines ==> HeaderLine(l)
    ensures forall l :: l in kept ==> LineOk(l)
  {
    NamesAgree(lines, false);
    forall l | l in kept
      ensures LineOk(l)
    {
      assert l in lines && HeaderLine(l);
      NoLineFeedNoCrlf(l);
    }
  }

  lemma KeptCounts(lines: seq<Octets>, kept: seq<Octets>, lim: Limits)
    requires kept == Kept(lines, false) && forall l :: l in kept ==> LineOk(l)
    requires Starts(lines) > 0 ==> Starts(lines) <= lim.maxHeaders
    ensures var fields := AddLines([], kept);
            && CountOf(fields, "return-path") == 0 && CountOf(fields, "x-original-from") == 0
            && CountOf(fields, "received") <= Hops(lines)
            && |fields| <= Max(lim.maxHeaders, 0) + 1 && Starts(kept) <= Max(lim.maxHeaders, 0)
  {
    NamesAgree(lines, false);
    assert forall k :: 0 <= k < |kept| ==> kept[k] in kept;
    CountAddLines([], kept, "return-path");
    CountAddLines([], kept, "x-original-from");
    CountAddLines([], kept, "received");
  }

  lemma ParsedKept(kept: seq<Octets>, blank: bool)
    requires forall l :: l in kept ==> LineOk(l)
    ensures Parse(Join(kept) + (if blank then CRLF else "")) == Some(Parsed(AddLines([], kept), blank))
    ensures Print(Parsed(AddLines([], kept), blank)) == Join(kept) + (if blank then CRLF else "")
  {
    ParseJoined([], kept, if blank then CRLF else "");
    if blank {
      FirstCrlf("", "");
      assert CRLF == "" + CRLF + "";
    }
    LinesOfAddLines([], kept);
    assert LinesOf([]) + kept == kept;
  }
}
