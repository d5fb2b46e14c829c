/**
 The SMTP wire format: lines read off a bounded buffer, the DATA stream with its transparency
 dots removed, and the header scan.
 */
module Wire {
  import opened Types
  import opened Text
  import opened Header

  // The longest line, its CRLF and any stuffing dot included.
  const MAX_LINE_OCTETS := 1000

  datatype ReadError = Eof | LineTooLong | NulByte | BareCR | TooManyHeaders | HeadersTooLarge | Broken

  // A line without its terminator, and whether that was a full CRLF.
  datatype Line = Line(text: Octets, crlf: bool)

  /** The next line of a stream that ends in this error, and what follows the line. */
  function LineOf(stream: Octets, after: ReadError, max: nat): (r: Result<(Line, Octets), ReadError>)
    ensures r.Ok? ==> |r.value.1| < |stream|
  {
    var i := IndexOf(stream, '\n');
    if (if i < 0 then |stream| else i + 1) > max then Err(LineTooLong)
    else if i < 0 then Err(after)
    else
      var line := Stripped(stream[..i]);
      if '\0' in line.text then Err(NulByte) else Ok((line, stream[i + 1..]))
  }

  /** A carriage return before the line feed belongs to the terminator. */
  function Stripped(s: Octets): Line {
    if s != "" && s[|s| - 1] == '\r' then Line(s[..|s| - 1], true) else Line(s, false)
  }

  /** The line of a stream whose first line feed is known. */
  lemma LineUpTo(stream: Octets, s: Octets, rest: Octets, after: ReadError, max: nat)
    requires stream == s + ['\n'] + rest && '\n' !in s
    ensures LineOf(stream, after, max) ==
            if |s| + 1 > max then Err(LineTooLong)
            else if '\0' in Stripped(s).text then Err(NulByte) else Ok((Stripped(s), rest))
  {
    FirstIs(s, '\n', rest);
    assert stream[..|s|] == s && stream[|s| + 1..] == rest;
  }

  /** A line that will be interpreted may hold no CR either. */
  function StructuredLineOf(stream: Octets, after: ReadError, max: nat): (r: Result<(Octets, Octets), ReadError>)
    ensures r.Ok? ==> |r.value.1| < |stream|
  {
    match LineOf(stream, after, max)
    case Err(e) => Err(e)
    case Ok((line, rest)) => if '\r' in line.text then Err(BareCR) else Ok((line.text, rest))
  }

  lemma LineIsPlain(stream: Octets, after: ReadError, max: nat)
    requires LineOf(stream, after, max).Ok?
    ensures var (line, rest) := LineOf(stream, after, max).value;
            && '\n' !in line.text && '\0' !in line.text && !HasCrlf(line.text)
            && stream == line.text + (if line.crlf then CRLF else "\n") + rest
  {
    IndexOfIsFirst(stream, '\n');
    var i := IndexOf(stream, '\n');
    var (line, rest) := LineOf(stream, after, max).value;
    assert stream == stream[..i] + ['\n'] + stream[i + 1..];
    assert line.crlf ==> stream[..i] == line.text + ['\r'];
    NoLineFeedNoCrlf(line.text);
  }

  lemma NoLineFeedNoCrlf(s: Octets)
    requires '\n' !in s
    ensures !HasCrlf(s)
  {
  }

  // What a bounded read found.
  datatype Found = Delimiter | BufferFull | NoMore

  /** A buffered reader: what is still to come, the error behind it, and the buffer's size. */
  class Reader {
    var rest: Octets
    const after: ReadError
    const size: nat

    constructor (stream: Octets, after: ReadError, size: nat)
      requires 0 < size
      ensures rest == stream && this.after == after && this.size == size
    {
      rest, this.after, this.size := stream, after, size;
    }

    /** ReadSlice: up to and including a line feed, or a full buffer, or all there is. */
    method ReadSlice() returns (chunk: Octets, found: Found)
      requires 0 < size
      modifies this
      ensures old(rest) == chunk + rest && |chunk| <= size
      ensures found.Delimiter? <==> chunk != "" && chunk[|chunk| - 1] == '\n'
      ensures '\n' !in (if found.Delimiter? then chunk[..|chunk| - 1] else chunk)
      ensures found.BufferFull? ==> chunk != ""
      ensures found.NoMore? ==> rest == ""
    {
      IndexOfIsFirst(rest, '\n');
      var i := IndexOf(rest, '\n');
      var n := if 0 <= i < size then i + 1 else if |rest| >= size then size else |rest|;
      found := if 0 <= i < size then Delimiter else if |rest| >= size then BufferFull else NoMore;
      chunk := rest[..n];
      assert !found.Delimiter? && 0 <= i ==> chunk == rest[..i][..n];
      assert found.Delimiter? ==> chunk[..i] == rest[..i];
      assert forall k :: 0 <= k < |chunk| ==> chunk[k] in chunk;
      rest := rest[n..];
    }
  }

  /** Not the fault of a line: the stream itself is over. */
  predicate OfTheStream(e: ReadError) {
    e != LineTooLong && e != NulByte
  }

  /** readLineLimited: one line in as many pieces as the buffer makes of it. */
  method ReadLineLimited(br: Reader, max: nat) returns (r: Result<Line, ReadError>)
    requires 0 < br.size
    modifies br
    ensures match LineOf(old(br.rest), br.after, max)
            case Err(e) => r == Err(e) && (OfTheStream(e) ==> br.rest == "")
            case Ok((line, rest)) => r == Ok(line) && br.rest == rest
  {
    ghost var stream := br.rest;
    var sb: Octets := "";
    var found := BufferFull;
    while found.BufferFull?
      invariant stream == sb + br.rest && |sb| <= max
      invariant found.Delimiter? ==> sb != "" && sb[|sb| - 1] == '\n' && '\n' !in sb[..|sb| - 1]
      invariant !found.Delimiter? ==> '\n' !in sb
      invariant found.NoMore? ==> br.rest == ""
      decreases |br.rest|, found.BufferFull?
    {
      var chunk;
      ghost var before := br.rest;
      chunk, found := br.ReadSlice();
      if |sb| + |chunk| > max {
        PastTheLimit(stream, sb, chunk, br.rest, br.after, max);
        return Err(LineTooLong);
      }
      OneChunkMore(sb, chunk, found.Delimiter?);
      sb := sb + chunk;
    }
    if found.NoMore? {
      assert stream == sb;
      NoLineLeft(stream, br.after, max);
      return Err(br.after);
    }
    assert stream == sb[..|sb| - 1] + ['\n'] + br.rest;
    LineUpTo(stream, sb[..|sb| - 1], br.rest, br.after, max);
    var line := Stripped(sb[..|sb| - 1]);
    if '\0' in line.text {
      return Err(NulByte);
    }
    r := Ok(line);
  }

  /** A piece more: the line feed, if it has come, is the last octet and the only one. */
  lemma OneChunkMore(sb: Octets, chunk: Octets, delimited: bool)
    requires delimited ==> chunk != "" && chunk[|chunk| - 1] == '\n'
    requires '\n' !in sb && '\n' !in (if delimited then chunk[..|chunk| - 1] else chunk)
    ensures var all := sb + chunk;
            if delimited then all != "" && all[|all| - 1] == '\n' && '\n' !in all[..|all| - 1] else '\n' !in all
  {
    assert delimited ==> (sb + chunk)[..|sb + chunk| - 1] == sb + chunk[..|chunk| - 1];
  }

  lemma NoLineLeft(stream: Octets, after: ReadError, max: nat)
    requires '\n' !in stream && |stream| <= max
    ensures LineOf(stream, after, max) == Err(after)
  {
    IndexOfIsFirst(stream, '\n');
  }

  lemma PastTheLimit(stream: Octets, sb: Octets, chunk: Octets, rest: Octets, after: ReadError, max: nat)
    requires stream == sb + (chunk + rest) && '\n' !in sb && |sb| + |chunk| > max
    requires chunk != "" && '\n' !in chunk[..|chunk| - 1]
    ensures LineOf(stream, after, max) == Err(LineTooLong)
  {
    var seen, more := sb + chunk[..|chunk| - 1], [chunk[|chunk| - 1]] + rest;
    assert stream == seen + more;
    NotFoundIn(seen, '\n', more);
  }

  lemma {:induction false} NotFoundIn(seen: Octets, c: char, more: Octets)
    requires c !in seen
    ensures IndexOf(seen + more, c) < 0 || |seen| <= IndexOf(seen + more, c)
  {
    if seen != "" {
      assert (seen + more)[1..] == seen[1..] + more;
      NotFoundIn(seen[1..], c, more);
    }
  }

  /** Transparency: a leading dot is doubled on the wire and undone on the way in. */
  function Stuff(line: Octets): Octets {
    if HasPrefix(line, ".") then "." + line else line
  }

  function Unstuff(line: Octets): Octets {
    if HasPrefix(line, ".") then line[1..] else line
  }

  // What a DATA stream holds: a body and what follows its dot line, or a body and what broke it off.
  datatype Body =
    | Ended(text: Octets, rest: Octets, smuggled: bool)
    | BrokenOff(text: Octets, error: ReadError)

  function After(head: Octets, b: Body): Body {
    b.(text := head + b.text)
  }

  /** The body of a stream; prevCRLF is how the line before it ended. */
  function BodyOf(stream: Octets, after: ReadError, prevCRLF: bool): Body
    decreases |stream|
  {
    match LineOf(stream, after, MAX_LINE_OCTETS)
    case Err(e) => BrokenOff("", e)
    case Ok((line, rest)) =>
      if line.text == "." then Ended("", rest, !line.crlf || !prevCRLF)
      else After(Unstuff(line.text) + CRLF, BodyOf(rest, after, line.crlf))
  }

  /** A line that goes through as it is: no line feed or NUL, and short enough once stuffed. */
  predicate Fits(line: Octets) {
    |Stuff(line)| + 2 <= MAX_LINE_OCTETS
  }

  predicate Plain(line: Octets) {
    '\n' !in line && '\0' !in line
  }

  lemma LineOnWire(line: Octets, more: Octets, after: ReadError, max: nat)
    requires Plain(line)
    ensures LineOf(line + CRLF + more, after, max)
            == if |line| + 2 > max then Err(LineTooLong) else Ok((Line(line, true), more))
  {
    assert line + CRLF + more == (line + ['\r']) + ['\n'] + more;
    LineUpTo(line + CRLF + more, line + ['\r'], more, after, max);
    assert (line + ['\r'])[..|line|] == line;
  }

  /** One stuffed line, read. */
  lemma StuffedLine(line: Octets, more: Octets, after: ReadError, prevCRLF: bool)
    requires Plain(line)
    ensures BodyOf(Stuff(line) + CRLF + more, after, prevCRLF) ==
            if Fits(line) then After(line + CRLF, BodyOf(more, after, true)) else BrokenOff("", LineTooLong)
  {
    LineOnWire(Stuff(line), more, after, MAX_LINE_OCTETS);
    assert Unstuff(Stuff(line)) == line && Stuff(line) != ".";
  }

  lemma DotLine(tail: Octets, after: ReadError)
    ensures BodyOf("." + CRLF + tail, after, true) == Ended("", tail, false)
  {
    LineOnWire(".", tail, after, MAX_LINE_OCTETS);
  }

  /** A body as a client sends it: every line stuffed, then the dot line, then whatever follows. */
  function Sent(lines: seq<Octets>, tail: Octets): Octets {
    if lines == [] then "." + CRLF + tail else Stuff(lines[0]) + CRLF + Sent(lines[1..], tail)
  }

  /**
   Unstuffing undoes stuffing: a body of plain lines sent with its dots doubled is read back as
   it was and leaves what follows untouched, exactly when every stuffed line is short enough.
   */
  lemma {:induction false} UnstuffingUndoesStuffing(lines: seq<Octets>, tail: Octets, after: ReadError)
    requires forall l :: l in lines ==> Plain(l)
    ensures if forall l :: l in lines ==> Fits(l) then BodyOf(Sent(lines, tail), after, true) == Ended(Join(lines), tail, false)
            else BodyOf(Sent(lines, tail), after, true).BrokenOff?
    decreases |lines|
  {
    if lines == [] {
      DotLine(tail, after);
    } else {
      var line := lines[0];
      assert line in lines && lines == [line] + lines[1..];
      StuffedLine(line, Sent(lines[1..], tail), after, true);
      UnstuffingUndoesStuffing(lines[1..], tail, after);
    }
  }

  /** Lines on the wire with no end of data, cut off in the middle of the next one. */
  function SentInPart(lines: seq<Octets>, part: Octets): Octets {
    if lines == [] then part else Stuff(lines[0]) + CRLF + SentInPart(lines[1..], part)
  }

  /**
   A connection that closes before the dot line is told from a proper end of data by nothing: the
   reader reports the same end of file, with what had arrived in full lines as the body.
   */
  lemma {:induction false} CutShort(lines: seq<Octets>, part: Octets)
    requires (forall l :: l in lines ==> Plain(l) && Fits(l)) && '\n' !in part && |part| <= MAX_LINE_OCTETS
    ensures BodyOf(SentInPart(lines, part), Eof, true) == BrokenOff(Join(lines), Eof)
    decreases |lines|
  {
    if lines == [] {
      IndexOfIsFirst(part, '\n');
    } else {
      assert lines[0] in lines && lines == [lines[0]] + lines[1..];
      StuffedLine(lines[0], SentInPart(lines[1..], part), Eof, true);
      CutShort(lines[1..], part);
    }
  }

  /** A stream cut at its line feeds; the last piece is what no line feed follows. */
  function Pieces(s: Octets): (ps: seq<Octets>)
    ensures ps != []
  {
    if s == "" then [""]
    else if s[0] == '\n' then [""] + Pieces(s[1..])
    else [[s[0]] + Pieces(s[1..])[0]] + Pieces(s[1..])[1..]
  }

  lemma {:induction false} PiecesUpTo(line: Octets, rest: Octets)
    requires '\n' !in line
    ensures Pieces(line) == [line] && Pieces(line + ['\n'] + rest) == [line] + Pieces(rest)
    decreases |line|
  {
    var s := line + ['\n'] + rest;
    if line == "" {
      assert s[1..] == rest;
    } else {
      PiecesUpTo(line[1..], rest);
      assert s[1..] == line[1..] + ['\n'] + rest && s[0] == line[0];
      assert line == [line[0]] + line[1..];
    }
  }

  /** A full line that is read as part of the body: not too long with its line feed, no NUL, not the dot line. */
  predicate IsBodyLine(raw: Octets) {
    |raw| + 1 <= MAX_LINE_OCTETS && '\0' !in raw && raw != "." && raw != ".\r"
  }

  /** What a body made of these lines comes to once the dots are undone and every line ends in CRLF. */
  function Received(raw: seq<Octets>): Octets {
    if raw == [] then "" else Unstuff(Stripped(raw[0]).text) + CRLF + Received(raw[1..])
  }

  lemma StrippedIsBodyLine(raw: Octets)
    ensures '\0' in raw <==> '\0' in Stripped(raw).text
    ensures Stripped(raw).text == "." <==> raw == "." || raw == ".\r"
  {
    var t := Stripped(raw).text;
    assert raw == t || raw == t + ['\r'];
    assert ".\r" == "." + ['\r'];
  }

  /**
   Exactly when an end of file is reported before any dot line: the connection closed, every full
   line can be read and none of them is the dot line, and the unfinished one is within the limit.
   What is handed on as the body is every full line and nothing of the unfinished one.
   */
  lemma {:induction false} EndOfFileIff(s: Octets, after: ReadError, prevCRLF: bool)
    ensures var b, ps := BodyOf(s, after, prevCRLF), Pieces(s);
            var full := ps[..|ps| - 1];
            && (b.BrokenOff? && b.error == Eof <==>
                && after == Eof
                && (forall l :: l in full ==> IsBodyLine(l))
                && |ps[|ps| - 1]| <= MAX_LINE_OCTETS)
            && (b.BrokenOff? && b.error == Eof ==> b.text == Received(full))
    decreases |s|
  {
    var i := IndexOf(s, '\n');
    IndexOfIsFirst(s, '\n');
    if i < 0 {
      PiecesUpTo(s, "");
    } else {
      var line, rest := s[..i], s[i + 1..];
      assert s == line + ['\n'] + rest;
      PiecesUpTo(line, rest);
      StrippedIsBodyLine(line);
      EndOfFileIff(rest, after, Stripped(line).crlf);
      var ps := Pieces(rest);
      assert ([line] + ps)[..|ps|] == [line] + ps[..|ps| - 1];
      EofOneMore(s, line, rest, after, prevCRLF);
      FullOneMore(line, ps[..|ps| - 1]);
    }
  }

  lemma FullOneMore(line: Octets, full: seq<Octets>)
    ensures (forall l :: l in [line] + full ==> IsBodyLine(l)) <==> IsBodyLine(line) && forall l :: l in full ==> IsBodyLine(l)
    ensures Received([line] + full) == Unstuff(Stripped(line).text) + CRLF + Received(full)
  {
    assert line in [line] + full;
    assert ([line] + full)[1..] == full;
  }

  lemma EofOneMore(s: Octets, line: Octets, rest: Octets, after: ReadError, prevCRLF: bool)
    requires s == line + ['\n'] + rest && '\n' !in line
    ensures var b, next := BodyOf(s, after, prevCRLF), BodyOf(rest, after, Stripped(line).crlf);
            if IsBodyLine(line) then b == After(Unstuff(Stripped(line).text) + CRLF, next)
            else !(b.BrokenOff? && b.error == Eof)
  {
    LineUpTo(s, line, rest, after, MAX_LINE_OCTETS);
    StrippedIsBodyLine(line);
  }

  /** The limit counts the stuffing dot, so the longest line SMTP allows is refused if it starts with one. */
  lemma LongDotLineIsRefused(line: Octets, tail: Octets)
    requires |line| == 998 && HasPrefix(line, ".") && Plain(line)
    ensures BodyOf(Sent([line], tail), Eof, true) == BrokenOff("", LineTooLong)
  {
    StuffedLine(line, Sent([], tail), Eof, true);
  }

  const END_OF_DATA: Octets := CRLF + "." + CRLF

  /**
   A stream counts as ended properly exactly when the octets up to its end are CRLF "." CRLF, or
   the dot line alone with nothing before it.
   */
  lemma {:induction false} SmuggledIffNotProperEnd(stream: Octets, after: ReadError, prevCRLF: bool)
    requires BodyOf(stream, after, prevCRLF).Ended?
    ensures var b := BodyOf(stream, after, prevCRLF);
            |b.rest| < |stream| && EndsAs(stream, stream[..|stream| - |b.rest|], b.rest, b.smuggled, prevCRLF)
    decreases |stream|
  {
    var (line, rest) := LineOf(stream, after, MAX_LINE_OCTETS).value;
    if line.text == "." {
      DotLineEnds(stream, line, rest, after, prevCRLF);
    } else {
      SmuggledIffNotProperEnd(rest, after, line.crlf);
      BodyLineEnds(stream, line, rest, after, prevCRLF, BodyOf(rest, after, line.crlf));
    }
  }

  lemma DotLineEnds(stream: Octets, line: Line, rest: Octets, after: ReadError, prevCRLF: bool)
    requires LineOf(stream, after, MAX_LINE_OCTETS) == Ok((line, rest)) && line.text == "."
    ensures EndsAs(stream, stream[..|stream| - |rest|], rest, !line.crlf || !prevCRLF, prevCRLF)
  {
    LineIsPlain(stream, after, MAX_LINE_OCTETS);
    assert stream[..|stream| - |rest|] == line.text + (if line.crlf then CRLF else "\n");
  }

  lemma RawLine(stream: Octets, line: Line, rest: Octets, after: ReadError)
    requires LineOf(stream, after, MAX_LINE_OCTETS) == Ok((line, rest))
    ensures var raw := line.text + (if line.crlf then CRLF else "\n");
            && stream == raw + rest && raw[|raw| - 1] == '\n'
            && (line.crlf <==> |raw| >= 2 && raw[|raw| - 2] == '\r')
  {
    LineIsPlain(stream, after, MAX_LINE_OCTETS);
    assert !line.crlf && line.text != "" ==> line.text[|line.text| - 1] != '\r';
  }

  lemma BodyLineEnds(stream: Octets, line: Line, rest: Octets, after: ReadError, prevCRLF: bool, b: Body)
    requires LineOf(stream, after, MAX_LINE_OCTETS) == Ok((line, rest)) && b.Ended? && |b.rest| < |rest|
    requires EndsAs(rest, rest[..|rest| - |b.rest|], b.rest, b.smuggled, line.crlf)
    ensures EndsAs(stream, stream[..|stream| - |b.rest|], b.rest, b.smuggled, prevCRLF)
  {
    RawLine(stream, line, rest, after);
    var raw := line.text + (if line.crlf then CRLF else "\n");
    OneLineMore(stream, raw, rest, rest[..|rest| - |b.rest|], b.rest, b.smuggled, line.crlf, prevCRLF);
  }

  /** used is what was read up to the end of the data. */
  ghost predicate EndsAs(stream: Octets, used: Octets, rest: Octets, smuggled: bool, prevCRLF: bool) {
    && stream == used + rest
    && used != "" && used[|used| - 1] == '\n'
    && (!smuggled <==> (used == "." + CRLF && prevCRLF) || HasSuffix(used, END_OF_DATA))
  }

  lemma OneLineMore(stream: Octets, raw: Octets, more: Octets, used: Octets, rest: Octets, smuggled: bool,
                    crlf: bool, prevCRLF: bool)
    requires stream == raw + more && raw != "" && raw[|raw| - 1] == '\n'
    requires crlf <==> |raw| >= 2 && raw[|raw| - 2] == '\r'
    requires EndsAs(more, used, rest, smuggled, crlf)
    ensures EndsAs(stream, stream[..|stream| - |rest|], rest, smuggled, prevCRLF)
  {
    assert stream == (raw + used) + rest;
    assert stream[..|stream| - |rest|] == raw + used;
    ProperEndAcrossLines(raw, used, crlf);
  }

  /** Where the two octets before a dot line come from the line before it. */
  lemma ProperEndAcrossLines(raw: Octets, used: Octets, crlf: bool)
    requires raw != "" && raw[|raw| - 1] == '\n' && (crlf <==> |raw| >= 2 && raw[|raw| - 2] == '\r')
    requires used != "" && used[|used| - 1] == '\n'
    ensures raw + used != "." + CRLF
    ensures HasSuffix(raw + used, END_OF_DATA) <==> (used == "." + CRLF && crlf) || HasSuffix(used, END_OF_DATA)
  {
    var s, n := raw + used, |raw + used|;
    assert s[|raw| - 1] == '\n' && s[n - 1] == '\n';
    if |used| >= 5 {
      assert s[n - 5..] == used[|used| - 5..];
    } else if n >= 5 {
      var e := s[n - 5..];
      assert e == [e[0], e[1], e[2], e[3], e[4]];
      assert e[|raw| - 1 - (n - 5)] == '\n';
      if |used| == 3 {
        assert used == [e[2], e[3], e[4]] && e[1] == '\n' && e[0] == raw[|raw| - 2];
      }
    }
  }

  /** dotReader: yields the body piece by piece, whatever the size of the caller's buffer. */
  class DotReader {
    const br: Reader
    var rest: Octets
    var done: bool
    var prevCRLF: bool
    var smuggled: bool

    ghost const fate: Body        // what the stream holds
    ghost var given: Octets       // what has been read of its body

    ghost predicate Valid()
      reads this, br
    {
      && 0 < br.size
      && (!done ==> !smuggled && fate == After(given + rest, BodyOf(br.rest, br.after, prevCRLF)))
      && (done ==> rest == "" && fate.text == given)
      && (done && fate.Ended? ==> br.rest == fate.rest && smuggled == fate.smuggled)
      && (done && fate.BrokenOff? ==> !smuggled && (OfTheStream(fate.error) ==> br.rest == ""))
    }

    constructor (br: Reader)
      requires 0 < br.size
      ensures Valid() && this.br == br && given == "" && !done
      ensures fate == BodyOf(br.rest, br.after, true)
    {
      this.br := br;
      rest, done, prevCRLF, smuggled := "", false, true, false;
      fate := BodyOf(br.rest, br.after, true);
      given := "";
      new;
      assert After("" + "", BodyOf(br.rest, br.after, true)) == BodyOf(br.rest, br.after, true);
    }

    /** Read: some octets of the body, or why there are none. */
    method Read(n: nat) returns (p: Octets, err: Option<ReadError>)
      requires Valid()
      modifies this, br
      ensures Valid() && given == old(given) + p && |p| <= n
      ensures err.None? ==> !done && (0 < n ==> p != "")
      ensures err.Some? ==> p == "" && done && given == fate.text
      ensures err.Some? ==> err.value == if old(done) || fate.Ended? then Eof else fate.error
      ensures err.Some? && fate.Ended? ==> br.rest == fate.rest
      ensures err.Some? && fate.BrokenOff? && OfTheStream(fate.error) ==> br.rest == ""
    {
      while rest == ""
        invariant Valid() && done == old(done) && given == old(given)
        decreases rest == ""
      {
        if done {
          return "", Some(Eof);
        }
        err := Fill();
        if err.Some? {
          return "", err;
        }
      }
      p := Take(n);
      err := None;
    }

    /** The next line of the body, or the end of it. */
    method Fill() returns (err: Option<ReadError>)
      requires Valid() && !done && rest == ""
      modifies this`rest, this`done, this`prevCRLF, this`smuggled, br
      ensures Valid()
      ensures err.None? ==> !done && rest != ""
      ensures err.Some? ==> done && err.value == if fate.Ended? then Eof else fate.error
    {
      assert given + rest == given;
      var r := ReadLineLimited(br, MAX_LINE_OCTETS);
      if r.Err? {
        done := true;
        assert given + "" == given;
        return Some(r.error);
      }
      var line := r.value;
      if line.text == "." {
        done := true;
        smuggled := !line.crlf || !prevCRLF;
        assert given + "" == given;
        return Some(Eof);
      }
      prevCRLF := line.crlf;
      // Undo the stuffing: exactly one leading dot.
      rest := Unstuff(line.text) + CRLF;
      Regroup(given, rest, BodyOf(br.rest, br.after, prevCRLF).text);
      err := None;
    }

    method Take(n: nat) returns (p: Octets)
      requires Valid() && rest != ""
      modifies this`rest, this`given
      ensures Valid() && given == old(given) + p && |p| == Min(n, |old(rest)|) && !done
    {
      var k := Min(n, |rest|);
      p := rest[..k];
      assert given + rest == (given + p) + rest[k..];
      rest, given := rest[k..], given + p;
    }
  }

  lemma Regroup(a: Octets, b: Octets, c: Octets)
    ensures a + (b + c) == (a + b) + c
  {
  }

  /** Reading to the end gives the whole body, whatever the sizes of the reads. */
  method ReadToEnd(d: DotReader) returns (text: Octets, err: ReadError)
    requires d.Valid() && d.given == "" && !d.done
    modifies d, d.br
    ensures d.Valid() && d.done && text == d.fate.text
    ensures err == if d.fate.Ended? then Eof else d.fate.error
    ensures d.fate.Ended? ==> d.br.rest == d.fate.rest && d.smuggled == d.fate.smuggled
    ensures d.fate.BrokenOff? && OfTheStream(d.fate.error) ==> d.br.rest == ""
  {
    text := "";
    while true
      invariant d.Valid() && text == d.given && !d.done
      decreases |d.fate.text| - |d.given|
    {
      var n: int := *;
      var p, e := d.Read(if n < 1 then 1 else n);
      text := text + p;
      if e.Some? {
        return text, e.value;
      }
    }
  }
}
