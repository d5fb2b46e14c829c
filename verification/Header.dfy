/**
 Header blocks: parsing into fields that keep their verbatim lines, structural edits, and
 printing. Printing undoes parsing byte for byte and parsing undoes printing.
 */
module Header {
  import opened Types
  import opened Text

  // One field, kept as its lines; the name is lower case and empty for a line that is no field.
  datatype Field = Field(name: string, lines: seq<Octets>)

  // A parsed block, and whether an empty line ended it.
  datatype Parsed = Parsed(fields: seq<Field>, blank: bool)

  predicate Continues(line: Octets) {
    line != "" && (line[0] == ' ' || line[0] == '\t')
  }

  function NameOf(line: Octets): string {
    var c := IndexOf(line, ':');
    if Continues(line) || c <= 0 then "" else Lower(TrimSpace(line[..c]))
  }

  /** A folded line goes to the field before it, if there is one; any other starts a field. */
  function AddLine(fields: seq<Field>, line: Octets): seq<Field> {
    if Continues(line) && fields != [] then
      var n := |fields| - 1;
      fields[..n] + [Field(fields[n].name, fields[n].lines + [line])]
    else fields + [Field(NameOf(line), [line])]
  }

  function AddLines(fields: seq<Field>, lines: seq<Octets>): seq<Field>
    decreases |lines|
  {
    if lines == [] then fields else AddLines(AddLine(fields, lines[0]), lines[1..])
  }

  /** The next line of a block, without its terminator, and what follows it. */
  function CutLine(rest: Octets): (r: (Octets, Octets))
    requires rest != ""
    ensures |r.1| < |rest| && !HasCrlf(r.0)
  {
    var i := IndexOfCrlf(rest);
    if i < 0 then (rest, "") else (rest[..i], rest[i + 2..])
  }

  /** Parsing goes on after these fields; None is data after the end of the block. */
  function ParseFrom(fields: seq<Field>, rest: Octets): Option<Parsed>
    decreases |rest|
  {
    if rest == "" then Some(Parsed(fields, false))
    else
      var (line, more) := CutLine(rest);
      if line == "" then (if more != "" then None else Some(Parsed(fields, true)))
      else ParseFrom(AddLine(fields, line), more)
  }

  function Parse(s: Octets): Option<Parsed> {
    ParseFrom([], s)
  }

  /** Lines as they stand on the wire. */
  function Join(lines: seq<Octets>): Octets {
    if lines == [] then "" else lines[0] + CRLF + Join(lines[1..])
  }

  function LinesOf(fields: seq<Field>): seq<Octets> {
    if fields == [] then [] else LinesOf(fields[..|fields| - 1]) + fields[|fields| - 1].lines
  }

  function Print(p: Parsed): Octets {
    Join(LinesOf(p.fields)) + (if p.blank then CRLF else "")
  }

  lemma {:induction false} JoinBoth(a: seq<Octets>, b: seq<Octets>)
    ensures Join(a + b) == Join(a) + Join(b)
  {
    if a == [] {
      assert a + b == b;
    } else {
      assert (a + b)[1..] == a[1..] + b;
      JoinBoth(a[1..], b);
    }
  }

  lemma JoinOne(lines: seq<Octets>, line: Octets)
    ensures Join(lines + [line]) == Join(lines) + line + CRLF
  {
    JoinBoth(lines, [line]);
    assert Join([line]) == line + CRLF + Join([]);
  }

  lemma LinesOfAddLine(fields: seq<Field>, line: Octets)
    ensures LinesOf(AddLine(fields, line)) == LinesOf(fields) + [line]
  {
    var n := |fields| - 1;
    if Continues(line) && fields != [] {
      assert AddLine(fields, line)[..n] == fields[..n];
    } else {
      assert AddLine(fields, line)[..|fields|] == fields;
    }
  }

  /** What printing makes of a text: an unfinished last line is finished. */
  function Terminated(s: Octets): Octets {
    if s == "" || HasSuffix(s, CRLF) then s else s + CRLF
  }

  lemma SuffixCrlf(s: Octets)
    ensures HasSuffix(s, CRLF) <==> |s| >= 2 && s[|s| - 2] == '\r' && s[|s| - 1] == '\n'
    ensures HasSuffix(s, CRLF) ==> HasCrlf(s)
  {
    if |s| >= 2 {
      assert s[|s| - 2..] == [s[|s| - 2], s[|s| - 1]];
    }
  }

  lemma SuffixPastCrlf(line: Octets, more: Octets)
    ensures HasSuffix(line + CRLF + more, CRLF) <==> more == "" || HasSuffix(more, CRLF)
  {
    var rest := line + CRLF + more;
    SuffixCrlf(rest);
    SuffixCrlf(more);
    assert |more| == 1 ==> rest[|rest| - 2] == '\n';
  }

  lemma TerminatedCut(rest: Octets)
    requires rest != ""
    ensures CutLine(rest).0 + CRLF + Terminated(CutLine(rest).1) == Terminated(rest)
  {
    var (line, more) := CutLine(rest);
    if IndexOfCrlf(rest) >= 0 {
      assert rest == line + CRLF + more;
      SuffixPastCrlf(line, more);
    } else {
      SuffixCrlf(rest);
    }
  }

  /** Moving one line from the text to the fields leaves what is printed as it was. */
  lemma OneLinePrinted(fields: seq<Field>, line: Octets, more: Octets, rest: Octets)
    requires line + CRLF + Terminated(more) == Terminated(rest)
    ensures Join(LinesOf(AddLine(fields, line))) + Terminated(more) == Join(LinesOf(fields)) + Terminated(rest)
  {
    LinesOfAddLine(fields, line);
    JoinOne(LinesOf(fields), line);
    Moved(Join(LinesOf(fields)), line, CRLF, Terminated(more));
  }

  lemma Moved(a: Octets, b: Octets, c: Octets, d: Octets)
    ensures a + b + c + d == a + (b + c + d)
  {
  }

  lemma {:induction false} PrintParseFrom(fields: seq<Field>, rest: Octets)
    requires ParseFrom(fields, rest).Some?
    ensures Print(ParseFrom(fields, rest).value) == Join(LinesOf(fields)) + Terminated(rest)
    decreases |rest|
  {
    if rest != "" {
      TerminatedCut(rest);
      var (line, more) := CutLine(rest);
      if line != "" {
        PrintParseFrom(AddLine(fields, line), more);
        OneLinePrinted(fields, line, more, rest);
      }
    }
  }

  /** An untouched block prints byte for byte as it was read, exactly when its last line was finished. */
  lemma PrintParse(s: Octets)
    requires Parse(s).Some?
    ensures Print(Parse(s).value) == Terminated(s)
    ensures Print(Parse(s).value) == s <==> s == "" || HasSuffix(s, CRLF)
  {
    PrintParseFrom([], s);
    assert Join(LinesOf([])) + Terminated(s) == Terminated(s);
    assert |s + CRLF| == |s| + 2;
  }

  predicate LineOk(line: Octets) {
    line != "" && !HasCrlf(line)
  }

  lemma CrlfFurtherOn(s: Octets)
    requires s != ""
    ensures HasCrlf(s[1..]) ==> HasCrlf(s)
  {
    if HasCrlf(s[1..]) {
      var i :| 0 <= i < |s| - 2 && s[1..][i] == '\r' && s[1..][i + 1] == '\n';
      assert s[i + 1] == '\r' && s[i + 2] == '\n';
    }
  }

  lemma {:induction false} FirstCrlf(line: Octets, tail: Octets)
    requires !HasCrlf(line)
    ensures IndexOfCrlf(line + CRLF + tail) == |line|
    ensures CutLine(line + CRLF + tail) == (line, tail)
  {
    var s := line + CRLF + tail;
    if line != "" {
      CrlfFurtherOn(line);
      assert s[1..] == line[1..] + CRLF + tail;
      FirstCrlf(line[1..], tail);
      assert s[0] == line[0] && s[1] == if |line| > 1 then line[1] else '\r';
    }
    assert s[..|line|] == line && s[|line| + 2..] == tail;
  }

  lemma {:induction false} ParseJoined(fields: seq<Field>, lines: seq<Octets>, tail: Octets)
    requires forall l :: l in lines ==> LineOk(l)
    ensures ParseFrom(fields, Join(lines) + tail) == ParseFrom(AddLines(fields, lines), tail)
    decreases |lines|
  {
    if lines == [] {
      assert Join(lines) + tail == tail;
    } else {
      var line, after := lines[0], Join(lines[1..]) + tail;
      assert Join(lines) + tail == line + CRLF + after;
      assert line in lines;
      FirstCrlf(line, after);
      ParseJoined(AddLine(fields, line), lines[1..], tail);
    }
  }

  /** The shape every parsed block has: lines belong to the field that starts before them. */
  ghost predicate FieldOk(f: Field, first: bool) {
    && f.lines != [] && f.name == NameOf(f.lines[0])
    && (Continues(f.lines[0]) ==> first)
    && (forall k :: 0 < k < |f.lines| ==> Continues(f.lines[k]))
    && (forall l :: l in f.lines ==> LineOk(l))
  }

  ghost predicate WellFormed(fields: seq<Field>) {
    fields == [] || (WellFormed(fields[..|fields| - 1]) && FieldOk(fields[|fields| - 1], |fields| == 1))
  }

  lemma {:induction false} ParsedIsWellFormed(fields: seq<Field>, rest: Octets)
    requires WellFormed(fields) && ParseFrom(fields, rest).Some?
    ensures WellFormed(ParseFrom(fields, rest).value.fields)
    decreases |rest|
  {
    if rest != "" {
      var (line, more) := CutLine(rest);
      if line != "" {
        AddLineKeepsShape(fields, line);
        ParsedIsWellFormed(AddLine(fields, line), more);
      }
    }
  }

  lemma AddLineKeepsShape(fields: seq<Field>, line: Octets)
    requires WellFormed(fields) && LineOk(line)
    ensures WellFormed(AddLine(fields, line))
  {
    if Continues(line) && fields != [] {
      var n := |fields| - 1;
      FoldedFieldOk(fields[n], n == 0, line);
      WellFormedAppend(fields[..n], Field(fields[n].name, fields[n].lines + [line]));
    } else {
      WellFormedAppend(fields, Field(NameOf(line), [line]));
    }
  }

  lemma FoldedFieldOk(f: Field, first: bool, line: Octets)
    requires FieldOk(f, first) && LineOk(line) && Continues(line)
    ensures FieldOk(Field(f.name, f.lines + [line]), first)
  {
  }

  lemma {:induction false} AddLinesBoth(fields: seq<Field>, a: seq<Octets>, b: seq<Octets>)
    ensures AddLines(fields, a + b) == AddLines(AddLines(fields, a), b)
    decreases |a|
  {
    if a == [] {
      assert a + b == b;
    } else {
      assert (a + b)[1..] == a[1..] + b;
      AddLinesBoth(AddLine(fields, a[0]), a[1..], b);
    }
  }

  lemma {:induction false} AddFolded(fields: seq<Field>, f: Field, lines: seq<Octets>)
    requires forall k :: 0 <= k < |lines| ==> Continues(lines[k])
    ensures AddLines(fields + [f], lines) == fields + [Field(f.name, f.lines + lines)]
    decreases |lines|
  {
    if lines == [] {
      assert f.lines + lines == f.lines;
    } else {
      var g := Field(f.name, f.lines + [lines[0]]);
      assert AddLine(fields + [f], lines[0]) == fields + [g];
      AddFolded(fields, g, lines[1..]);
      assert g.lines + lines[1..] == f.lines + lines;
    }
  }

  lemma {:induction false} AddLinesOf(fields: seq<Field>)
    requires WellFormed(fields)
    ensures AddLines([], LinesOf(fields)) == fields
  {
    if fields != [] {
      AddLinesOf(fields[..|fields| - 1]);
      AddLinesOfStep(fields);
    }
  }

  lemma AddLinesOfStep(fields: seq<Field>)
    requires fields != [] && WellFormed(fields)
    requires AddLines([], LinesOf(fields[..|fields| - 1])) == fields[..|fields| - 1]
    ensures AddLines([], LinesOf(fields)) == fields
  {
    SplitLast(fields);
    AddLinesOfOne(fields[..|fields| - 1], fields[|fields| - 1]);
  }

  lemma SplitLast(fields: seq<Field>)
    requires fields != []
    ensures fields[..|fields| - 1] + [fields[|fields| - 1]] == fields
  {
  }

  lemma AddLinesOfOne(before: seq<Field>, f: Field)
    requires AddLines([], LinesOf(before)) == before && FieldOk(f, before == [])
    ensures AddLines([], LinesOf(before + [f])) == before + [f]
  {
    assert (before + [f])[..|before|] == before;
    AddLinesBoth([], LinesOf(before), f.lines);
    AddField(before, f);
  }

  lemma AddField(before: seq<Field>, f: Field)
    requires FieldOk(f, before == [])
    ensures AddLines(before, f.lines) == before + [f]
  {
    var start := Field(f.name, [f.lines[0]]);
    assert AddLine(before, f.lines[0]) == before + [start];
    AddFolded(before, start, f.lines[1..]);
    assert start.lines + f.lines[1..] == f.lines;
  }

  lemma {:induction false} LinesOfAreOk(fields: seq<Field>)
    requires WellFormed(fields)
    ensures forall l :: l in LinesOf(fields) ==> LineOk(l)
  {
    if fields != [] {
      LinesOfAreOk(fields[..|fields| - 1]);
      assert FieldOk(fields[|fields| - 1], |fields| == 1);
    }
  }

  /** Parsing what was printed gives the same fields again. */
  lemma ParsePrint(p: Parsed)
    requires WellFormed(p.fields)
    ensures Parse(Print(p)) == Some(p)
  {
    var tail := if p.blank then CRLF else "";
    LinesOfAreOk(p.fields);
    ParseJoined([], LinesOf(p.fields), tail);
    AddLinesOf(p.fields);
    if p.blank {
      assert CRLF == "" + CRLF + "";
      FirstCrlf("", "");
    }
  }

  /** How many fields carry this name. */
  function CountOf(fields: seq<Field>, name: string): nat {
    if fields == [] then 0
    else CountOf(fields[..|fields| - 1], name) + (if fields[|fields| - 1].name == name then 1 else 0)
  }

  function Has(fields: seq<Field>, name: string): bool {
    CountOf(fields, name) > 0
  }

  /** The fields of any other name, in order. */
  function Without(fields: seq<Field>, name: string): seq<Field> {
    if fields == [] then []
    else Without(fields[..|fields| - 1], name)
         + (if fields[|fields| - 1].name == name then [] else [fields[|fields| - 1]])
  }

  /** The first field of this name replaced and the others dropped. */
  function Replaced(fields: seq<Field>, name: string, f: Field): seq<Field> {
    if fields == [] then []
    else
      var n := |fields| - 1;
      Replaced(fields[..n], name, f)
      + (if fields[n].name != name then [fields[n]] else if Has(fields[..n], name) then [] else [f])
  }

  /** One field of this name: in the first one's place, or at the end. */
  function SetField(fields: seq<Field>, name: string, line: Octets): seq<Field> {
    var f := Field(name, [line]);
    Replaced(fields, name, f) + (if Has(fields, name) then [] else [f])
  }

  /** set: the field's name is the lower-cased one, its one line carries it as given. */
  function SetNamed(fields: seq<Field>, name: string, value: Octets): seq<Field> {
    SetField(fields, Lower(name), name + ": " + value)
  }

  /** The lines' text after the colon, joined by single blanks. */
  function Folded(lines: seq<Octets>): Octets
    requires lines != []
  {
    var n := |lines| - 1;
    if n == 0 then TrimSpace(lines[0][IndexOf(lines[0], ':') + 1..])
    else Folded(lines[..n]) + " " + TrimSpace(lines[n])
  }

  function Unfold(lines: seq<Octets>): Octets {
    if lines == [] || IndexOf(lines[0], ':') < 0 then "" else TrimSpace(Folded(lines))
  }

  /** The unfolded value of the first field of this name, or nothing. */
  function ValueOf(fields: seq<Field>, name: string): Octets {
    if fields == [] then ""
    else
      var n := |fields| - 1;
      if fields[n].name == name && !Has(fields[..n], name) then Unfold(fields[n].lines)
      else ValueOf(fields[..n], name)
  }

  lemma {:induction false} CountWithout(fields: seq<Field>, name: string, other: string)
    ensures CountOf(Without(fields, name), other) == if other == name then 0 else CountOf(fields, other)
  {
    if fields != [] {
      CountWithout(fields[..|fields| - 1], name, other);
      var kept := Without(fields[..|fields| - 1], name);
      assert (kept + [fields[|fields| - 1]])[..|kept|] == kept;
      assert kept + [] == kept;
    }
  }

  lemma WithoutAppend(fields: seq<Field>, f: Field, name: string)
    ensures Without(fields + [f], name) == Without(fields, name) + (if f.name == name then [] else [f])
    ensures CountOf(fields + [f], name) == CountOf(fields, name) + (if f.name == name then 1 else 0)
    ensures ValueOf(fields + [f], name) == if f.name == name && !Has(fields, name) then Unfold(f.lines) else ValueOf(fields, name)
  {
    assert (fields + [f])[..|fields|] == fields;
  }

  lemma {:induction false} ReplacedFacts(fields: seq<Field>, name: string, f: Field)
    requires f.name == name
    ensures Without(Replaced(fields, name, f), name) == Without(fields, name)
    ensures CountOf(Replaced(fields, name, f), name) == if Has(fields, name) then 1 else 0
    ensures Has(fields, name) ==> ValueOf(Replaced(fields, name, f), name) == Unfold(f.lines)
  {
    if fields != [] {
      var n := |fields| - 1;
      var before := Replaced(fields[..n], name, f);
      ReplacedFacts(fields[..n], name, f);
      WithoutAppend(before, f, name);
      WithoutAppend(before, fields[n], name);
      assert before + [] == before;
    }
  }

  /**
   After a set there is exactly one field of that name and it says what was set; every field of
   another name is where it was, byte for byte.
   */
  lemma SetIsExact(fields: seq<Field>, name: string, line: Octets)
    ensures CountOf(SetField(fields, name, line), name) == 1
    ensures ValueOf(SetField(fields, name, line), name) == Unfold([line])
    ensures Without(SetField(fields, name, line), name) == Without(fields, name)
  {
    var f := Field(name, [line]);
    var before := Replaced(fields, name, f);
    ReplacedFacts(fields, name, f);
    WithoutAppend(before, f, name);
    assert before + [] == before;
    assert Without(before, name) + [] == Without(before, name);
  }

  /** A replaced field keeps the place of the first one of its name. */
  lemma SetKeepsPlace(a: seq<Field>, g: Field, b: seq<Field>, name: string, line: Octets)
    requires !Has(a, name) && g.name == name
    ensures SetField(a + [g] + b, name, line) == a + [Field(name, [line])] + Without(b, name)
  {
    ReplacedKeepsPlace(a, g, b, name, Field(name, [line]));
  }

  lemma {:induction false} ReplacedKeepsPlace(a: seq<Field>, g: Field, b: seq<Field>, name: string, f: Field)
    requires !Has(a, name) && g.name == name
    ensures Replaced(a + [g] + b, name, f) == a + [f] + Without(b, name) && Has(a + [g] + b, name)
    decreases |b|
  {
    if b == [] {
      assert a + [g] + b == a + [g] && (a + [g])[..|a|] == a;
      NothingToReplace(a, name, f);
    } else {
      var n := |b| - 1;
      var all, before := a + [g] + b, a + [g] + b[..n];
      assert all == before + [b[n]] && all[..|all| - 1] == before;
      ReplacedKeepsPlace(a, g, b[..n], name, f);
    }
  }

  lemma {:induction false} NothingToReplace(a: seq<Field>, name: string, f: Field)
    requires !Has(a, name)
    ensures Replaced(a, name, f) == a && Without(a, name) == a
  {
    if a != [] {
      NothingToReplace(a[..|a| - 1], name, f);
      assert a == a[..|a| - 1] + [a[|a| - 1]];
    }
  }

  /** The fields of none of these names, in order. */
  function Except(fields: seq<Field>, names: set<string>): seq<Field> {
    if fields == [] then []
    else Except(fields[..|fields| - 1], names)
         + (if fields[|fields| - 1].name in names then [] else [fields[|fields| - 1]])
  }

  /** The fields of one name, in order. */
  function Named(fields: seq<Field>, name: string): seq<Field> {
    if fields == [] then []
    else Named(fields[..|fields| - 1], name)
         + (if fields[|fields| - 1].name == name then [fields[|fields| - 1]] else [])
  }

  /** Leaving out one name makes no difference to what is said about others. */
  lemma {:induction false} WithoutKeepsOthers(fields: seq<Field>, name: string, other: string, names: set<string>)
    requires other != name && name in names
    ensures Except(Without(fields, name), names) == Except(fields, names)
    ensures Named(Without(fields, name), other) == Named(fields, other)
    ensures ValueOf(Without(fields, name), other) == ValueOf(fields, other)
  {
    if fields != [] {
      var f, kept := fields[|fields| - 1], Without(fields[..|fields| - 1], name);
      WithoutKeepsOthers(fields[..|fields| - 1], name, other, names);
      CountWithout(fields[..|fields| - 1], name, other);
      assert (kept + [f])[..|kept|] == kept && kept + [] == kept;
    }
  }

  lemma {:induction false} CountExcept(fields: seq<Field>, names: set<string>, name: string)
    requires name !in names
    ensures CountOf(Except(fields, names), name) == CountOf(fields, name)
  {
    if fields != [] {
      var f, kept := fields[|fields| - 1], Except(fields[..|fields| - 1], names);
      CountExcept(fields[..|fields| - 1], names, name);
      assert (kept + [f])[..|kept|] == kept && kept + [] == kept;
    }
  }

  /** So a set changes nothing about any other name. */
  lemma SetKeepsOthers(fields: seq<Field>, name: string, line: Octets, other: string, names: set<string>)
    requires other != name && name in names
    ensures Except(SetField(fields, name, line), names) == Except(fields, names)
    ensures Named(SetField(fields, name, line), other) == Named(fields, other)
    ensures ValueOf(SetField(fields, name, line), other) == ValueOf(fields, other)
    ensures CountOf(SetField(fields, name, line), other) == CountOf(fields, other)
  {
    SetIsExact(fields, name, line);
    WithoutKeepsOthers(fields, name, other, names);
    WithoutKeepsOthers(SetField(fields, name, line), name, other, names);
    CountWithout(fields, name, other);
    CountWithout(SetField(fields, name, line), name, other);
  }

  /** Editing by name leaves a block that prints and parses back to itself. */
  lemma {:induction false} EditsKeepShape(fields: seq<Field>, name: string, line: Octets)
    requires WellFormed(fields) && name != "" && NameOf(line) == name && LineOk(line)
    ensures WellFormed(SetField(fields, name, line)) && WellFormed(Without(fields, name))
  {
    var f := Field(name, [line]);
    ReplacedIsWellFormed(fields, name, f);
    WithoutIsWellFormed(fields, name);
    if !Has(fields, name) {
      WellFormedAppend(Replaced(fields, name, f), f);
    } else {
      assert Replaced(fields, name, f) + [] == Replaced(fields, name, f);
    }
  }

  lemma WellFormedAppend(fields: seq<Field>, f: Field)
    requires WellFormed(fields) && FieldOk(f, fields == [])
    ensures WellFormed(fields + [f])
  {
    assert (fields + [f])[..|fields|] == fields;
  }

  lemma {:induction false} ReplacedIsWellFormed(fields: seq<Field>, name: string, f: Field)
    requires WellFormed(fields) && name != "" && f.name == name && FieldOk(f, false)
    ensures WellFormed(Replaced(fields, name, f))
    ensures fields != [] ==> Replaced(fields, name, f) != []
  {
    if fields != [] {
      var n := |fields| - 1;
      var before := Replaced(fields[..n], name, f);
      ReplacedIsWellFormed(fields[..n], name, f);
      if fields[n].name != name {
        WellFormedAppend(before, fields[n]);
      } else if !Has(fields[..n], name) {
        WellFormedAppend(before, f);
      } else {
        assert before + [] == before;
      }
    }
  }

  lemma {:induction false} WithoutIsWellFormed(fields: seq<Field>, name: string)
    requires WellFormed(fields) && name != ""
    ensures WellFormed(Without(fields, name))
    ensures fields != [] && Without(fields, name) == [] ==> fields[0].name == name
  {
    if fields != [] {
      var n := |fields| - 1;
      var before := Without(fields[..n], name);
      WithoutIsWellFormed(fields[..n], name);
      if fields[n].name != name {
        WellFormedAppend(before, fields[n]);
      } else {
        assert before + [] == before;
      }
    }
  }

  class Block {
    var fields: seq<Field>
    var blank: bool

    constructor ()
      ensures fields == [] && !blank
    {
      fields, blank := [], false;
    }

    ghost function Now(): Parsed
      reads this
    {
      Parsed(fields, blank)
    }

    /** set: replace in place, so that a duplicate cannot survive and be read instead. */
    method Set(name: string, value: Octets)
      modifies this
      ensures blank == old(blank) && fields == SetNamed(old(fields), name, value)
    {
      var lower, line := Lower(name), name + ": " + value;
      var replaced := false;
      var out: seq<Field> := [];
      for i := 0 to |fields|
        invariant fields == old(fields) && blank == old(blank)
        invariant out == Replaced(fields[..i], lower, Field(lower, [line]))
        invariant replaced == Has(fields[..i], lower)
      {
        assert fields[..i + 1][..i] == fields[..i];
        if fields[i].name == lower {
          if replaced {
            continue;
          }
          replaced := true;
          out := out + [Field(lower, [line])];
          continue;
        }
        out := out + [fields[i]];
      }
      assert fields[..|fields|] == fields;
      fields := out;
      if !replaced {
        fields := fields + [Field(lower, [line])];
      }
    }

    method Remove(name: string)
      modifies this
      ensures blank == old(blank) && fields == Without(old(fields), name)
    {
      var out: seq<Field> := [];
      for i := 0 to |fields|
        invariant fields == old(fields) && blank == old(blank)
        invariant out == Without(fields[..i], name)
      {
        assert fields[..i + 1][..i] == fields[..i];
        if fields[i].name == name {
          continue;
        }
        out := out + [fields[i]];
      }
      assert fields[..|fields|] == fields;
      fields := out;
    }

    method Count(name: string) returns (n: nat)
      ensures n == CountOf(fields, name)
    {
      n := 0;
      for i := 0 to |fields|
        invariant n == CountOf(fields[..i], name)
      {
        assert fields[..i + 1][..i] == fields[..i];
        if fields[i].name == name {
          n := n + 1;
        }
      }
      assert fields[..|fields|] == fields;
    }

    method Value(name: string) returns (v: Octets)
      ensures v == ValueOf(fields, name)
    {
      for i := 0 to |fields|
        invariant !Has(fields[..i], name) && ValueOf(fields[..i], name) == ""
      {
        assert fields[..i + 1][..i] == fields[..i];
        if fields[i].name == name {
          FirstOfName(fields, name, i);
          return Unfold(fields[i].lines);
        }
      }
      assert fields[..|fields|] == fields;
      v := "";
    }

    method ToText() returns (s: Octets)
      ensures s == Print(Now())
    {
      s := "";
      for i := 0 to |fields|
        invariant s == Join(LinesOf(fields[..i]))
      {
        assert fields[..i + 1][..i] == fields[..i];
        var lines := fields[i].lines;
        assert LinesOf(fields[..i]) + lines[..0] == LinesOf(fields[..i]);
        for k := 0 to |lines|
          invariant s == Join(LinesOf(fields[..i]) + lines[..k])
        {
          JoinOne(LinesOf(fields[..i]) + lines[..k], lines[k]);
          assert LinesOf(fields[..i]) + lines[..k + 1] == LinesOf(fields[..i]) + lines[..k] + [lines[k]];
          s := s + lines[k] + CRLF;
        }
        assert lines[..|lines|] == lines;
      }
      assert fields[..|fields|] == fields;
      if blank {
        s := s + CRLF;
      }
    }
  }

  lemma {:induction false} FirstOfName(fields: seq<Field>, name: string, i: nat)
    requires i < |fields| && fields[i].name == name && !Has(fields[..i], name)
    ensures Has(fields, name) && ValueOf(fields, name) == Unfold(fields[i].lines)
    decreases |fields|
  {
    var n := |fields| - 1;
    if i < n {
      assert fields[..n][..i] == fields[..i];
      FirstOfName(fields[..n], name, i);
    }
  }

  /** parseBlock: consume the text line by line. */
  method ParseBlock(s: Octets) returns (b: Block, ok: bool)
    ensures fresh(b)
    ensures ok <==> Parse(s).Some?
    ensures ok ==> b.Now() == Parse(s).value
  {
    b := new Block();
    var rest := s;
    while rest != ""
      invariant fresh(b) && !b.blank
      invariant ParseFrom(b.fields, rest) == Parse(s)
      decreases |rest|
    {
      var (line, more) := CutLine(rest);
      rest := more;
      if line == "" {
        b.blank := true;
        if rest != "" {
          return b, false;
        }
        return b, true;
      }
      b.fields := AddLine(b.fields, line);
    }
    ok := true;
  }
}
