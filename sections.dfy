/** `PDFBuilder.parseContractSections` (services/PDFBuilder.ts:89-107): the
    line-by-line state machine that splits sanitized contract text into a
    title-to-body dictionary. */
module Sections {
  import opened Types
  import opened Strings
  import opened JsObject
  import opened Sanitizer

  /** The section name in force before the first heading. */
  const Preamble: string := "Preamble"

  /** `line.toUpperCase() === line && line.endsWith(':')`. */
  predicate IsHeading(line: string)
  {
    ToUpperCase(line) == line && EndsWith(line, ":")
  }

  /** `line.replace(/:$/, '')`: the heading without its final colon. */
  function HeadingTitle(line: string): string
    requires EndsWith(line, ":")
  {
    line[..|line| - 1]
  }

  /** A line is a heading exactly when it has no lower-case letter and ends in a
      colon; its title and the colon give the line back. */
  lemma HeadingIff(line: string)
    ensures IsHeading(line) <==> (forall i :: 0 <= i < |line| ==> !IsLowerLetter(line[i])) && EndsWith(line, ":")
    ensures EndsWith(line, ":") ==> HeadingTitle(line) + ":" == line
  {
    UpperUnchangedIff(line);
  }

  lemma UpperConcat(a: string, b: string)
    ensures ToUpperCase(a + b) == ToUpperCase(a) + ToUpperCase(b)
  {
  }

  /** A title that upper-casing leaves alone, followed by a colon, is a heading
      whose title is that text. */
  lemma TitleHeading(title: string)
    requires ToUpperCase(title) == title
    ensures IsHeading(title + ":") && HeadingTitle(title + ":") == title
  {
    UpperConcat(title, ":");
    assert ToUpperCase(":") == ":";
    assert (title + ":")[..|title|] == title;
  }

  /** No heading's title is the preamble name, so the preamble is never
      overwritten by a section. */
  lemma PreambleNotATitle(line: string)
    requires IsHeading(line)
    ensures HeadingTitle(line) != Preamble
  {
    if |line| >= 2 {
      assert ToUpperCase(line)[1] == UpperChar(line[1]);
    }
  }

  /** The loop variables: the dictionary built so far, the current section name
      and the buffered body lines. */
  datatype ParseState = ParseState(sections: Properties, current: string, buf: seq<string>)

  const Start: ParseState := ParseState([], Preamble, [])

  /** `if (buf.length) sections[current] = buf.join('\n\n')`. */
  function Flush(sections: Properties, current: string, buf: seq<string>): Properties
  {
    if buf == [] then sections else Set(sections, current, Join(buf, "\n\n"))
  }

  /** One iteration of the loop. */
  function Step(st: ParseState, line: string): ParseState
  {
    if IsHeading(line) then ParseState(Flush(st.sections, st.current, st.buf), HeadingTitle(line), [])
    else if line != [] then st.(buf := st.buf + [line])
    else st
  }

  /** The state after the loop has consumed `lines`. */
  function Run(st: ParseState, lines: seq<string>): ParseState
    decreases |lines|
  {
    if lines == [] then st else Step(Run(st, lines[..|lines| - 1]), lines[|lines| - 1])
  }

  /** `clean.split('\n').map(l => l.trim())`. */
  function ContractLines(text: string): seq<string>
  {
    TrimAll(Split(Sanitize(text), '\n'))
  }

  function ParseLines(lines: seq<string>): Properties
  {
    var st := Run(Start, lines);
    Flush(st.sections, st.current, st.buf)
  }

  /** The sections `parseContractSections` finds in a text; the specification
      of the method `ParseContractSections`. */
  function Parse(text: string): Properties
  {
    ParseLines(ContractLines(text))
  }

  /** `parseContractSections`: the loop itself, proved to compute `Parse`; its
      result has distinct titles and no empty body. */
  method ParseContractSections(text: string) returns (sections: Properties)
    ensures sections == Parse(text)
    ensures DistinctKeys(sections)
    ensures forall i :: 0 <= i < |sections| ==> sections[i].1 != []
  {
    var clean := Sanitize(text);
    var lines := TrimAll(Split(clean, '\n'));
    sections := [];
    var current := Preamble;
    var buf: seq<string> := [];
    for k := 0 to |lines|
      invariant ParseState(sections, current, buf) == Run(Start, lines[..k])
    {
      RunStep(Start, lines, k);
      var line := lines[k];
      var isTitle := ToUpperCase(line) == line && EndsWith(line, ":");
      if isTitle {
        if |buf| > 0 {
          sections := Set(sections, current, Join(buf, "\n\n"));
        }
        current := line[..|line| - 1];
        buf := [];
      } else if line != [] {
        buf := buf + [line];
      }
    }
    assert lines[..|lines|] == lines;
    if |buf| > 0 {
      sections := Set(sections, current, Join(buf, "\n\n"));
    }
    ParseWellFormed(lines);
  }

  /** The loop's state after one more line. */
  lemma RunStep(st: ParseState, lines: seq<string>, k: nat)
    requires k < |lines|
    ensures Run(st, lines[..k + 1]) == Step(Run(st, lines[..k]), lines[k])
  {
    assert lines[..k + 1][..k] == lines[..k];
  }

  lemma {:induction false} RunConcat(st: ParseState, a: seq<string>, b: seq<string>)
    ensures Run(st, a + b) == Run(Run(st, a), b)
    decreases |b|
  {
    if b == [] {
      assert a + b == a;
    } else {
      var n := |b| - 1;
      assert (a + b)[..|a + b| - 1] == a + b[..n];
      RunConcat(st, a, b[..n]);
    }
  }

  // ---------------------------------------------------------------------------
  // Well-formedness of the dictionary

  /** A section name is the preamble or the title of a heading line of `lines`. */
  predicate NamedFrom(name: string, lines: seq<string>)
  {
    name == Preamble || (name + ":" in lines && IsHeading(name + ":"))
  }

  predicate Inv(st: ParseState, lines: seq<string>)
  {
    && DistinctKeys(st.sections)
    && (forall i :: 0 <= i < |st.sections| ==> st.sections[i].1 != [] && NamedFrom(st.sections[i].0, lines))
    && NamedFrom(st.current, lines)
    && (forall j :: 0 <= j < |st.buf| ==> st.buf[j] != [] && st.buf[j] in lines)
  }

  lemma FlushInv(st: ParseState, lines: seq<string>)
    requires Inv(st, lines)
    ensures var r := Flush(st.sections, st.current, st.buf);
      && DistinctKeys(r)
      && forall i :: 0 <= i < |r| ==> r[i].1 != [] && NamedFrom(r[i].0, lines)
  {
    if st.buf != [] {
      var body := Join(st.buf, "\n\n");
      JoinHead(st.buf, "\n\n");
      assert body != [] by { assert |body| >= |st.buf[0]| > 0; }
      SetKeepsKeysDistinct(st.sections, st.current, body);
      var r := Set(st.sections, st.current, body);
      forall i | 0 <= i < |r| ensures r[i].1 != [] && NamedFrom(r[i].0, lines) {
        assert r[i] in r;
        if r[i] != (st.current, body) {
          var m :| 0 <= m < |st.sections| && st.sections[m] == r[i];
        }
      }
    }
  }

  lemma {:induction false} RunInv(lines: seq<string>)
    ensures Inv(Run(Start, lines), lines)
    decreases |lines|
  {
    if lines != [] {
      var n := |lines| - 1;
      var init := lines[..n];
      var line := lines[n];
      RunInv(init);
      var st := Run(Start, init);
      assert forall x :: x in init ==> x in lines;
      assert Inv(st, lines);
      if IsHeading(line) {
        FlushInv(st, lines);
        HeadingIff(line);
      }
    }
  }

  /** Every parsed dictionary has distinct titles and non-empty bodies, and each
      title is the preamble or comes from a heading line of the input. */
  lemma ParseWellFormed(lines: seq<string>)
    ensures var r := ParseLines(lines);
      && DistinctKeys(r)
      && forall i :: 0 <= i < |r| ==> r[i].1 != [] && NamedFrom(r[i].0, lines)
  {
    RunInv(lines);
    FlushInv(Run(Start, lines), lines);
  }

  // ---------------------------------------------------------------------------
  // Parsing a document laid out as preamble and titled sections

  datatype Section = Section(title: string, body: seq<string>)

  /** A document as a preamble followed by titled sections. */
  datatype Layout = Layout(preamble: seq<string>, sections: seq<Section>)

  predicate BodyLines(lines: seq<string>)
  {
    forall i :: 0 <= i < |lines| ==> !IsHeading(lines[i])
  }

  /** Titles that upper-casing leaves alone, and bodies without heading lines. */
  predicate WellFormedLayout(doc: Layout)
  {
    && BodyLines(doc.preamble)
    && forall i :: 0 <= i < |doc.sections| ==>
         ToUpperCase(doc.sections[i].title) == doc.sections[i].title && BodyLines(doc.sections[i].body)
  }

  function SectionLines(secs: seq<Section>): seq<string>
  {
    if secs == [] then []
    else
      var last := secs[|secs| - 1];
      SectionLines(secs[..|secs| - 1]) + ([last.title + ":"] + last.body)
  }

  /** The lines of the document: each section is its heading line, then its body. */
  function LayoutLines(doc: Layout): seq<string>
  {
    doc.preamble + SectionLines(doc.sections)
  }

  /** The non-blank lines, in order. */
  function NonBlank(lines: seq<string>): (r: seq<string>)
    ensures forall j :: 0 <= j < |r| ==> r[j] != [] && r[j] in lines
  {
    if lines == [] then []
    else
      var n := |lines| - 1;
      NonBlank(lines[..n]) + (if lines[n] != [] then [lines[n]] else [])
  }

  /** A non-blank line is kept. */
  lemma {:induction false} NonBlankKeeps(lines: seq<string>, i: nat)
    requires i < |lines| && lines[i] != []
    ensures lines[i] in NonBlank(lines)
  {
    var n := |lines| - 1;
    if i < n {
      NonBlankKeeps(lines[..n], i);
    }
  }

  /** What a section contributes: nothing when its body is blank, otherwise its
      non-blank lines joined by blank lines. */
  function Stored(props: Properties, name: string, body: seq<string>): Properties
  {
    if NonBlank(body) == [] then props else Set(props, name, Join(NonBlank(body), "\n\n"))
  }

  function StoredSections(props: Properties, secs: seq<Section>): Properties
  {
    if secs == [] then props
    else
      var last := secs[|secs| - 1];
      Stored(StoredSections(props, secs[..|secs| - 1]), last.title, last.body)
  }

  /** The dictionary a layout should parse into, section by section. */
  function Expected(doc: Layout): Properties
  {
    StoredSections(Stored([], Preamble, doc.preamble), doc.sections)
  }

  lemma {:induction false} BodyRun(st: ParseState, body: seq<string>)
    requires BodyLines(body)
    ensures Run(st, body) == st.(buf := st.buf + NonBlank(body))
    decreases |body|
  {
    if body != [] {
      var n := |body| - 1;
      BodyRun(st, body[..n]);
    }
  }

  /** The loop state once the preamble and the sections are consumed: the last
      section is still in the buffer. */
  function Pending(pre: seq<string>, secs: seq<Section>): ParseState
  {
    if secs == [] then ParseState([], Preamble, NonBlank(pre))
    else
      var last := secs[|secs| - 1];
      ParseState(StoredSections(Stored([], Preamble, pre), secs[..|secs| - 1]), last.title, NonBlank(last.body))
  }

  lemma FlushPending(pre: seq<string>, secs: seq<Section>)
    ensures var p := Pending(pre, secs);
      Flush(p.sections, p.current, p.buf) == StoredSections(Stored([], Preamble, pre), secs)
  {
  }

  lemma {:induction false} RunLayout(doc: Layout)
    requires WellFormedLayout(doc)
    ensures Run(Start, LayoutLines(doc)) == Pending(doc.preamble, doc.sections)
    decreases |doc.sections|
  {
    var secs := doc.sections;
    if secs == [] {
      assert LayoutLines(doc) == doc.preamble;
      BodyRun(Start, doc.preamble);
    } else {
      var n := |secs| - 1;
      var last := secs[n];
      var prev := Layout(doc.preamble, secs[..n]);
      assert WellFormedLayout(prev);
      RunLayout(prev);
      var heading := last.title + ":";
      assert LayoutLines(doc) == LayoutLines(prev) + [heading] + last.body;
      RunConcat(Start, LayoutLines(prev) + [heading], last.body);
      RunConcat(Start, LayoutLines(prev), [heading]);
      assert ToUpperCase(last.title) == last.title && BodyLines(last.body);
      TitleHeading(last.title);
      var p := Pending(doc.preamble, secs[..n]);
      FlushPending(doc.preamble, secs[..n]);
      assert Run(Start, LayoutLines(prev) + [heading]) == ParseState(Flush(p.sections, p.current, p.buf), last.title, []);
      BodyRun(ParseState(Flush(p.sections, p.current, p.buf), last.title, []), last.body);
    }
  }

  /** Parsing the lines of a layout yields its sections in order, each body
      being the section's non-blank lines joined by blank lines, with blank
      sections left out. */
  lemma ParseLayout(doc: Layout)
    requires WellFormedLayout(doc)
    ensures ParseLines(LayoutLines(doc)) == Expected(doc)
  {
    RunLayout(doc);
    FlushPending(doc.preamble, doc.sections);
  }

  /** The entry stored for a section: its title, and its non-blank lines joined
      by blank lines. */
  function Entry(sec: Section): (string, string)
  {
    (sec.title, Join(NonBlank(sec.body), "\n\n"))
  }

  /** The entries of the sections that have a non-blank body, in order. */
  function Listed(secs: seq<Section>): Properties
  {
    if secs == [] then []
    else
      var last := secs[|secs| - 1];
      Listed(secs[..|secs| - 1]) + (if NonBlank(last.body) == [] then [] else [Entry(last)])
  }

  /** Every key `Listed` stores is the title of one of the sections. */
  lemma {:induction false} ListedKeys(secs: seq<Section>)
    ensures forall k :: k in KeysOf(Listed(secs)) ==> exists i :: 0 <= i < |secs| && secs[i].title == k
  {
    if secs != [] {
      var n := |secs| - 1;
      var rest := Listed(secs[..n]);
      ListedKeys(secs[..n]);
      var r := Listed(secs);
      forall k | k in KeysOf(r) ensures exists i :: 0 <= i < |secs| && secs[i].title == k {
        var j :| 0 <= j < |r| && KeysOf(r)[j] == k;
        if j < |rest| {
          assert KeysOf(rest)[j] == k;
          assert k in KeysOf(rest);
          var i :| 0 <= i < n && secs[..n][i].title == k;
          assert secs[i].title == k;
        } else {
          assert secs[n].title == k;
        }
      }
    }
  }

  /** When no body is blank, every section is listed, in order. */
  lemma {:induction false} ListedAll(secs: seq<Section>)
    requires forall i :: 0 <= i < |secs| ==> NonBlank(secs[i].body) != []
    ensures |Listed(secs)| == |secs|
    ensures forall i :: 0 <= i < |secs| ==> Listed(secs)[i] == Entry(secs[i])
  {
    if secs != [] {
      ListedAll(secs[..|secs| - 1]);
    }
  }

  predicate DistinctTitles(secs: seq<Section>)
  {
    forall i, j :: 0 <= i < j < |secs| ==> secs[i].title != secs[j].title
  }

  /** A section whose title is not yet a key is appended, if it is stored at all. */
  lemma StoredFresh(props: Properties, sec: Section)
    requires sec.title !in KeysOf(props)
    ensures Stored(props, sec.title, sec.body) == props + (if NonBlank(sec.body) == [] then [] else [Entry(sec)])
  {
  }

  /** With distinct titles the last section's title is not among the keys the
      sections before it stored. */
  lemma LastTitleFresh(pre: Properties, secs: seq<Section>)
    requires secs != [] && DistinctTitles(secs)
    requires forall i :: 0 <= i < |secs| ==> secs[i].title !in KeysOf(pre)
    ensures secs[|secs| - 1].title !in KeysOf(pre + Listed(secs[..|secs| - 1]))
  {
    var n := |secs| - 1;
    var init := secs[..n];
    var listed := Listed(init);
    ListedKeys(init);
    forall k | k in KeysOf(listed) ensures k != secs[n].title {
      var i :| 0 <= i < n && init[i].title == k;
      assert secs[i].title == k;
    }
    KeysOfConcat(pre, listed);
  }

  lemma {:induction false} StoredSectionsDistinct(pre: Properties, secs: seq<Section>)
    requires DistinctTitles(secs)
    requires forall i :: 0 <= i < |secs| ==> secs[i].title !in KeysOf(pre)
    ensures StoredSections(pre, secs) == pre + Listed(secs)
    decreases |secs|
  {
    if secs != [] {
      var n := |secs| - 1;
      var init := secs[..n];
      assert DistinctTitles(init);
      StoredSectionsDistinct(pre, init);
      var listed := Listed(init);
      LastTitleFresh(pre, secs);
      var added := if NonBlank(secs[n].body) == [] then [] else [Entry(secs[n])];
      calc {
        StoredSections(pre, secs);
        == { assert secs[..n] == init; }
        Stored(pre + listed, secs[n].title, secs[n].body);
        == { StoredFresh(pre + listed, secs[n]); }
        (pre + listed) + added;
        == { assert Listed(secs) == listed + added; }
        pre + Listed(secs);
      }
    }
  }

  /** With distinct titles the dictionary is the preamble entry, when there is
      one, followed by every non-blank section in document order. */
  lemma ParseLayoutDistinct(doc: Layout)
    requires WellFormedLayout(doc) && DistinctTitles(doc.sections)
    ensures ParseLines(LayoutLines(doc)) == Stored([], Preamble, doc.preamble) + Listed(doc.sections)
  {
    ParseLayout(doc);
    var pre := Stored([], Preamble, doc.preamble);
    forall i | 0 <= i < |doc.sections| ensures doc.sections[i].title !in KeysOf(pre) {
      var t := doc.sections[i].title;
      TitleHeading(t);
      PreambleNotATitle(t + ":");
      if NonBlank(doc.preamble) != [] {
        assert KeysOf(pre) == [Preamble];
      }
    }
    StoredSectionsDistinct(pre, doc.sections);
  }

  /** A later section with an earlier title replaces that body where the earlier
      section stood. */
  lemma RepeatedTitleKeepsPosition(props: Properties, title: string, body1: seq<string>, body2: seq<string>)
    requires title !in KeysOf(props) && NonBlank(body1) != [] && NonBlank(body2) != []
    ensures StoredSections(props, [Section(title, body1), Section(title, body2)])
         == props + [(title, Join(NonBlank(body2), "\n\n"))]
  {
    var secs := [Section(title, body1), Section(title, body2)];
    assert secs[..1] == [Section(title, body1)];
    assert secs[..1][..0] == [];
    var first := props + [(title, Join(NonBlank(body1), "\n\n"))];
    assert StoredSections(props, secs[..1]) == first;
    forall j | 0 <= j < |props| ensures first[j].0 != title {
      assert KeysOf(props)[j] == props[j].0;
    }
    SetOverwrites(first, |props|, Join(NonBlank(body2), "\n\n"));
  }

  // ---------------------------------------------------------------------------
  // From text to lines

  /** Lines that sanitizing, splitting and trimming leave alone. */
  predicate CleanLines(lines: seq<string>)
  {
    && |lines| >= 1 && lines[0] != [] && lines[|lines| - 1] != []
    && forall i :: 0 <= i < |lines| ==> IsClean(lines[i]) && '\n' !in lines[i]
  }

  lemma CleanLinesJoin(lines: seq<string>)
    requires CleanLines(lines)
    ensures IsClean(Join(lines, "\n"))
  {
    JoinSafe(lines, "\n");
    JoinTrimmed(lines, "\n");
  }

  /** A clean line of text: nothing for sanitizing to change and no line break. */
  predicate CleanLine(line: string)
  {
    IsClean(line) && '\n' !in line
  }

  /** Every line of a layout is a preamble line, a heading, or a body line. */
  lemma {:induction false} SectionLinesFrom(secs: seq<Section>)
    ensures forall x :: x in SectionLines(secs) ==>
      exists i :: 0 <= i < |secs| && (x == secs[i].title + ":" || x in secs[i].body)
    decreases |secs|
  {
    if secs != [] {
      var n := |secs| - 1;
      SectionLinesFrom(secs[..n]);
      forall x | x in SectionLines(secs)
        ensures exists i :: 0 <= i < |secs| && (x == secs[i].title + ":" || x in secs[i].body)
      {
        if x in SectionLines(secs[..n]) {
          var i :| 0 <= i < n && (x == secs[..n][i].title + ":" || x in secs[..n][i].body);
          assert secs[..n][i] == secs[i];
        } else {
          assert x == secs[n].title + ":" || x in secs[n].body;
        }
      }
    }
  }

  /** A layout whose preamble, headings and body lines are all clean lines, and
      whose first and last lines are not blank. */
  predicate CleanLayout(doc: Layout)
  {
    && doc.preamble != [] && doc.preamble[0] != []
    && doc.sections != [] && |doc.sections[|doc.sections| - 1].body| >= 1
    && (var body := doc.sections[|doc.sections| - 1].body; body[|body| - 1] != [])
    && (forall x :: x in doc.preamble ==> CleanLine(x))
    && (forall i :: 0 <= i < |doc.sections| ==>
          CleanLine(doc.sections[i].title + ":") && forall x :: x in doc.sections[i].body ==> CleanLine(x))
  }

  lemma CleanLayoutLines(doc: Layout)
    requires CleanLayout(doc)
    ensures CleanLines(LayoutLines(doc))
  {
    var lines := LayoutLines(doc);
    SectionLinesFrom(doc.sections);
    forall x | x in lines ensures CleanLine(x) {
      if x !in doc.preamble {
        assert x in SectionLines(doc.sections);
      }
    }
    var n := |doc.sections| - 1;
    var last := doc.sections[n];
    assert SectionLines(doc.sections) == SectionLines(doc.sections[..n]) + ([last.title + ":"] + last.body);
    assert lines[|lines| - 1] == last.body[|last.body| - 1];
    assert forall i :: 0 <= i < |lines| ==> lines[i] in lines;
  }

  /** Text written as a framed layout of clean lines parses into the layout's
      sections: the preamble entry, when the preamble has a non-blank line, then
      each section with a non-blank body, in document order. */
  lemma ParseFramedLayout(doc: Layout)
    requires WellFormedLayout(doc) && DistinctTitles(doc.sections) && CleanLayout(doc)
    ensures Parse(Framed(Join(LayoutLines(doc), "\n"))) == Stored([], Preamble, doc.preamble) + Listed(doc.sections)
  {
    var text := Join(LayoutLines(doc), "\n");
    CleanLayoutLines(doc);
    CleanLinesJoin(LayoutLines(doc));
    SanitizeFramed(text);
    SanitizeFixpoint(text);
    assert ContractLines(Framed(text)) == ContractLines(text);
    ParseLayoutTextDistinct(doc);
  }

  /** Text made of clean lines is cut back into exactly those lines. */
  lemma ContractLinesOfJoin(lines: seq<string>)
    requires CleanLines(lines)
    ensures ContractLines(Join(lines, "\n")) == lines
  {
    var text := Join(lines, "\n");
    CleanLinesJoin(lines);
    SanitizeFixpoint(text);
    SplitJoin(lines, '\n');
    forall i | 0 <= i < |lines| ensures Trim(lines[i]) == lines[i] {
      TrimFixpoint(lines[i]);
    }
  }

  /** The text-level statement: a contract written as a layout of clean lines
      parses into the layout's sections. */
  lemma ParseLayoutText(doc: Layout)
    requires WellFormedLayout(doc) && CleanLines(LayoutLines(doc))
    ensures Parse(Join(LayoutLines(doc), "\n")) == Expected(doc)
  {
    ContractLinesOfJoin(LayoutLines(doc));
    ParseLayout(doc);
  }

  /** With distinct titles, the parsed text lists the preamble (when it has a
      non-blank line) and then each non-empty section, in document order. */
  lemma ParseLayoutTextDistinct(doc: Layout)
    requires WellFormedLayout(doc) && DistinctTitles(doc.sections) && CleanLines(LayoutLines(doc))
    ensures Parse(Join(LayoutLines(doc), "\n")) == Stored([], Preamble, doc.preamble) + Listed(doc.sections)
  {
    ContractLinesOfJoin(LayoutLines(doc));
    ParseLayoutDistinct(doc);
  }
}
