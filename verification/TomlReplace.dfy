/** Replacing or removing one named section of the configuration file. */
module TomlReplace {
  import opened Common
  import opened Text
  import opened TomlSections

  /** The header of the input tables that belong to an adapter's section. */
  function InputsHeader(base: string): string {
    if "[adapters." <= base && base[|base| - 1] == ']' then
      var name := base[|"[adapters."|..|base| - 1];
      if name != "" then "[[adapters." + name + ".inputs]]" else ""
    else ""
  }

  lemma InputsHeaderForm(name: string, base: string)
    ensures name != "" ==> InputsHeader("[adapters." + name + "]") == "[[adapters." + name + ".inputs]]"
    ensures !("[adapters." <= base) || base == "[adapters.]" ==> InputsHeader(base) == ""
  {
    var header := "[adapters." + name + "]";
    assert header[|"[adapters."|..|header| - 1] == name;
  }

  /** A header line that starts another section than the one headed `base`. */
  predicate Foreign(line: string, base: string) {
    IsHeader(line) && Strip(line) != base && Strip(line) != InputsHeader(base)
  }

  /** The first foreign header from `from` on, or the end of the file. */
  function SectionEnd(lines: seq<string>, base: string, from: nat): (end: nat)
    requires from <= |lines|
    ensures from <= end <= |lines|
    ensures forall i :: from <= i < end ==> !Foreign(lines[i], base)
    ensures end < |lines| ==> Foreign(lines[end], base)
    decreases |lines| - from
  {
    if from == |lines| || Foreign(lines[from], base) then from else SectionEnd(lines, base, from + 1)
  }

  /** The nested loops of `_adapter_section_end`. */
  method AdapterSectionEnd(lines: seq<string>, start: nat) returns (end: nat)
    requires start < |lines|
    ensures end == SectionEnd(lines, Strip(lines[start]), start + 1)
  {
    hide Strip, InputsHeader;
    var base := Strip(lines[start]);
    var inputsHeader := InputsHeader(base);
    end := start + 1;
    while end < |lines|
      invariant start < end <= |lines|
      invariant SectionEnd(lines, base, end) == SectionEnd(lines, base, start + 1)
    {
      var stripped := Strip(lines[end]);
      if IsHeader(lines[end]) {
        if inputsHeader != "" && stripped == inputsHeader {
          end := end + 1;
          while end < |lines|
            invariant start < end <= |lines|
            invariant SectionEnd(lines, base, end) == SectionEnd(lines, base, start + 1)
          {
            if IsHeader(lines[end]) {
              break;
            }
            end := end + 1;
          }
          continue;
        }
        if stripped != base {
          assert stripped != "" by { HeaderIsNotEmpty(lines[end]); }
          break;
        }
      }
      end := end + 1;
    }
  }

  lemma HeaderIsNotEmpty(line: string)
    requires IsHeader(line)
    ensures Strip(line) != ""
  {
  }

  /** The first line that is the header. */
  function FindHeader(lines: seq<string>, header: string): (start: Option<nat>)
    ensures start.Some? ==>
              && start.value < |lines| && Strip(lines[start.value]) == header
              && forall i :: 0 <= i < start.value ==> Strip(lines[i]) != header
    ensures start.None? ==> forall line :: line in lines ==> Strip(line) != header
  {
    if lines == [] then None
    else if Strip(lines[0]) == header then Some(0)
    else match FindHeader(lines[1..], header)
      case None => None
      case Some(i) => Some(i + 1)
  }

  function RemoveSection(text: string, header: string): string {
    var lines := SplitLines(text);
    match FindHeader(lines, header)
    case None => text
    case Some(start) =>
      var end := SectionEnd(lines, Strip(lines[start]), start + 1);
      RStrip(Join(lines[..start] + lines[end..])) + "\n"
  }

  function ReplaceSection(text: string, header: string, section: string): string {
    var lines := SplitLines(text);
    match FindHeader(lines, header)
    case None => RStrip(text) + "\n\n" + section
    case Some(start) =>
      var end := SectionEnd(lines, Strip(lines[start]), start + 1);
      RStrip(Join(lines[..start] + SplitLines(RStrip(section)) + [""] + lines[end..])) + "\n"
  }

  /** A section for `header`: it starts with the header and contains no other
      section's header. */
  predicate IsSectionFor(section: string, header: string) {
    var lines := SplitLines(section);
    && IsHeader(header) && Strip(header) == header
    && lines != [] && Strip(lines[0]) == header
    && forall line :: line in lines ==> !Foreign(line, header)
  }

  /** A text that has the section: `before`, then the section `body`, then the
      rest, which is empty or starts with another section. */
  predicate Layout(lines: seq<string>, header: string, before: seq<string>, body: seq<string>, rest: seq<string>) {
    && lines == before + body + rest
    && (forall line :: line in before ==> Strip(line) != header)
    && body != [] && Strip(body[0]) == header
    && (forall line :: line in body ==> !Foreign(line, header))
    && (rest != [] ==> Foreign(rest[0], header))
  }

  lemma FindIs(lines: seq<string>, header: string, start: nat)
    requires start < |lines| && Strip(lines[start]) == header
    requires forall i :: 0 <= i < start ==> Strip(lines[i]) != header
    ensures FindHeader(lines, header) == Some(start)
  {
    hide Strip;
    assert lines[start] in lines;
  }

  lemma SectionEndIs(lines: seq<string>, header: string, from: nat, end: nat)
    requires from <= end <= |lines|
    requires forall i :: from <= i < end ==> !Foreign(lines[i], header)
    requires end < |lines| ==> Foreign(lines[end], header)
    ensures SectionEnd(lines, header, from) == end
  {
    hide Foreign;
  }

  lemma FindsLayout(lines: seq<string>, header: string, before: seq<string>, body: seq<string>, rest: seq<string>)
    requires Layout(lines, header, before, body, rest)
    ensures FindHeader(lines, header) == Some(|before|)
    ensures SectionEnd(lines, header, |before| + 1) == |before| + |body|
    ensures lines[..|before|] == before && lines[|before| + |body|..] == rest
  {
    hide Strip, Foreign, FindHeader, SectionEnd;
    assert forall i :: 0 <= i < |before| ==> lines[i] == before[i];
    assert forall i :: |before| <= i < |before| + |body| ==> lines[i] == body[i - |before|];
    FindIs(lines, header, |before|);
    SectionEndIs(lines, header, |before| + 1, |before| + |body|);
  }

  lemma HasLayout(lines: seq<string>, header: string) returns (before: seq<string>, body: seq<string>, rest: seq<string>)
    requires FindHeader(lines, header).Some? && IsHeader(header) && Strip(header) == header
    ensures Layout(lines, header, before, body, rest)
    ensures before == lines[..FindHeader(lines, header).value]
    ensures rest == lines[SectionEnd(lines, header, FindHeader(lines, header).value + 1)..]
  {
    hide Strip, IsHeader, FindHeader, SectionEnd, Foreign;
    var start := FindHeader(lines, header).value;
    var end := SectionEnd(lines, header, start + 1);
    before, body, rest := lines[..start], lines[start..end], lines[end..];
    OwnHeaderIsNotForeign(lines[start], header);
    NoneForeign(lines, header, start, end);
    InThree(lines, start, end);
  }

  lemma InThree(lines: seq<string>, start: nat, end: nat)
    requires start < end <= |lines|
    ensures lines == lines[..start] + lines[start..end] + lines[end..]
    ensures lines[start..end] != [] && lines[start..end][0] == lines[start]
    ensures end < |lines| ==> lines[end..][0] == lines[end]
  {
  }

  lemma OwnHeaderIsNotForeign(line: string, header: string)
    requires Strip(line) == header
    ensures !Foreign(line, header)
  {
  }

  lemma NoneForeign(lines: seq<string>, header: string, start: nat, end: nat)
    requires start <= end <= |lines|
    requires forall i :: start <= i < end ==> !Foreign(lines[i], header)
    ensures forall line :: line in lines[start..end] ==> !Foreign(line, header)
  {
    hide Foreign;
  }

  // ---- Stripping the end of a text ----

  lemma SameStrip(a: string, b: string, header: string)
    requires Strip(a) == Strip(b)
    ensures Foreign(a, header) == Foreign(b, header)
  {
  }

  lemma {:induction false} StripOfRStrip(s: string)
    ensures Strip(RStrip(s)) == Strip(s)
    decreases |s|
  {
    hide Strip;
    if s != "" && IsSpace(s[|s| - 1]) {
      StripOfRStrip(s[..|s| - 1]);
      StripSpaceEnd(s[..|s| - 1], s[|s| - 1]);
      assert s == s[..|s| - 1] + [s[|s| - 1]];
    }
  }

  lemma VisibleSurvives(line: string)
    requires OneLine(line) && Strip(line) != ""
    ensures RStrip(line) != "" && OneLine(RStrip(line)) && Strip(RStrip(line)) == Strip(line)
  {
    StripOfRStrip(line);
  }

  lemma TailIsBlank(line: string, tail: string)
    requires RStrip(tail) == ""
    ensures RStrip(line + "\n" + tail) == RStrip(line)
  {
    hide RStrip;
    RStripTail(line + "\n", tail);
    assert line + "\n" + "" == line + ['\n'];
    RStripSpace(line, '\n');
  }

  /** Blanks cut off at the end of a text leave its first line, if that is not
      blank itself. */
  lemma FirstLineSurvives(lines: seq<string>)
    requires lines != [] && AllOneLine(lines) && Strip(lines[0]) != ""
    ensures RStrip(Join(lines)) != ""
    ensures Strip(Split(RStrip(Join(lines)))[0]) == Strip(lines[0])
  {
    hide RStrip, Join, Split, Strip, OneLine;
    var first := lines[0];
    JoinOfOne(first);
    VisibleSurvives(first);
    if |lines| == 1 {
      assert lines == [first];
      SplitOfOneLine(RStrip(first));
    } else {
      assert lines == [first] + lines[1..];
      JoinOfConcatenation([first], lines[1..]);
      FirstOfTwo(first, Join(lines[1..]));
    }
  }

  lemma FirstOfTwo(first: string, tail: string)
    requires OneLine(first) && Strip(first) != ""
    ensures var kept := RStrip(first + "\n" + tail);
            kept != "" && Strip(Split(kept)[0]) == Strip(first)
  {
    hide RStrip, Split, Strip, OneLine;
    VisibleSurvives(first);
    if RStrip(tail) == "" {
      TailIsBlank(first, tail);
      SplitOfOneLine(RStrip(first));
    } else {
      RStripKeepsFront(first + "\n", tail);
      SplitSeparated(first, RStrip(tail));
      SplitOfOneLine(first);
    }
  }

  // ---- What is written ----

  /** A section's lines once its text is stripped: they still make a section. */
  lemma StrippedSection(section: string, header: string)
    requires IsSectionFor(section, header)
    ensures RStrip(section) != "" && SplitLines(RStrip(section)) == Split(RStrip(section))
    ensures Strip(Split(RStrip(section))[0]) == header
    ensures forall line :: line in Split(RStrip(section)) ==> !Foreign(line, header)
  {
    hide RStrip, Join, Split, Strip, Foreign, IsHeader;
    var lines := SplitLines(section);
    SplitLinesIsOneLine(section);
    JoinOfLines(section);
    HeaderIsNotEmpty(header);
    FirstLineSurvives(lines);
    KeepsSection(section, header);
    assert SplitLines(RStrip(section)) == Split(RStrip(section)) by { StrippedLines(section); }
  }

  lemma JoinOfLines(text: string)
    ensures RStrip(Join(SplitLines(text))) == RStrip(text)
    ensures text != "" ==> Split(text) == SplitLines(text) || Split(text) == SplitLines(text) + [""]
  {
    hide RStrip, Split, Join, SplitLines;
    if text == "" {
      assert Join(SplitLines("")) == "" by { LinesOfNothing(); }
    } else if text[|text| - 1] == '\n' {
      var front := text[..|text| - 1];
      assert text == front + "\n";
      EndsWithNewline(front);
      JoinOfEndedLines(front);
    } else {
      OpenEnd(text);
      JoinOfSplit(text);
    }
  }

  lemma LinesOfNothing()
    ensures SplitLines("") == [] && Join([]) == ""
  {
  }

  lemma OpenEnd(text: string)
    requires text != "" && text[|text| - 1] != '\n'
    ensures SplitLines(text) == Split(text)
  {
  }

  lemma JoinOfEndedLines(front: string)
    ensures RStrip(Join(Split(front))) == RStrip(front + "\n")
    ensures Split(front + "\n") == Split(front) + [""]
  {
    hide RStrip, Split, Join;
    JoinOfSplit(front);
    RStripSpace(front, '\n');
    SplitSnoc(front, '\n');
  }

  lemma KeepsSection(section: string, header: string)
    requires IsSectionFor(section, header)
    ensures forall line :: line in Split(RStrip(section)) ==> !Foreign(line, header)
  {
    hide RStrip, Join, Split, Strip;
    var own := stripped => !ForeignStripped(stripped, header);
    JoinOfLines(section);
    assert own("");
    assert Strip("") == "" by { StripEmpty(); }
    RStripKeepsLines(section, own);
    forall line | line in Split(RStrip(section))
      ensures !Foreign(line, header)
    {
      assert own(Strip(line));
    }
  }

  /** `Foreign` of a stripped line. */
  predicate ForeignStripped(s: string, base: string) {
    s != "" && s[0] == '[' && s[|s| - 1] == ']' && s != base && s != InputsHeader(base)
  }

  lemma StrippedLines(section: string)
    requires RStrip(section) != ""
    ensures SplitLines(RStrip(section)) == Split(RStrip(section)) != []
    ensures Join(SplitLines(RStrip(section))) == RStrip(section)
  {
    hide Join, Split;
    JoinOfSplit(RStrip(section));
  }

  /** The lines of a text that a replacement or removal wrote: the tail may have
      lost blanks at its end, but it still starts with the same section. */
  lemma LinesOfWritten(front: seq<string>, rest: seq<string>, header: string) returns (tail: seq<string>)
    requires front != [] && AllOneLine(front) && AllOneLine(rest)
    requires rest != [] && Foreign(rest[0], header)
    ensures SplitLines(RStrip(Join(front + rest)) + "\n") == front + tail
    ensures tail != [] && Foreign(tail[0], header)
    ensures AllOneLine(tail) && Join(tail) == RStrip(Join(rest))
  {
    hide Strip, IsHeader, RStrip, Join, Split, SplitLines, OneLine, Foreign;
    JoinOfConcatenation(front, rest);
    assert Strip(rest[0]) != "" by { ForeignIsNotEmpty(rest[0], header); }
    FirstLineSurvives(rest);
    var kept := RStrip(Join(rest));
    RStripKeepsFront(Join(front) + "\n", Join(rest));
    EndsWithNewline(Join(front) + "\n" + kept);
    SplitSeparated(Join(front), kept);
    SplitOfJoin(front);
    tail := Split(kept);
    SameStrip(rest[0], tail[0], header);
    SplitIsOneLine(kept);
    JoinOfSplit(kept);
  }

  lemma ForeignIsNotEmpty(line: string, header: string)
    requires Foreign(line, header)
    ensures Strip(line) != ""
  {
  }

  /** The same when the section was the last: nothing follows it. */
  lemma LinesOfWrittenLast(front: seq<string>, section: string)
    requires AllOneLine(front) && RStrip(section) != ""
    ensures var body := SplitLines(RStrip(section));
            && SplitLines(RStrip(Join(front + body + [""])) + "\n") == front + body
            && RStrip(Join(front + body + [""])) == Join(front + body)
  {
    hide RStrip, Join, Split, SplitLines, OneLine;
    var kept := RStrip(section);
    var body := SplitLines(kept);
    StrippedLines(section);
    assert front + body + [""] == (front + body) + [""];
    JoinSnoc(front + body, "");
    assert Join(front + body) + "\n" + "" == Join(front + body) + ['\n'];
    RStripSpace(Join(front + body), '\n');
    RStripRest(section);
    if front == [] {
      assert front + body == body;
    } else {
      JoinOfConcatenation(front, body);
      RStripKeepsFront(Join(front) + "\n", kept);
    }
    EndsWithNewline(Join(front + body));
    SplitIsOneLine(kept);
    SplitOfJoin(front + body);
  }

  /** Cutting blanks off the tail first makes no difference to what is written. */
  lemma WrittenTail(front: seq<string>, rest: seq<string>, tail: seq<string>)
    requires rest != [] && tail != [] && Join(tail) == RStrip(Join(rest))
    ensures RStrip(Join(front + tail)) == RStrip(Join(front + rest))
  {
    hide RStrip, Join;
    if front == [] {
      assert front + tail == tail && front + rest == rest;
      RStripRest(Join(rest));
    } else {
      JoinOfConcatenation(front, tail);
      JoinOfConcatenation(front, rest);
      RStripTail(Join(front) + "\n", Join(rest));
    }
  }

  // ---- The laws ----

  /** The lines of a text after its section was replaced: what stood before the
      section is there line by line, the new section follows, and then what
      stood behind the old one, but for blanks at the very end of the file. */
  lemma ReplacingKeepsTheRest(text: string, header: string, section: string)
    returns (before: seq<string>, body: seq<string>, rest: seq<string>, written: seq<string>, tail: seq<string>)
    requires FindHeader(SplitLines(text), header).Some? && IsSectionFor(section, header)
    ensures Layout(SplitLines(text), header, before, body, rest)
    ensures Layout(SplitLines(ReplaceSection(text, header, section)), header, before, written, tail)
    ensures written == SplitLines(RStrip(section)) + if rest == [] then [] else [""]
    ensures if rest == [] then tail == [] else tail != [] && Join(tail) == RStrip(Join(rest))
  {
    hide RStrip, Join, Split, SplitLines, Strip, OneLine, Foreign, FindHeader, SectionEnd, IsHeader;
    var lines := SplitLines(text);
    before, body, rest := HasLayout(lines, header);
    SplitLinesIsOneLine(text);
    assert AllOneLine(before) && AllOneLine(rest);
    StrippedSection(section, header);
    var kept := SplitLines(RStrip(section));
    SplitIsOneLine(RStrip(section));
    FindsLayout(lines, header, before, body, rest);
    if rest == [] {
      LinesOfWrittenLast(before, section);
      assert before + kept + [""] + rest == before + kept + [""];
      written, tail := kept + [], [];
      assert before + kept == before + written + tail;
    } else {
      assert OneLine("") by { EmptyIsOneLine(); }
      var front := before + kept + [""];
      tail := LinesOfWritten(front, rest, header);
      written := kept + [""];
      assert front + tail == before + written + tail;
      assert !Foreign("", header) by { EmptyIsNotForeign(header); }
    }
  }

  lemma EmptyIsOneLine()
    ensures OneLine("")
  {
  }

  lemma EmptyIsNotForeign(header: string)
    ensures !Foreign("", header)
  {
  }

  lemma WhatIsWritten(text: string, header: string, section: string, before: seq<string>, body: seq<string>, rest: seq<string>)
    requires Layout(SplitLines(text), header, before, body, rest)
    ensures ReplaceSection(text, header, section)
         == RStrip(Join(before + SplitLines(RStrip(section)) + [""] + rest)) + "\n"
    ensures RemoveSection(text, header) == RStrip(Join(before + rest)) + "\n"
  {
    hide RStrip, Join, Split, SplitLines, Strip, Foreign, FindHeader, SectionEnd, IsHeader;
    FindsLayout(SplitLines(text), header, before, body, rest);
  }

  /** The last replacement wins, and removing a replaced section is removing the
      original one. */
  lemma ReplacingIsLastWriteWins(text: string, header: string, first: string, second: string)
    requires IsSectionFor(first, header) && IsSectionFor(second, header)
    requires FindHeader(SplitLines(text), header).Some?
    ensures ReplaceSection(ReplaceSection(text, header, first), header, second) == ReplaceSection(text, header, second)
    ensures RemoveSection(ReplaceSection(text, header, first), header) == RemoveSection(text, header)
  {
    hide RStrip, Join, SplitLines, Layout, IsSectionFor, ReplaceSection, RemoveSection, FindHeader;
    var before, body, rest, written, tail := ReplacingKeepsTheRest(text, header, first);
    WhatIsWritten(text, header, second, before, body, rest);
    WhatIsWritten(ReplaceSection(text, header, first), header, second, before, written, tail);
    if rest != [] {
      WrittenTail(before + SplitLines(RStrip(second)) + [""], rest, tail);
      WrittenTail(before, rest, tail);
    }
  }

  /** A text without the section: the section is appended, and replacing it again
      only tidies up the end of the file. */
  lemma AppendedSection(text: string, header: string, section: string)
    requires IsSectionFor(section, header) && FindHeader(SplitLines(text), header).None?
    ensures Layout(SplitLines(ReplaceSection(text, header, section)), header,
                   Split(RStrip(text)) + [""], SplitLines(section), [])
  {
    hide RStrip, Join, Split, Strip, OneLine, Foreign, FindHeader, IsHeader;
    var base := RStrip(text);
    assert section != "";
    var cut := section[|section| - 1] == '\n';
    var inner := if cut then section[..|section| - 1] else section;
    var written := base + "\n\n" + section;
    assert SplitLines(written) == Split(base + "\n" + "" + "\n" + inner) by {
      assert base + "\n\n" + inner == base + "\n" + "" + "\n" + inner;
      assert cut ==> written[..|written| - 1] == base + "\n\n" + inner;
    }
    SplitSeparated(base + "\n" + "", inner);
    SplitSeparated(base, "");
    assert Split("") == [""] by { SplitEmpty(); }
    HeaderStaysAbsent(text, header);
    assert Strip("") == "" by { StripEmpty(); }
    HeaderIsNotEmpty(header);
    assert Split(base) + [""] + SplitLines(section) + [] == Split(base) + [""] + SplitLines(section);
  }

  lemma HeaderStaysAbsent(text: string, header: string)
    requires IsHeader(header) && Strip(header) == header && FindHeader(SplitLines(text), header).None?
    ensures forall line :: line in Split(RStrip(text)) ==> Strip(line) != header
  {
    hide RStrip, Split, Join, Strip, IsHeader, FindHeader;
    var other := stripped => stripped != header;
    JoinOfLines(text);
    HeaderIsNotEmpty(header);
    assert Strip("") == "" by { StripEmpty(); }
    assert Split("") == [""] by { SplitEmpty(); }
    RStripKeepsLines(text, other);
    forall line | line in Split(RStrip(text))
      ensures Strip(line) != header
    {
      assert other(Strip(line));
    }
  }

  /** Without the section in the text, the second write agrees with a single one
      up to blanks at the end of the file, and exactly when the section ends with
      one line break. Removing what was appended only strips the text's end. */
  lemma AppendingIsLastWriteWinsUpToBlanks(text: string, header: string, first: string, second: string)
    requires IsSectionFor(first, header) && IsSectionFor(second, header)
    requires FindHeader(SplitLines(text), header).None?
    ensures var once, twice := ReplaceSection(text, header, second),
                               ReplaceSection(ReplaceSection(text, header, first), header, second);
            && twice == RStrip(once) + "\n"
            && (twice == once <==> second == RStrip(second) + "\n")
    ensures var removed := RemoveSection(ReplaceSection(text, header, first), header);
            && removed == RStrip(RemoveSection(text, header)) + "\n"
            && (removed == RemoveSection(text, header) <==> text == RStrip(text) + "\n")
  {
    hide RStrip, SplitLines, Split, Layout, ReplaceSection, RemoveSection, FindHeader, IsSectionFor;
    WrittenAfterAppending(text, header, first, second);
    NotFound(text, header, second);
    assert RStrip(second) != "" by { StrippedSection(second, header); }
    RStripKeepsFront(RStrip(text) + "\n\n", second);
    SameEnd(RStrip(text) + "\n\n", second, RStrip(second) + "\n");
    assert RStrip(text) + "\n\n" + RStrip(second) + "\n" == RStrip(text) + "\n\n" + (RStrip(second) + "\n");
  }

  lemma NotFound(text: string, header: string, section: string)
    requires FindHeader(SplitLines(text), header).None?
    ensures ReplaceSection(text, header, section) == RStrip(text) + "\n\n" + section
    ensures RemoveSection(text, header) == text
  {
  }

  lemma WrittenAfterAppending(text: string, header: string, first: string, second: string)
    requires IsSectionFor(first, header) && IsSectionFor(second, header)
    requires FindHeader(SplitLines(text), header).None?
    ensures ReplaceSection(ReplaceSection(text, header, first), header, second)
         == RStrip(text) + "\n\n" + RStrip(second) + "\n"
    ensures RemoveSection(ReplaceSection(text, header, first), header) == RStrip(text) + "\n"
  {
    hide RStrip, Join, Split, SplitLines, Layout, ReplaceSection, RemoveSection, FindHeader, IsSectionFor;
    var base := RStrip(text);
    var before := Split(base) + [""];
    AppendedSection(text, header, first);
    assert RStrip(second) != "" by { StrippedSection(second, header); }
    WhatIsWritten(ReplaceSection(text, header, first), header, second, before, SplitLines(first), []);
    assert before + SplitLines(RStrip(second)) + [""] + [] == before + SplitLines(RStrip(second)) + [""];
    assert before + [] == before;
    JoinOfSplit(base);
    JoinSnoc(Split(base), "");
    TextTwice(base, before, second);
    RStripRest(text);
    RStripSpace(base, '\n');
    assert base + "\n" + "" == base + ['\n'];
  }

  lemma SameEnd(front: string, a: string, b: string)
    ensures front + a == front + b <==> a == b
  {
    assert (front + a)[|front|..] == a && (front + b)[|front|..] == b;
  }

  lemma TextTwice(base: string, before: seq<string>, second: string)
    requires before == Split(base) + [""] && Join(before) == base + "\n" + "" && RStrip(second) != ""
    ensures RStrip(Join(before + SplitLines(RStrip(second)) + [""])) == base + "\n\n" + RStrip(second)
  {
    hide RStrip, Join, Split, SplitLines, OneLine;
    SplitIsOneLine(base);
    assert OneLine("") by { EmptyIsOneLine(); }
    LinesOfWrittenLast(before, second);
    StrippedLines(second);
    JoinOfConcatenation(before, SplitLines(RStrip(second)));
    assert base + "\n" + "" + "\n" + RStrip(second) == base + "\n\n" + RStrip(second);
  }
}
