/** How the configuration file is rewritten in place when devices or connections
    are saved: the old sections are cut out line by line and new ones appended. */
module TomlSections {
  import opened Text

  const DEVICE_HEADERS: set<string> := {"[[devices]]", "[[devices.custom_points]]"}
  const CONNECTION_HEADERS: set<string> := {"[[connections]]", "[connections]"}

  predicate IsHeader(line: string) {
    var s := Strip(line);
    s != "" && s[0] == '[' && s[|s| - 1] == ']'
  }

  // ---- Which lines belong to a section ----

  /** Whether the last line of `lines` lies in a section headed by one of
      `headers`: that is what the nearest header line at or before it says. */
  predicate InSection(lines: seq<string>, headers: set<string>) {
    lines != [] &&
    var last := lines[|lines| - 1];
    if IsHeader(last) then Strip(last) in headers else InSection(lines[..|lines| - 1], headers)
  }

  /** The lines that lie in no such section, in order. */
  function Outside(lines: seq<string>, headers: set<string>): (rest: seq<string>) {
    if lines == [] then []
    else
      var before := Outside(lines[..|lines| - 1], headers);
      if InSection(lines, headers) then before else before + [lines[|lines| - 1]]
  }

  lemma {:induction false} NearestHeaderDecides(lines: seq<string>, headers: set<string>)
    ensures InSection(lines, headers) <==>
            exists h :: 0 <= h < |lines| && IsHeader(lines[h]) && Strip(lines[h]) in headers
              && forall j :: h < j < |lines| ==> !IsHeader(lines[j])
  {
    if lines != [] && !IsHeader(lines[|lines| - 1]) {
      var before := lines[..|lines| - 1];
      NearestHeaderDecides(before, headers);
      assert forall j :: 0 <= j < |before| ==> before[j] == lines[j];
    }
  }

  lemma {:induction false} OutsideAppend(a: seq<string>, b: seq<string>, headers: set<string>)
    requires !InSection(a, headers)
    ensures InSection(a + b, headers) == InSection(b, headers)
    ensures Outside(a + b, headers) == Outside(a, headers) + Outside(b, headers)
    decreases |b|
  {
    hide IsHeader;
    if b == [] {
      assert a + b == a;
    } else {
      OutsideAppend(a, b[..|b| - 1], headers);
      assert (a + b)[..|a + b| - 1] == a + b[..|b| - 1];
    }
  }

  /** A stretch of text without any of these headers is kept as it is. */
  lemma {:induction false} NothingToCut(lines: seq<string>, headers: set<string>)
    requires forall line :: line in lines ==> Strip(line) !in headers
    ensures !InSection(lines, headers) && Outside(lines, headers) == lines
  {
    hide Strip;
    if lines != [] {
      NothingToCut(lines[..|lines| - 1], headers);
    }
  }

  /** Sections with no other headers are cut out completely. */
  lemma {:induction false} AllCut(lines: seq<string>, headers: set<string>)
    requires lines != [] && IsHeader(lines[0])
    requires forall line :: line in lines && IsHeader(line) ==> Strip(line) in headers
    ensures InSection(lines, headers) && Outside(lines, headers) == []
    decreases |lines|
  {
    hide IsHeader;
    if |lines| > 1 {
      AllCut(lines[..|lines| - 1], headers);
    }
  }

  lemma {:induction false} OutsideHasNoHeader(lines: seq<string>, headers: set<string>)
    requires forall h :: h in headers ==> h != "" && h[0] == '[' && h[|h| - 1] == ']'
    ensures forall line :: line in Outside(lines, headers) ==> line in lines && Strip(line) !in headers
  {
    hide Strip;
    if lines != [] {
      OutsideHasNoHeader(lines[..|lines| - 1], headers);
    }
  }

  // ---- Cutting out device sections ----

  lemma NextLineOutside(lines: seq<string>, index: nat, headers: set<string>)
    requires index < |lines|
    ensures InSection(lines[..index + 1], headers) ==
            if IsHeader(lines[index]) then Strip(lines[index]) in headers else InSection(lines[..index], headers)
    ensures Outside(lines[..index + 1], headers) ==
            if InSection(lines[..index + 1], headers) then Outside(lines[..index], headers)
            else Outside(lines[..index], headers) + [lines[index]]
  {
    assert lines[..index + 1][..index] == lines[..index];
  }

  lemma DeviceHeadersAreHeaders(line: string)
    ensures Strip(line) in DEVICE_HEADERS ==> IsHeader(line)
  {
  }

  method RemoveDeviceSections(text: string) returns (r: string)
    ensures r == RStrip(Join(Outside(SplitLines(text), DEVICE_HEADERS))) + "\n"
  {
    hide RStrip, Join, SplitLines, IsHeader, Strip, InSection, Outside;
    var lines := SplitLines(text);
    var kept: seq<string> := [];
    var index := 0;
    EmptyOutside(lines, DEVICE_HEADERS);
    while index < |lines|
      invariant 0 <= index <= |lines|
      invariant kept == Outside(lines[..index], DEVICE_HEADERS)
      invariant index == |lines| || IsHeader(lines[index]) || !InSection(lines[..index], DEVICE_HEADERS)
      decreases |lines| - index
    {
      var stripped := Strip(lines[index]);
      NextLineOutside(lines, index, DEVICE_HEADERS);
      DeviceHeadersAreHeaders(lines[index]);
      if stripped == "[[devices]]" {
        index := index + 1;
        while index < |lines|
          invariant 0 <= index <= |lines|
          invariant InSection(lines[..index], DEVICE_HEADERS) && kept == Outside(lines[..index], DEVICE_HEADERS)
        {
          var inner := Strip(lines[index]);
          DeviceHeadersAreHeaders(lines[index]);
          if inner == "[[devices]]" {
            break;
          }
          if IsHeader(lines[index]) && inner !in DEVICE_HEADERS {
            break;
          }
          NextLineOutside(lines, index, DEVICE_HEADERS);
          index := index + 1;
        }
        continue;
      }
      if stripped == "[[devices.custom_points]]" {
        index := index + 1;
        while index < |lines|
          invariant 0 <= index <= |lines|
          invariant InSection(lines[..index], DEVICE_HEADERS) && kept == Outside(lines[..index], DEVICE_HEADERS)
        {
          if IsHeader(lines[index]) {
            break;
          }
          NextLineOutside(lines, index, DEVICE_HEADERS);
          index := index + 1;
        }
        continue;
      }
      kept := kept + [lines[index]];
      index := index + 1;
    }
    assert lines[..|lines|] == lines;
    r := RStrip(Join(kept)) + "\n";
  }

  lemma EmptyOutside(lines: seq<string>, headers: set<string>)
    ensures Outside(lines[..0], headers) == [] && !InSection(lines[..0], headers)
  {
  }

  // ---- Cutting out connection sections ----

  /** `connections = ...`, or any other line that starts with that word and has an `=`. */
  predicate IsAssignment(line: string) {
    "connections" <= Strip(line) && '=' in Strip(line)
  }

  predicate OpensArray(line: string) {
    IsAssignment(line) && '[' in Strip(line) && ']' !in Strip(line)
  }

  /** Where the scan stands: outside everything, in a section, or in an array
      that ends with the next line containing a bracket. */
  datatype Mode = Free | Section | OpenArray

  function ModeAfter(mode: Mode, line: string): Mode {
    if mode.OpenArray? then (if ']' in line then Free else OpenArray)
    else if IsHeader(line) then (if Strip(line) in CONNECTION_HEADERS then Section else Free)
    else if mode.Section? then Section
    else if OpensArray(line) then OpenArray
    else Free
  }

  predicate Drops(mode: Mode, line: string) {
    if mode.OpenArray? then true
    else if IsHeader(line) then Strip(line) in CONNECTION_HEADERS
    else mode.Section? || IsAssignment(line)
  }

  function ModeOf(lines: seq<string>): Mode {
    if lines == [] then Free else ModeAfter(ModeOf(lines[..|lines| - 1]), lines[|lines| - 1])
  }

  /** What is left when connections are removed, in one pass. */
  function Kept(lines: seq<string>): (rest: seq<string>) {
    if lines == [] then []
    else
      var front, last := lines[..|lines| - 1], lines[|lines| - 1];
      if Drops(ModeOf(front), last) then Kept(front) else Kept(front) + [last]
  }

  function Upto(lines: seq<string>, index: nat): seq<string> {
    if index <= |lines| then lines[..index] else lines
  }

  lemma OneMoreLine(lines: seq<string>, index: nat)
    requires index < |lines|
    ensures ModeOf(Upto(lines, index + 1)) == ModeAfter(ModeOf(Upto(lines, index)), lines[index])
    ensures Kept(Upto(lines, index + 1)) ==
            if Drops(ModeOf(Upto(lines, index)), lines[index]) then Kept(Upto(lines, index))
            else Kept(Upto(lines, index)) + [lines[index]]
  {
    assert lines[..index + 1][..index] == lines[..index];
  }

  method RemoveConnectionSections(text: string) returns (r: string)
    ensures r == RStrip(Join(Kept(SplitLines(text)))) + "\n"
  {
    hide RStrip, Join, SplitLines, IsHeader, Strip, ModeOf, Kept, Upto;
    var lines := SplitLines(text);
    var kept: seq<string> := [];
    var index: nat := 0;
    Ends(lines);
    while index < |lines|
      invariant index <= |lines| + 1
      invariant kept == Kept(Upto(lines, index))
      invariant index < |lines| ==>
                  ModeOf(Upto(lines, index)).Free? || (ModeOf(Upto(lines, index)).Section? && IsHeader(lines[index]))
      decreases |lines| - index
    {
      var stripped := Strip(lines[index]);
      OneMoreLine(lines, index);
      HeadersAreHeaders(lines[index]);
      if stripped == "[[connections]]" {
        index := SkipSection(lines, index + 1, kept);
        continue;
      }
      if stripped == "[connections]" {
        index := SkipSection(lines, index + 1, kept);
        continue;
      }
      if "connections" <= stripped && '=' in stripped {
        if '[' in stripped && ']' !in stripped {
          index := index + 1;
          while index < |lines| && ']' !in lines[index]
            invariant index <= |lines|
            invariant ModeOf(Upto(lines, index)) == OpenArray && kept == Kept(Upto(lines, index))
          {
            OneMoreLine(lines, index);
            index := index + 1;
          }
          if index < |lines| {
            OneMoreLine(lines, index);
          }
        }
        index := index + 1;
        continue;
      }
      kept := kept + [lines[index]];
      index := index + 1;
    }
    r := RStrip(Join(kept)) + "\n";
  }

  lemma Ends(lines: seq<string>)
    ensures ModeOf(Upto(lines, 0)) == Free && Kept(Upto(lines, 0)) == []
    ensures Upto(lines, |lines|) == lines == Upto(lines, |lines| + 1)
  {
  }

  lemma HeadersAreHeaders(line: string)
    ensures Strip(line) in CONNECTION_HEADERS ==> IsHeader(line)
    ensures "connections" <= Strip(line) ==> !IsHeader(line)
  {
  }

  /** The inner loops: from behind a section's header to the next header line. */
  method SkipSection(lines: seq<string>, start: nat, ghost kept: seq<string>) returns (index: nat)
    requires start <= |lines| && ModeOf(Upto(lines, start)).Section? && kept == Kept(Upto(lines, start))
    ensures start <= index <= |lines| && (index < |lines| ==> IsHeader(lines[index]))
    ensures forall i :: start <= i < index ==> !IsHeader(lines[i])
    ensures ModeOf(Upto(lines, index)).Section? && kept == Kept(Upto(lines, index))
  {
    hide IsHeader, Strip, ModeOf, Kept, Upto;
    index := start;
    while index < |lines|
      invariant start <= index <= |lines|
      invariant forall i :: start <= i < index ==> !IsHeader(lines[i])
      invariant ModeOf(Upto(lines, index)).Section? && kept == Kept(Upto(lines, index))
    {
      if IsHeader(lines[index]) {
        break;
      }
      OneMoreLine(lines, index);
      index := index + 1;
    }
  }

  /** Lines that do not start anything are kept. */
  predicate Harmless(stripped: string) {
    stripped !in CONNECTION_HEADERS && !("connections" <= stripped && '=' in stripped)
  }

  lemma {:induction false} NothingToDrop(lines: seq<string>)
    requires forall line :: line in lines ==> Harmless(Strip(line))
    ensures ModeOf(lines) == Free && Kept(lines) == lines
  {
    hide Strip;
    if lines != [] {
      NothingToDrop(lines[..|lines| - 1]);
    }
  }

  lemma {:induction false} KeptIsHarmless(lines: seq<string>)
    ensures forall line :: line in Kept(lines) ==> line in lines && Harmless(Strip(line))
  {
    hide Strip;
    if lines != [] {
      var front := lines[..|lines| - 1];
      KeptIsHarmless(front);
      HeadersAreHeaders(lines[|lines| - 1]);
    }
  }

  lemma {:induction false} KeptAppend(a: seq<string>, b: seq<string>)
    requires ModeOf(a) == Free
    ensures ModeOf(a + b) == ModeOf(b) && Kept(a + b) == Kept(a) + Kept(b)
    decreases |b|
  {
    hide ModeAfter, Drops, ModeOf, Kept;
    if b == [] {
      assert a + b == a;
      assert ModeOf([]) == Free && Kept([]) == [] by { KeptNothing(); }
    } else {
      var front, last := b[..|b| - 1], b[|b| - 1];
      KeptAppend(a, front);
      assert a + b == (a + front) + [last] && b == front + [last];
      KeptSnoc(a + front, last);
      KeptSnoc(front, last);
    }
  }

  lemma KeptNothing()
    ensures ModeOf([]) == Free && Kept([]) == []
  {
  }

  lemma KeptSnoc(front: seq<string>, last: string)
    ensures ModeOf(front + [last]) == ModeAfter(ModeOf(front), last)
    ensures Kept(front + [last]) == if Drops(ModeOf(front), last) then Kept(front) else Kept(front) + [last]
  {
    hide ModeAfter, Drops;
    assert (front + [last])[..|front|] == front;
  }

  lemma {:induction false} AllDropped(lines: seq<string>)
    requires lines != [] && Strip(lines[0]) in CONNECTION_HEADERS
    requires forall line :: line in lines && IsHeader(line) ==> Strip(line) in CONNECTION_HEADERS
    ensures ModeOf(lines) == Section && Kept(lines) == []
    decreases |lines|
  {
    hide Strip;
    HeadersAreHeaders(lines[0]);
    if |lines| > 1 {
      AllDropped(lines[..|lines| - 1]);
    } else {
      assert lines[..0] == [];
    }
  }

  /** Removing the connections keeps exactly the lines outside the connection
      sections, in order, if and only if none of those lines looks like an
      assignment to a name that starts with `connections`. */
  lemma OnlySectionsAreRemovedIff(lines: seq<string>)
    ensures Kept(lines) == Outside(lines, CONNECTION_HEADERS)
            <==> forall line :: line in Outside(lines, CONNECTION_HEADERS) ==> !IsAssignment(line)
  {
    KeptIsHarmless(lines);
    if forall line :: line in Outside(lines, CONNECTION_HEADERS) ==> !IsAssignment(line) {
      WithoutAssignments(lines);
    } else {
      var line :| line in Outside(lines, CONNECTION_HEADERS) && IsAssignment(line);
      assert !Harmless(Strip(line));
    }
  }

  lemma {:induction false} WithoutAssignments(lines: seq<string>)
    requires forall line :: line in Outside(lines, CONNECTION_HEADERS) ==> !IsAssignment(line)
    ensures Kept(lines) == Outside(lines, CONNECTION_HEADERS)
    ensures ModeOf(lines) == if InSection(lines, CONNECTION_HEADERS) then Section else Free
  {
    hide IsHeader, Strip, IsAssignment;
    if lines != [] {
      WithoutAssignments(lines[..|lines| - 1]);
    }
  }

  const OTHER_HEADER := "[osc]"
  const OTHER_SETTING := "connections_timeout = 5"

  lemma SettingOfOtherSection()
    ensures Strip(OTHER_HEADER) == OTHER_HEADER && IsHeader(OTHER_HEADER) && !IsAssignment(OTHER_HEADER)
    ensures Strip(OTHER_SETTING) == OTHER_SETTING && !IsHeader(OTHER_SETTING) && IsAssignment(OTHER_SETTING)
  {
    StripOfVisible(OTHER_HEADER);
    StripOfVisible(OTHER_SETTING);
  }

  lemma LinesOfOtherSection()
    ensures SplitLines(OTHER_HEADER + "\n" + OTHER_SETTING + "\n") == [OTHER_HEADER, OTHER_SETTING]
  {
    hide Split, SplitLines;
    EndsWithNewline(OTHER_HEADER + "\n" + OTHER_SETTING);
    SplitSeparated(OTHER_HEADER, OTHER_SETTING);
    SplitOfOneLine(OTHER_HEADER);
    SplitOfOneLine(OTHER_SETTING);
  }

  /** A file without any connection from which removing the connections takes a
      setting of another section. */
  lemma SettingElsewhereIsRemoved()
    ensures var lines := SplitLines(OTHER_HEADER + "\n" + OTHER_SETTING + "\n");
            && lines == [OTHER_HEADER, OTHER_SETTING]
            && Outside(lines, CONNECTION_HEADERS) == lines && Kept(lines) == [OTHER_HEADER]
  {
    hide Split, SplitLines, Strip, IsAssignment, IsHeader, Kept, ModeOf, Outside, InSection;
    LinesOfOtherSection();
    SettingOfOtherSection();
    NothingToCut([OTHER_HEADER, OTHER_SETTING], CONNECTION_HEADERS);
    KeptNothing();
    KeptSnoc([], OTHER_HEADER);
    KeptSnoc([OTHER_HEADER], OTHER_SETTING);
    assert [] + [OTHER_HEADER] == [OTHER_HEADER];
    assert [OTHER_HEADER] + [OTHER_SETTING] == [OTHER_HEADER, OTHER_SETTING];
  }
}
