/** Reading a saved text back: its tables, their settings, and the connections
    that the settings describe. The reader knows what is ever saved: headers and
    lines of the form `key = value`, with quoted strings, numbers and flags. */
module TomlReadBack {
  import opened Common
  import opened Text
  import opened TomlSections
  import opened TomlSave

  // ---- Strings ----

  const QUOTE := "\""

  function Prepend(c: char, rest: Option<string>): Option<string> {
    match rest
    case Some(text) => Some([c] + text)
    case None => None
  }

  /** The text before the closing quote, provided that quote ends the value. */
  function UpToQuote(s: string): Option<string> {
    if s == "" then None
    else if s[0] == '"' then (if s == "\"" then Some("") else None)
    else if s[0] != '\\' then Prepend(s[0], UpToQuote(s[1..]))
    else if |s| >= 2 && (s[1] == '\\' || s[1] == '"') then Prepend(s[1], UpToQuote(s[2..]))
    else None
  }

  function ReadString(value: string): Option<string> {
    if value != "" && value[0] == '"' then UpToQuote(value[1..]) else None
  }

  lemma {:induction false} EscapedIsRead(value: string)
    ensures UpToQuote(Escape(value) + QUOTE) == Some(value)
  {
    if value == "" {
      assert Escape(value) + "\"" == "\"";
    } else {
      var c, rest := value[0], Escape(value[1..]) + "\"";
      EscapedIsRead(value[1..]);
      var all := Escape(value) + "\"";
      if c == '\\' || c == '"' {
        assert all == ['\\', c] + rest && all[2..] == rest;
      } else {
        assert all == [c] + rest && all[1..] == rest;
      }
      assert value == [c] + value[1..];
    }
  }

  /** Every string is read back as it was written, whatever quotes it contains. */
  lemma StringIsReadBack(value: string)
    ensures ReadString(TomlString(value)) == Some(value)
  {
    EscapedIsRead(value);
    assert TomlString(value)[1..] == Escape(value) + "\"";
  }

  lemma {:induction false} EscapeAppend(a: string, b: string)
    ensures Escape(a + b) == Escape(a) + Escape(b)
    decreases |a|
  {
    if a == "" {
      assert a + b == b && Escape(a) + Escape(b) == Escape(b);
    } else {
      EscapeAppend(a[1..], b);
      assert (a + b)[1..] == a[1..] + b;
      assert Escape(a + b) == Escape([a[0]]) + (Escape(a[1..]) + Escape(b)) by { EscapeOne(a + b); }
      assert Escape(a) == Escape([a[0]]) + Escape(a[1..]) by { EscapeOne(a); }
    }
  }

  lemma EscapeOne(s: string)
    requires s != ""
    ensures Escape(s) == Escape([s[0]]) + Escape(s[1..])
  {
    assert [s[0]][1..] == "" && Escape("") == "";
  }

  /** Without its closing quote nothing is read. */
  lemma {:induction false} UnclosedIsNone(value: string)
    ensures UpToQuote(Escape(value)) == None
  {
    if value != "" {
      var c, rest := value[0], Escape(value[1..]);
      UnclosedIsNone(value[1..]);
      if c == '\\' || c == '"' {
        assert Escape(value) == ['\\', c] + rest && Escape(value)[2..] == rest;
      } else {
        assert Escape(value) == [c] + rest && Escape(value)[1..] == rest;
      }
    }
  }

  /** In a text, which is read line by line, a string survives exactly when it
      has no line break: those are not escaped. */
  lemma StringSurvivesIff(value: string)
    ensures ReadString(Split(TomlString(value))[0]) == Some(value) <==> OneLine(value)
    ensures !OneLine(value) ==> ReadString(Split(TomlString(value))[0]) == None
  {
    hide Split, Escape, UpToQuote;
    if OneLine(value) {
      EscapeIsOneLine(value);
      SplitOfOneLine(TomlString(value));
      StringIsReadBack(value);
    } else {
      var n :| 0 <= n < |value| && value[n] == '\n' && '\n' !in value[..n] by { FirstBreak(value); }
      var a, b := value[..n], value[n + 1..];
      assert value == a + "\n" + b;
      EscapeAppend(a + "\n", b);
      EscapeAppend(a, "\n");
      assert Escape("\n") == "\n" by { EscapedBreak(); }
      assert TomlString(value) == ("\"" + Escape(a)) + "\n" + (Escape(b) + "\"");
      SplitSeparated("\"" + Escape(a), Escape(b) + "\"");
      EscapeIsOneLine(a);
      SplitOfOneLine("\"" + Escape(a));
      UnclosedIsNone(a);
      assert ("\"" + Escape(a))[1..] == Escape(a);
    }
  }

  lemma EscapedBreak()
    ensures Escape("\n") == "\n"
  {
  }

  lemma {:induction false} FirstBreak(s: string)
    requires '\n' in s
    ensures exists n :: 0 <= n < |s| && s[n] == '\n' && '\n' !in s[..n]
  {
    var front := s[..|s| - 1];
    if '\n' in front {
      FirstBreak(front);
      var n :| 0 <= n < |front| && front[n] == '\n' && '\n' !in front[..n];
      assert front[..n] == s[..n];
    }
  }

  // ---- Settings ----

  /** The value of the first line for `key`. */
  function Lookup(settings: seq<string>, key: string): Option<string> {
    if settings == [] then None
    else if key + " = " <= settings[0] then Some(settings[0][|key| + 3..])
    else Lookup(settings[1..], key)
  }

  function ReadText(settings: seq<string>, key: string, default: string): string {
    match Lookup(settings, key)
    case None => default
    case Some(value) => if ReadString(value).Some? then ReadString(value).value else value
  }

  /** Numbers stay as they are printed. */
  function ReadNumber(settings: seq<string>, key: string, default: string): string {
    match Lookup(settings, key)
    case None => default
    case Some(value) => value
  }

  /** `true` or `false`; nothing for any other text, which is no TOML. */
  function ReadFlag(settings: seq<string>, key: string, default: bool): Option<bool> {
    match Lookup(settings, key)
    case None => Some(default)
    case Some(value) => if value == "true" then Some(true) else if value == "false" then Some(false) else None
  }

  /** One setting of a table, and whether it is written at all. */
  datatype Entry = Entry(written: bool, key: string, value: string)

  function Lines(entries: seq<Entry>): (lines: seq<string>) {
    if entries == [] then [] else LineOf(entries[0]) + Lines(entries[1..])
  }

  function LineOf(entry: Entry): seq<string> {
    if entry.written then [entry.key + " = " + entry.value] else []
  }

  predicate IsName(key: string) {
    key != "" && forall c :: c in key ==> 'a' <= c <= 'z' || c == '_'
  }

  predicate Names(entries: seq<Entry>) {
    && (forall i :: 0 <= i < |entries| ==> IsName(entries[i].key))
    && forall i, j :: 0 <= i < j < |entries| ==> entries[i].key != entries[j].key
  }

  function Keys(entries: seq<Entry>): (keys: seq<string>)
    ensures |keys| == |entries| && forall i :: 0 <= i < |keys| ==> keys[i] == entries[i].key
  {
    seq(|entries|, i requires 0 <= i < |entries| => entries[i].key)
  }

  /** Length, first and last letter tell the keys of one table apart. */
  predicate Tells(key: string, other: string) {
    |key| != |other| || (key != "" && (key[0] != other[0] || key[|key| - 1] != other[|key| - 1]))
  }

  lemma AreNames(entries: seq<Entry>, keys: seq<string>)
    requires Keys(entries) == keys && forall key :: key in keys ==> IsName(key)
    requires forall i, j :: 0 <= i < j < |keys| ==> Tells(keys[i], keys[j])
    ensures Names(entries)
  {
    hide IsName;
    assert forall i :: 0 <= i < |entries| ==> entries[i].key == keys[i] && keys[i] in keys;
  }

  lemma NoLines(entries: seq<Entry>)
    requires entries == []
    ensures Lines(entries) == []
  {
  }

  lemma LinesFrom(entries: seq<Entry>, k: nat)
    requires k < |entries|
    ensures Lines(entries[k..]) ==
            Optional(entries[k].written, entries[k].key + " = " + entries[k].value) + Lines(entries[k + 1..])
  {
    assert entries[k..][1..] == entries[k + 1..];
  }

  lemma {:induction false} LinesAppend(a: seq<Entry>, b: seq<Entry>)
    ensures Lines(a + b) == Lines(a) + Lines(b)
    decreases |a|
  {
    hide LineOf;
    if a == [] {
      assert a + b == b;
    } else {
      LinesAppend(a[1..], b);
      assert (a + b)[1..] == a[1..] + b;
      assert Lines(a + b) == LineOf(a[0]) + Lines(a[1..] + b);
    }
  }

  /** The lines of one more setting, behind anything. */
  lemma OneMoreEntry(front: seq<string>, entries: seq<Entry>, k: nat)
    requires k < |entries|
    ensures front + Lines(entries[..k + 1]) ==
            front + Lines(entries[..k]) + Optional(entries[k].written, entries[k].key + " = " + entries[k].value)
  {
    var entry := entries[k];
    assert entries[..k + 1] == entries[..k] + [entry];
    LinesAppend(entries[..k], [entry]);
    assert Lines([entry]) == Optional(entry.written, entry.key + " = " + entry.value);
  }

  lemma NotWritten(front: seq<string>, entries: seq<Entry>, k: nat)
    requires k < |entries| && !entries[k].written
    ensures front + Lines(entries[..k + 1]) == front + Lines(entries[..k])
  {
    OneMoreEntry(front, entries, k);
  }

  lemma {:induction false} NoneWritten(entries: seq<Entry>, k: nat, n: nat)
    requires k <= n <= |entries| && forall i :: k <= i < n ==> !entries[i].written
    ensures Lines(entries[k..]) == Lines(entries[n..])
    decreases n - k
  {
    if k < n {
      LinesFrom(entries, k);
      NoneWritten(entries, k + 1, n);
    }
  }

  function Texts(entries: seq<Entry>): (texts: seq<string>)
    ensures |texts| == |entries|
    ensures forall i :: 0 <= i < |entries| ==> texts[i] == entries[i].key + " = " + entries[i].value
  {
    seq(|entries|, i requires 0 <= i < |entries| => entries[i].key + " = " + entries[i].value)
  }

  lemma {:induction false} AllWritten(entries: seq<Entry>, k: nat, n: nat)
    requires k <= n <= |entries| && forall i :: k <= i < n ==> entries[i].written
    ensures Lines(entries[k..]) == Texts(entries[k..n]) + Lines(entries[n..])
    decreases n - k
  {
    hide Lines;
    if k < n {
      LinesFrom(entries, k);
      AllWritten(entries, k + 1, n);
      assert Texts(entries[k..n]) == [entries[k].key + " = " + entries[k].value] + Texts(entries[k + 1..n]);
    }
  }

  lemma OtherKey(key: string, other: string, value: string)
    requires IsName(key) && IsName(other) && key != other
    ensures !(key + " = " <= other + " = " + value)
  {
    var prefix, line := key + " = ", other + " = " + value;
    if |key| < |other| {
      assert other[|key|] in other && prefix[|key|] == ' ';
      assert line[|key|] == other[|key|] != prefix[|key|];
    } else if |other| < |key| {
      assert key[|other|] in key && line[|other|] == ' ';
      assert line[|other|] != key[|other|] == prefix[|other|];
    } else {
      var i :| 0 <= i < |key| && key[i] != other[i];
      assert prefix[i] != line[i];
    }
  }

  lemma {:induction false} LookupMisses(entries: seq<Entry>, key: string)
    requires IsName(key) && forall i :: 0 <= i < |entries| ==> IsName(entries[i].key) && entries[i].key != key
    ensures Lookup(Lines(entries), key) == None
    decreases |entries|
  {
    hide IsName;
    if entries != [] {
      OtherKey(key, entries[0].key, entries[0].value);
      LookupMisses(entries[1..], key);
      assert Lines(entries[1..]) == Lines(entries) || Lines(entries)[1..] == Lines(entries[1..]);
    }
  }

  /** A written setting is found under its key with its value. */
  lemma {:induction false} LookupFinds(entries: seq<Entry>, i: nat)
    requires i < |entries| && Names(entries)
    ensures Lookup(Lines(entries), entries[i].key) == if entries[i].written then Some(entries[i].value) else None
    decreases |entries|
  {
    hide IsName;
    var first, key, rest := entries[0], entries[i].key, Lines(entries[1..]);
    if first.written {
      assert Lines(entries)[0] == first.key + " = " + first.value && Lines(entries)[1..] == rest;
    } else {
      assert Lines(entries) == rest;
    }
    if i == 0 {
      LookupMisses(entries[1..], key);
    } else {
      OtherKey(key, first.key, first.value);
      LookupFinds(entries[1..], i - 1);
    }
  }

  // ---- Tables ----

  /** The lines that are not blank, stripped. */
  function Visible(lines: seq<string>): (visible: seq<string>) {
    if lines == [] then []
    else
      var front, last := Visible(lines[..|lines| - 1]), Strip(lines[|lines| - 1]);
      if last == "" then front else front + [last]
  }

  datatype Table = Table(header: string, settings: seq<string>)

  /** Each header with the lines up to the next one. */
  function Tables(lines: seq<string>): (tables: seq<Table>) {
    if lines == [] then [] else WithLine(Tables(lines[..|lines| - 1]), lines[|lines| - 1])
  }

  function WithLine(tables: seq<Table>, line: string): (more: seq<Table>) {
    if IsHeader(line) then tables + [Table(line, [])]
    else if tables == [] then []
    else
      var last := tables[|tables| - 1];
      tables[..|tables| - 1] + [last.(settings := last.settings + [line])]
  }

  lemma {:induction false} VisibleAppend(a: seq<string>, b: seq<string>)
    ensures Visible(a + b) == Visible(a) + Visible(b)
    decreases |b|
  {
    hide Strip;
    if b == [] {
      assert a + b == a;
    } else {
      VisibleAppend(a, b[..|b| - 1]);
      assert (a + b)[..|a + b| - 1] == a + b[..|b| - 1];
    }
  }

  /** Lines that are their own strips. */
  predicate Trim(lines: seq<string>) {
    forall line :: line in lines ==> line != "" && Strip(line) == line
  }

  lemma {:induction false} VisibleOfTrim(lines: seq<string>)
    requires Trim(lines)
    ensures Visible(lines) == lines
  {
    hide Strip;
    if lines != [] {
      var front := lines[..|lines| - 1];
      assert forall line :: line in front ==> line in lines;
      VisibleOfTrim(front);
    }
  }

  lemma {:induction false} VisibleIsKept(lines: seq<string>, p: string -> bool)
    requires forall line :: line in lines ==> p(Strip(line))
    ensures forall line :: line in Visible(lines) ==> p(line)
  {
    hide Strip;
    if lines != [] {
      VisibleIsKept(lines[..|lines| - 1], p);
    }
  }

  lemma WithLineBehind(a: seq<Table>, b: seq<Table>, line: string)
    requires b != [] || IsHeader(line)
    ensures WithLine(a + b, line) == a + WithLine(b, line) && WithLine(b, line) != []
  {
    hide IsHeader;
  }

  lemma {:induction false} TablesAppend(a: seq<string>, b: seq<string>)
    requires b != [] && IsHeader(b[0])
    ensures Tables(b) != [] && Tables(a + b) == Tables(a) + Tables(b)
    decreases |b|
  {
    hide IsHeader, WithLine;
    var b', last := b[..|b| - 1], b[|b| - 1];
    assert (a + b)[..|a + b| - 1] == a + b';
    if b' == [] {
      assert a + b' == a && Tables(a) + [] == Tables(a);
    } else {
      TablesAppend(a, b');
    }
    WithLineBehind(Tables(a), Tables(b'), last);
  }

  lemma OneMoreSetting(lines: seq<string>, setting: string, table: Table)
    requires Tables(lines) == [table] && !IsHeader(setting)
    ensures Tables(lines + [setting]) == [table.(settings := table.settings + [setting])]
  {
    hide IsHeader;
    assert (lines + [setting])[..|lines|] == lines;
  }

  /** A header followed by settings is one table. */
  lemma {:induction false} OneTable(header: string, settings: seq<string>)
    requires IsHeader(header) && forall line :: line in settings ==> !IsHeader(line)
    ensures Tables([header] + settings) == [Table(header, settings)]
    decreases |settings|
  {
    hide IsHeader;
    if settings == [] {
      TablesAppend([], [header]);
      assert Tables([header]) == WithLine(Tables([header][..0]), header);
      assert [header] + settings == [header];
    } else {
      hide Tables;
      var front, last := settings[..|settings| - 1], settings[|settings| - 1];
      OneTable(header, front);
      assert last in settings;
      OneMoreSetting([header] + front, last, Table(header, front));
      assert [header] + front + [last] == [header] + settings && front + [last] == settings;
    }
  }

  lemma {:induction false} HeadersAreLines(lines: seq<string>)
    ensures forall t :: t in Tables(lines) ==> t.header in lines
  {
    hide IsHeader;
    if lines != [] {
      HeadersAreLines(lines[..|lines| - 1]);
    }
  }

  /** Cutting blanks off the end changes no visible line. */
  lemma {:induction false} VisibleOfStripped(text: string)
    ensures Visible(Split(RStrip(text))) == Visible(Split(text))
    decreases |text|
  {
    hide Strip;
    if text != "" && IsSpace(text[|text| - 1]) {
      var t, c := text[..|text| - 1], text[|text| - 1];
      var before := Split(t);
      VisibleOfStripped(t);
      if c == '\n' {
        StripEmpty();
        assert (before + [""])[..|before|] == before;
      } else {
        LastLineStrips(before, c);
        SameVisible(before, ExtendLast(before, c));
      }
    }
  }

  lemma SameVisible(a: seq<string>, b: seq<string>)
    requires a != [] && |a| == |b| && a[..|a| - 1] == b[..|b| - 1] && Strip(a[|a| - 1]) == Strip(b[|b| - 1])
    ensures Visible(a) == Visible(b)
  {
    hide Strip;
  }

  /** The text that is left of some lines shows the same visible lines. */
  lemma VisibleOfRest(lines: seq<string>)
    requires AllOneLine(lines)
    ensures Visible(Split(RStrip(Join(lines)))) == Visible(lines)
  {
    hide Strip, Split, RStrip;
    VisibleOfStripped(Join(lines));
    if lines == [] {
      SplitEmpty();
      StripEmpty();
      assert [""][..0] == [];
    } else {
      SplitOfJoin(lines);
    }
  }

  // ---- The tables of a saved text ----

  function TablesOfBlocks(blocks: seq<seq<string>>): (tables: seq<Table>) {
    if blocks == [] then [] else Tables(Visible(blocks[0])) + TablesOfBlocks(blocks[1..])
  }

  /** A block that starts with a header. */
  predicate IsBlock(block: seq<string>) {
    block != [] && AllOneLine(block) && Visible(block) != [] && IsHeader(Visible(block)[0])
  }

  lemma {:induction false} FlattenedBlocks(blocks: seq<seq<string>>)
    requires blocks != [] && forall block :: block in blocks ==> IsBlock(block)
    ensures NonEmptyBlocks(blocks) && AllOneLine(Flatten(blocks))
    ensures var lines := Visible(Flatten(blocks));
            lines != [] && IsHeader(lines[0]) && Tables(lines) == TablesOfBlocks(blocks)
    decreases |blocks|
  {
    hide Visible, IsHeader, Tables, OneLine;
    var block, rest := blocks[0], blocks[1..];
    assert IsBlock(block);
    if rest == [] {
      assert TablesOfBlocks(rest) == [] && Tables(Visible(block)) + [] == Tables(Visible(block));
    } else {
      assert forall b :: b in rest ==> b in blocks;
      FlattenedBlocks(rest);
      VisibleAppend([""], Flatten(rest));
      VisibleAppend(block, [""] + Flatten(rest));
      EmptyIsInvisible();
      EmptyIsPlain();
      assert [] + Visible(Flatten(rest)) == Visible(Flatten(rest));
      TablesAppend(Visible(block), Visible(Flatten(rest)));
    }
  }

  lemma EmptyIsInvisible()
    ensures Visible([""]) == []
  {
    StripEmpty();
    assert [""][..0] == [];
  }

  /** A saved text has the tables of the kept lines, and then those of the blocks. */
  lemma TablesOfSaved(kept: seq<string>, blocks: seq<seq<string>>)
    requires AllOneLine(kept) && forall block :: block in blocks ==> IsBlock(block)
    ensures Tables(Visible(SplitLines(AppendSection(RStrip(Join(kept)) + "\n", blocks))))
            == Tables(Visible(kept)) + TablesOfBlocks(blocks)
  {
    hide RStrip, Join, Split, SplitLines, Flatten, Visible, Tables, IsHeader, IsBlock, OneLine, SectionText;
    var base := RStrip(Join(kept));
    RStripRest(Join(kept));
    RStripSpace(base, '\n');
    assert base + "\n" == base + ['\n'];
    VisibleOfRest(kept);
    if blocks == [] {
      EndsWithNewline(base);
      assert TablesOfBlocks(blocks) == [];
    } else {
      FlattenedBlocks(blocks);
      LinesOfSaved(base, blocks);
      EmptyIsInvisible();
      VisibleAppend(Split(base), [""]);
      VisibleAppend(Split(base) + [""], Flatten(blocks));
      assert Visible(kept) + [] == Visible(kept);
      TablesAppend(Visible(kept), Visible(Flatten(blocks)));
    }
  }

  /** A number as it is printed. */
  predicate Printed(number: string) {
    OneLine(number) && number != "" && !IsSpace(number[|number| - 1])
  }

  lemma EntryLine(entry: Entry)
    requires IsName(entry.key) && Printed(entry.value)
    ensures var line := entry.key + " = " + entry.value;
            OneLine(line) && line != "" && Strip(line) == line && !IsHeader(line)
  {
    hide Strip;
    var line := entry.key + " = " + entry.value;
    assert line[0] == entry.key[0] && entry.key[0] in entry.key;
    assert line[|line| - 1] == entry.value[|entry.value| - 1];
    StripOfVisible(line);
  }

  predicate AllPrinted(entries: seq<Entry>) {
    forall i :: 0 <= i < |entries| && entries[i].written ==> Printed(entries[i].value)
  }

  lemma {:induction false} EntryLines(entries: seq<Entry>)
    requires Names(entries) && AllPrinted(entries)
    ensures Trim(Lines(entries)) && AllOneLine(Lines(entries))
    ensures forall line :: line in Lines(entries) ==> !IsHeader(line)
  {
    hide IsName, Printed, Strip, OneLine, IsHeader;
    if entries != [] {
      if entries[0].written {
        EntryLine(entries[0]);
      }
      EntryLines(entries[1..]);
    }
  }

  lemma PrintedString(value: string)
    requires OneLine(value)
    ensures Printed(TomlString(value))
  {
    EscapeIsOneLine(value);
  }

  /** The block of one table. */
  lemma TableOfBlock(header: string, entries: seq<Entry>)
    requires OneLine(header) && Trim([header]) && IsHeader(header)
    requires Names(entries) && AllPrinted(entries)
    ensures var block := [header] + Lines(entries);
            && IsBlock(block) && Visible(block) == block && Tables(block) == [Table(header, Lines(entries))]
  {
    hide Strip, OneLine, IsHeader, Visible, Tables, Lines, Names, AllPrinted;
    EntryLines(entries);
    var block := [header] + Lines(entries);
    assert header in [header];
    VisibleOfTrim(block);
    OneTable(header, Lines(entries));
  }
}
