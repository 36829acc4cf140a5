/** What a saved text says about its connections: all their settings are read
    back, except those that are not written for a connection of that kind. */
module ConnectionsReadBack {
  import opened Common
  import opened Text
  import opened TomlSections
  import opened TomlSave
  import opened TomlReadBack

  // ---- Reading a connection ----

  const MODIFIERS: set<string> := {"range_map", "passthrough", "factor"}
  const CURVES: set<string> := {"linear", "log_to_linear", "linear_to_log"}

  /** A number as Python prints it is zero. */
  predicate IsZero(number: string) {
    forall c :: c in number ==> c == '0' || c == '.' || c == '-'
  }

  /** One table of the list `connections`, or nothing where the program raises. */
  function ReadConnection(settings: seq<string>): Option<Connection> {
    var id, source, target := ReadText(settings, "id", ""), ReadText(settings, "source", ""), ReadText(settings, "target", "");
    var modifier, factor := ReadText(settings, "modifier", "range_map"), ReadNumber(settings, "factor", "1.0");
    var stripped := Strip(ReadText(settings, "scale_curve", "linear"));
    var curve := if stripped == "" then "linear" else stripped;
    var invert, enabled := ReadFlag(settings, "invert", false), ReadFlag(settings, "enabled", true);
    if id == "" || source == "" || target == "" then None
    else if modifier !in MODIFIERS || curve !in CURVES then None
    else if modifier == "factor" && IsZero(factor) then None
    else if invert.None? || enabled.None? then None
    else Some(Connection(id, source, target, modifier, factor,
                         ReadNumber(settings, "input_min", "0.0"), ReadNumber(settings, "input_max", "1.0"),
                         ReadNumber(settings, "output_min", "0.0"), ReadNumber(settings, "output_max", "127.0"),
                         invert.value, curve, enabled.value))
  }

  /** All connections of a text, in order. */
  function ReadConnections(text: string): (connections: seq<Option<Connection>>) {
    FromTables(Tables(Visible(SplitLines(text))))
  }

  function FromTables(tables: seq<Table>): (connections: seq<Option<Connection>>) {
    if tables == [] then [] else FromTable(tables[0]) + FromTables(tables[1..])
  }

  function FromTable(table: Table): seq<Option<Connection>> {
    if table.header == "[[connections]]" then [ReadConnection(table.settings)] else []
  }

  // ---- What is read of a saved connection ----

  /** The settings of a connection, and which of them are written. */
  function Entries(c: Connection): (entries: seq<Entry>)
    ensures |entries| == 12
  {
    var ranged := c.modifier != "factor";
    [Entry(true, "id", TomlString(c.id)),
     Entry(true, "source", TomlString(c.source)),
     Entry(true, "target", TomlString(c.target)),
     Entry(true, "modifier", TomlString(c.modifier)),
     Entry(!ranged, "factor", c.factor),
     Entry(ranged, "input_min", c.inputMin),
     Entry(ranged, "input_max", c.inputMax),
     Entry(ranged, "output_min", c.outputMin),
     Entry(ranged, "output_max", c.outputMax),
     Entry(ranged, "invert", TomlBool(c.invert)),
     Entry(ranged && c.scaleCurve != "linear", "scale_curve", TomlString(c.scaleCurve)),
     Entry(!c.enabled, "enabled", TomlBool(c.enabled))]
  }

  const KEYS: seq<string> := ["id", "source", "target", "modifier", "factor", "input_min", "input_max",
                              "output_min", "output_max", "invert", "scale_curve", "enabled"]

  lemma KeysAreNames()
    ensures forall key :: key in KEYS ==> IsName(key)
    ensures forall i, j :: 0 <= i < j < |KEYS| ==> Tells(KEYS[i], KEYS[j])
  {
  }

  lemma EntriesAreNames(c: Connection)
    ensures Names(Entries(c))
  {
    hide TomlString, TomlBool, Names, IsName, Tells;
    KeysAreNames();
    assert Keys(Entries(c)) == KEYS;
    AreNames(Entries(c), KEYS);
  }

  lemma KeyTexts()
    ensures "id" + " = " == "id = " && "source" + " = " == "source = " && "target" + " = " == "target = "
    ensures "modifier" + " = " == "modifier = " && "factor" + " = " == "factor = "
    ensures "input_min" + " = " == "input_min = " && "input_max" + " = " == "input_max = "
    ensures "output_min" + " = " == "output_min = " && "output_max" + " = " == "output_max = "
    ensures "invert" + " = " == "invert = " && "scale_curve" + " = " == "scale_curve = "
    ensures "enabled" + " = " == "enabled = "
  {
  }

  /** The reader's settings are the lines that are written. */
  lemma LinesOfEntries(c: Connection)
    ensures ConnectionLines(c) == ["[[connections]]"] + Lines(Entries(c))
  {
    hide TomlString, TomlBool, Lines, Entries;
    LinesOfIdentity(c);
    LinesOfModifier(c);
  }

  lemma LinesOfIdentity(c: Connection)
    ensures Lines(Entries(c)) ==
            ["id = " + TomlString(c.id), "source = " + TomlString(c.source),
             "target = " + TomlString(c.target), "modifier = " + TomlString(c.modifier)] + Lines(Entries(c)[4..])
  {
    hide TomlString, TomlBool, Lines;
    var entries := Entries(c);
    AllWritten(entries, 0, 4);
    KeyTexts();
    assert entries[0..] == entries;
    assert Texts(entries[0..4]) == ["id = " + TomlString(c.id), "source = " + TomlString(c.source),
                                    "target = " + TomlString(c.target), "modifier = " + TomlString(c.modifier)];
  }

  lemma LinesOfModifier(c: Connection)
    ensures Lines(Entries(c)[4..]) ==
            (if c.modifier == "factor" then ["factor = " + c.factor]
             else
               ["input_min = " + c.inputMin, "input_max = " + c.inputMax,
                "output_min = " + c.outputMin, "output_max = " + c.outputMax, "invert = " + TomlBool(c.invert)]
               + Optional(c.scaleCurve != "linear", "scale_curve = " + TomlString(c.scaleCurve)))
            + Optional(!c.enabled, "enabled = " + TomlBool(c.enabled))
  {
    hide TomlString, TomlBool, Lines;
    var entries := Entries(c);
    KeyTexts();
    assert Lines(entries[11..]) == Optional(!c.enabled, "enabled = " + TomlBool(c.enabled)) by {
      LinesFrom(entries, 11);
      NoLines(entries[12..]);
    }
    LinesFrom(entries, 10);
    LinesFrom(entries, 4);
    if c.modifier == "factor" {
      NoneWritten(entries, 5, 11);
    } else {
      AllWritten(entries, 5, 10);
      assert Texts(entries[5..10]) == ["input_min = " + c.inputMin, "input_max = " + c.inputMax,
                                       "output_min = " + c.outputMin, "output_max = " + c.outputMax,
                                       "invert = " + TomlBool(c.invert)];
    }
  }

  /** A connection that the program accepts when it reads it. */
  predicate Readable(c: Connection) {
    && c.id != "" && c.source != "" && c.target != ""
    && c.modifier in {"range_map", "passthrough", "factor"}
    && (if c.modifier == "factor" then !IsZero(c.factor)
        else Strip(c.scaleCurve) in {"", "linear", "log_to_linear", "linear_to_log"})
  }

  /** What is read: a factor connection has the default ranges and curve, any
      other one the default factor. */
  function Stored(c: Connection): Connection {
    if c.modifier == "factor" then
      c.(inputMin := "0.0", inputMax := "1.0", outputMin := "0.0", outputMax := "127.0", invert := false, scaleCurve := "linear")
    else
      c.(factor := "1.0", scaleCurve := if Strip(c.scaleCurve) == "" then "linear" else Strip(c.scaleCurve))
  }

  function ReadBack(c: Connection): Option<Connection> {
    if Readable(c) then Some(Stored(c)) else None
  }

  /** The table of a connection is read as that connection. */
  lemma TableIsReadBack(c: Connection)
    ensures ReadConnection(Lines(Entries(c))) == ReadBack(c)
  {
    hide Lines, Lookup, ReadString, TomlString, IsZero, Strip, Names;
    EntriesAreNames(c);
    var entries := Entries(c);
    LookupFinds(entries, 0);
    LookupFinds(entries, 1);
    LookupFinds(entries, 2);
    LookupFinds(entries, 3);
    LookupFinds(entries, 4);
    LookupFinds(entries, 5);
    LookupFinds(entries, 6);
    LookupFinds(entries, 7);
    LookupFinds(entries, 8);
    LookupFinds(entries, 9);
    LookupFinds(entries, 10);
    LookupFinds(entries, 11);
    StringIsReadBack(c.id);
    StringIsReadBack(c.source);
    StringIsReadBack(c.target);
    StringIsReadBack(c.modifier);
    StringIsReadBack(c.scaleCurve);
    StripOfLinear();
  }

  lemma StripOfLinear()
    ensures Strip("linear") == "linear"
  {
  }

  // ---- Saving and reading a text ----

  predicate HasPrintedNumbers(c: Connection) {
    && Printed(c.factor) && Printed(c.inputMin) && Printed(c.inputMax) && Printed(c.outputMin) && Printed(c.outputMax)
  }

  /** Texts without line breaks, and numbers as Python prints them. */
  predicate IsSavable(c: Connection) {
    CleanConnection(c) && HasPrintedNumbers(c)
  }

  function ConnectionTable(c: Connection): Table {
    Table("[[connections]]", Lines(Entries(c)))
  }

  lemma EntriesArePrinted(c: Connection)
    requires IsSavable(c)
    ensures AllPrinted(Entries(c))
  {
    hide TomlString, TomlBool, Printed, OneLine;
    PrintedString(c.id);
    PrintedString(c.source);
    PrintedString(c.target);
    PrintedString(c.modifier);
    PrintedString(c.scaleCurve);
    PrintedFlag(c.invert);
    PrintedFlag(c.enabled);
  }

  lemma PrintedFlag(flag: bool)
    ensures Printed(TomlBool(flag))
  {
  }

  lemma HeaderIsTrim()
    ensures OneLine("[[connections]]") && Trim(["[[connections]]"]) && IsHeader("[[connections]]")
  {
    hide Strip;
    OneLineHeaders();
    HeadersStripToThemselves();
  }

  lemma BlockOfConnection(c: Connection)
    requires IsSavable(c)
    ensures IsBlock(ConnectionLines(c)) && Tables(Visible(ConnectionLines(c))) == [ConnectionTable(c)]
  {
    hide Lines, Visible, Tables, IsHeader, IsBlock, OneLine, Names, AllPrinted, ConnectionLines, Entries;
    LinesOfEntries(c);
    EntriesAreNames(c);
    EntriesArePrinted(c);
    HeaderIsTrim();
    TableOfBlock("[[connections]]", Entries(c));
  }

  lemma {:induction false} BlocksOfConnections(connections: seq<Connection>)
    requires forall c :: c in connections ==> IsSavable(c)
    ensures forall block :: block in Blocks(connections, ConnectionLines) ==> IsBlock(block)
    ensures TablesOfBlocks(Blocks(connections, ConnectionLines)) == ConnectionTables(connections)
    decreases |connections|
  {
    hide IsSavable, ConnectionLines, IsBlock, Tables, Visible, ConnectionTable;
    if connections != [] {
      BlockOfConnection(connections[0]);
      BlocksOfConnections(connections[1..]);
      assert Blocks(connections, ConnectionLines)[1..] == Blocks(connections[1..], ConnectionLines);
      assert ConnectionTables(connections)[1..] == ConnectionTables(connections[1..]);
    }
  }

  function ConnectionTables(connections: seq<Connection>): (tables: seq<Table>)
    ensures |tables| == |connections| && forall i :: 0 <= i < |tables| ==> tables[i] == ConnectionTable(connections[i])
  {
    seq(|connections|, i requires 0 <= i < |connections| => ConnectionTable(connections[i]))
  }

  lemma {:induction false} FromTablesAppend(a: seq<Table>, b: seq<Table>)
    ensures FromTables(a + b) == FromTables(a) + FromTables(b)
    decreases |a|
  {
    hide FromTable;
    if a == [] {
      assert a + b == b && [] + FromTables(b) == FromTables(b);
    } else {
      assert (a + b)[1..] == a[1..] + b;
      FromTablesAppend(a[1..], b);
      assert FromTables(a + b) == FromTable(a[0]) + FromTables(a[1..] + b);
    }
  }

  lemma {:induction false} OtherTables(tables: seq<Table>)
    requires forall t :: t in tables ==> t.header != "[[connections]]"
    ensures FromTables(tables) == []
    decreases |tables|
  {
    if tables != [] {
      OtherTables(tables[1..]);
    }
  }

  lemma {:induction false} ReadsTables(connections: seq<Connection>)
    ensures |FromTables(ConnectionTables(connections))| == |connections|
    ensures forall i :: 0 <= i < |connections| ==> FromTables(ConnectionTables(connections))[i] == ReadBack(connections[i])
    decreases |connections|
  {
    hide ReadConnection, ReadBack, Lines, Entries;
    if connections != [] {
      TableIsReadBack(connections[0]);
      ReadsTables(connections[1..]);
      assert ConnectionTables(connections)[1..] == ConnectionTables(connections[1..]);
    }
  }

  lemma KeptHasNoConnections(lines: seq<string>)
    ensures FromTables(Tables(Visible(Kept(lines)))) == []
  {
    hide Strip, Kept, Tables;
    KeptIsHarmless(lines);
    VisibleIsKept(Kept(lines), Harmless);
    HeadersAreLines(Visible(Kept(lines)));
    OtherTables(Tables(Visible(Kept(lines))));
  }

  /** A saved text has the tables of the lines that are kept, each with its
      settings, and behind them one table for each connection. Reading it gives
      the saved connections in order, and no other. */
  lemma SavedConnectionsAreReadBack(text: string, connections: seq<Connection>)
    requires forall c :: c in connections ==> IsSavable(c)
    ensures var saved := SaveConnections(text, connections);
            && Tables(Visible(SplitLines(saved)))
               == Tables(Visible(Kept(SplitLines(text)))) + ConnectionTables(connections)
            && |ReadConnections(saved)| == |connections|
            && forall i :: 0 <= i < |connections| ==> ReadConnections(saved)[i] == ReadBack(connections[i])
  {
    hide SaveConnections, SplitLines, Kept, Visible, Tables, FromTables, IsSavable, ReadBack, ConnectionTable;
    var kept, tables := Tables(Visible(Kept(SplitLines(text)))), ConnectionTables(connections);
    TablesOfSavedConnections(text, connections);
    KeptHasNoConnections(SplitLines(text));
    ReadsTables(connections);
    FromTablesAppend(kept, tables);
    assert [] + FromTables(tables) == FromTables(tables);
  }

  lemma TablesOfSavedConnections(text: string, connections: seq<Connection>)
    requires forall c :: c in connections ==> IsSavable(c)
    ensures Tables(Visible(SplitLines(SaveConnections(text, connections))))
            == Tables(Visible(Kept(SplitLines(text)))) + ConnectionTables(connections)
  {
    hide RStrip, Join, SplitLines, Kept, Visible, Tables, IsSavable, IsBlock, AppendSection, Harmless, OneLine, ConnectionLines;
    var lines := SplitLines(text);
    KeptIsHarmless(lines);
    SplitLinesIsOneLine(text);
    BlocksOfConnections(connections);
    TablesOfSaved(Kept(lines), Blocks(connections, ConnectionLines));
  }

  /** A connection survives unchanged exactly when it is readable and the settings
      that are not written for its kind have their defaults. */
  lemma ConnectionSurvivesIff(c: Connection)
    ensures ReadBack(c) == Some(c) <==>
            && c.id != "" && c.source != "" && c.target != "" && c.modifier in {"range_map", "passthrough", "factor"}
            && c.scaleCurve in {"linear", "log_to_linear", "linear_to_log"}
            && (if c.modifier == "factor" then
                  && c.inputMin == "0.0" && c.inputMax == "1.0" && c.outputMin == "0.0" && c.outputMax == "127.0"
                  && !c.invert && c.scaleCurve == "linear" && exists d :: d in c.factor && d !in "0.-"
                else c.factor == "1.0")
  {
    hide Strip;
    StripOfCurves();
  }

  lemma StripOfCurves()
    ensures Strip("") == "" && Strip("linear") == "linear"
    ensures Strip("log_to_linear") == "log_to_linear" && Strip("linear_to_log") == "linear_to_log"
  {
    StripOfVisible("linear");
    StripOfVisible("log_to_linear");
    StripOfVisible("linear_to_log");
    StripEmpty();
  }

  lemma FactorConnectionLosesInversion()
    ensures var c := Connection("c", "a.x", "b.y", "factor", "2.0", "0.0", "1.0", "0.0", "127.0", true, "linear", true);
            ReadBack(c) == Some(c.(invert := false))
  {
    var c := Connection("c", "a.x", "b.y", "factor", "2.0", "0.0", "1.0", "0.0", "127.0", true, "linear", true);
    assert c.factor[0] == '2' && c.factor[0] in c.factor;
  }
}
