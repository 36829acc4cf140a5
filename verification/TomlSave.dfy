/** Saving devices and connections: what the text is afterwards, and that only
    the last save shows. Numbers are given as Python prints them. */
module TomlSave {
  import opened Text
  import opened TomlSections

  // ---- Formatting ----

  function Escape(value: string): (escaped: string) {
    if value == "" then ""
    else
      var c := value[0];
      (if c == '\\' then "\\\\" else if c == '"' then "\\\"" else [c]) + Escape(value[1..])
  }

  function TomlString(value: string): string {
    "\"" + Escape(value) + "\""
  }

  function TomlBool(value: bool): string {
    if value then "true" else "false"
  }

  datatype Connection = Connection(
    id: string, source: string, target: string, modifier: string, factor: string,
    inputMin: string, inputMax: string, outputMin: string, outputMax: string,
    invert: bool, scaleCurve: string, enabled: bool)

  function ConnectionLines(c: Connection): seq<string> {
    ["[[connections]]",
     "id = " + TomlString(c.id),
     "source = " + TomlString(c.source),
     "target = " + TomlString(c.target),
     "modifier = " + TomlString(c.modifier)]
    + (if c.modifier == "factor" then ["factor = " + c.factor]
       else
         ["input_min = " + c.inputMin,
          "input_max = " + c.inputMax,
          "output_min = " + c.outputMin,
          "output_max = " + c.outputMax,
          "invert = " + TomlBool(c.invert)]
         + (if c.scaleCurve != "linear" then ["scale_curve = " + TomlString(c.scaleCurve)] else []))
    + (if !c.enabled then ["enabled = " + TomlBool(c.enabled)] else [])
  }

  /** `feedbackRefresh` is Absent unless the interval is positive. */
  datatype Device = Device(
    uid: string, displayName: string, adapter: string, library: string, libraryKind: string, deviceLabel: string,
    feedbackRefresh: OptionalText, valueChannel: string, displayChannel: string, customPoints: seq<CustomPoint>)

  datatype OptionalText = Absent | Present(text: string)

  datatype CustomPoint = CustomPoint(
    id: string, valueType: string, direction: string, pointLabel: string, valueMin: string, valueMax: string,
    protocol: string, inputMode: string, relativeEncoding: string)

  function Optional(written: bool, line: string): seq<string> {
    if written then [line] else []
  }

  function CustomPointLines(p: CustomPoint): seq<string> {
    ["", "[[devices.custom_points]]", "id = " + TomlString(p.id)]
    + Optional(p.valueType != "float", "value_type = " + TomlString(p.valueType))
    + Optional(p.direction != "bidirectional", "direction = " + TomlString(p.direction))
    + Optional(p.pointLabel != "", "label = " + TomlString(p.pointLabel))
    + Optional(p.valueMin != "0.0", "value_min = " + p.valueMin)
    + Optional(p.valueMax != "127.0", "value_max = " + p.valueMax)
    + Optional(p.protocol != "", "protocol = " + TomlString(p.protocol))
    + Optional(p.inputMode != "", "input_mode = " + TomlString(p.inputMode))
    + Optional(p.relativeEncoding != "", "relative_encoding = " + TomlString(p.relativeEncoding))
  }

  function CustomPointsLines(points: seq<CustomPoint>): seq<string> {
    if points == [] then [] else CustomPointLines(points[0]) + CustomPointsLines(points[1..])
  }

  function DeviceLines(d: Device): seq<string> {
    ["[[devices]]",
     "uid = " + TomlString(d.uid),
     "name = " + TomlString(d.displayName),
     "adapter = " + TomlString(d.adapter)]
    + Optional(d.library != "", "library = " + TomlString(d.library))
    + Optional(d.libraryKind != "", "library_kind = " + TomlString(d.libraryKind))
    + (if d.feedbackRefresh.Present? then ["feedback_refresh_interval = " + d.feedbackRefresh.text] else [])
    + Optional(d.valueChannel != "11", "midi_value_channel = " + d.valueChannel)
    + Optional(d.displayChannel != "12", "midi_display_channel = " + d.displayChannel)
    + CustomPointsLines(d.customPoints)
  }

  /** `"\n\n".join("\n".join(block) for block in blocks) + "\n"` */
  function SectionText(blocks: seq<seq<string>>): string
    requires blocks != []
  {
    BlockTexts(blocks) + "\n"
  }

  function BlockTexts(blocks: seq<seq<string>>): string
    requires blocks != []
  {
    if |blocks| == 1 then Join(blocks[0]) else Join(blocks[0]) + "\n\n" + BlockTexts(blocks[1..])
  }

  function Blocks<T>(items: seq<T>, format: T -> seq<string>): (blocks: seq<seq<string>>)
    ensures |blocks| == |items|
  {
    if items == [] then [] else [format(items[0])] + Blocks(items[1..], format)
  }

  // ---- Saving ----

  function AppendSection(text: string, blocks: seq<seq<string>>): string {
    if blocks != [] then RStrip(text) + "\n\n" + SectionText(blocks) else RStrip(text) + "\n"
  }

  function RemoveConnections(text: string): string {
    RStrip(Join(Kept(SplitLines(text)))) + "\n"
  }

  function SaveConnections(text: string, connections: seq<Connection>): string {
    AppendSection(RemoveConnections(text), Blocks(connections, ConnectionLines))
  }

  function RemoveDevices(text: string): string {
    RStrip(Join(Outside(SplitLines(text), DEVICE_HEADERS))) + "\n"
  }

  /** `devices` in the order of their keys. */
  function SaveDevices(text: string, devices: seq<Device>): string {
    AppendSection(RemoveDevices(text), Blocks(devices, DeviceLines))
  }

  // ---- The lines of a saved text ----

  function Flatten(blocks: seq<seq<string>>): (lines: seq<string>)
    requires blocks != []
  {
    if |blocks| == 1 then blocks[0] else blocks[0] + ([""] + Flatten(blocks[1..]))
  }

  predicate NonEmptyBlocks(blocks: seq<seq<string>>) {
    blocks != [] && blocks[0] != [] && (|blocks| > 1 ==> NonEmptyBlocks(blocks[1..]))
  }

  lemma {:induction false} BlockTextsJoin(blocks: seq<seq<string>>)
    requires NonEmptyBlocks(blocks)
    ensures Flatten(blocks) != [] && Join(Flatten(blocks)) == BlockTexts(blocks)
    decreases |blocks|
  {
    hide Join;
    if |blocks| > 1 {
      var rest := Flatten(blocks[1..]);
      assert Join([""]) == "" by { JoinOfOne(""); }
      BlockTextsJoin(blocks[1..]);
      JoinOfConcatenation([""], rest);
      JoinOfConcatenation(blocks[0], [""] + rest);
      assert "" + "\n" + Join(rest) == "\n" + Join(rest);
      assert Join(blocks[0]) + "\n" + ("\n" + Join(rest)) == Join(blocks[0]) + "\n\n" + Join(rest);
    }
  }

  /** The lines of `base`, an empty line, and the section's own lines. */
  lemma LinesOfSaved(base: string, blocks: seq<seq<string>>)
    requires NonEmptyBlocks(blocks) && AllOneLine(Flatten(blocks))
    ensures SplitLines(base + "\n\n" + SectionText(blocks)) == Split(base) + [""] + Flatten(blocks)
  {
    hide Split, Join, SplitLines, Flatten, AllOneLine;
    var body := BlockTexts(blocks);
    var text := base + "\n\n" + SectionText(blocks);
    assert text == (base + "\n" + ("" + "\n" + body)) + "\n";
    EndsWithNewline(base + "\n" + ("" + "\n" + body));
    SplitSeparated(base, "" + "\n" + body);
    SplitSeparated("", body);
    assert Split("") == [""] by { SplitOfOneLine(""); }
    BlockTextsJoin(blocks);
    SplitOfJoin(Flatten(blocks));
    assert Split(base) + ([""] + Flatten(blocks)) == Split(base) + [""] + Flatten(blocks);
  }

  /** The text that is left of `lines` by a cut, and its lines again. */
  lemma LinesOfRest(lines: seq<string>, p: string -> bool)
    requires AllOneLine(lines) && (forall line :: line in lines ==> p(Strip(line))) && p("")
    ensures forall line :: line in Split(RStrip(Join(lines))) ==> p(Strip(line))
  {
    hide Strip, RStrip;
    if lines == [] {
      assert Strip("") == "" by { StripEmpty(); }
      assert Split(Join(lines)) == [""];
    } else {
      SplitOfJoin(lines);
    }
    RStripKeepsLines(Join(lines), p);
  }

  /** One more empty line at the end of a stripped text is stripped away again. */
  lemma EmptyLineStrips(base: string)
    requires RStrip(base) == base
    ensures RStrip(Join(Split(base) + [""])) == base
  {
    hide Split, Join, RStrip;
    JoinOfSplit(base);
    JoinSnoc(Split(base), "");
    assert base + "\n" + "" == base + ['\n'];
    RStripSpace(base, '\n');
  }

  // ---- Lines that are no headers ----

  predicate Plain(line: string) {
    OneLine(line) && (line == "" || (!IsSpace(line[0]) && line[0] != '['))
  }

  lemma PlainIsNoHeader(line: string)
    requires Plain(line)
    ensures !IsHeader(line)
  {
  }

  lemma {:induction false} EscapeIsOneLine(value: string)
    requires OneLine(value)
    ensures OneLine(Escape(value))
  {
    if value != "" {
      assert forall c :: c in value[1..] ==> c in value;
      EscapeIsOneLine(value[1..]);
    }
  }

  /** The part of a setting up to its value. */
  predicate IsKey(key: string) {
    key != "" && !IsSpace(key[0]) && key[0] != '[' && '\n' !in key
  }

  lemma ConnectionKeys()
    ensures IsKey("id = ") && IsKey("source = ") && IsKey("target = ") && IsKey("modifier = ") && IsKey("factor = ")
    ensures IsKey("input_min = ") && IsKey("input_max = ") && IsKey("output_min = ") && IsKey("output_max = ")
    ensures IsKey("invert = ") && IsKey("scale_curve = ") && IsKey("enabled = ")
  {
  }

  lemma PointKeys()
    ensures IsKey("id = ") && IsKey("value_type = ") && IsKey("direction = ") && IsKey("label = ")
    ensures IsKey("value_min = ") && IsKey("value_max = ") && IsKey("protocol = ")
    ensures IsKey("input_mode = ") && IsKey("relative_encoding = ")
  {
  }

  lemma DeviceKeys()
    ensures IsKey("uid = ") && IsKey("name = ") && IsKey("adapter = ") && IsKey("library = ")
    ensures IsKey("library_kind = ") && IsKey("feedback_refresh_interval = ")
    ensures IsKey("midi_value_channel = ") && IsKey("midi_display_channel = ")
  {
  }

  /** `key = value` is one line, and no header. */
  lemma Setting(key: string, value: string)
    requires IsKey(key) && OneLine(value)
    ensures OneLine(key + value) && Plain(key + value)
  {
  }

  lemma QuotedSetting(key: string, value: string)
    requires IsKey(key) && OneLine(value)
    ensures OneLine(key + TomlString(value)) && Plain(key + TomlString(value))
  {
    EscapeIsOneLine(value);
    Setting(key, TomlString(value));
  }

  lemma FlagSetting(key: string, value: bool)
    requires IsKey(key)
    ensures OneLine(key + TomlBool(value)) && Plain(key + TomlBool(value))
  {
  }

  lemma OneLineHeaders()
    ensures forall h :: h in CONNECTION_HEADERS + DEVICE_HEADERS ==> OneLine(h)
  {
  }

  /** A block may be followed by anything: all its headers are among `headers`. */
  predicate SectionLines(lines: seq<string>, headers: set<string>) {
    forall line :: line in lines ==> OneLine(line) && (Plain(line) || line in headers)
  }

  lemma {:induction false} FlattenedLines(blocks: seq<seq<string>>, first: string, headers: set<string>)
    requires NonEmptyBlocks(blocks) && blocks[0][0] == first
    requires forall block :: block in blocks ==> SectionLines(block, headers)
    ensures Flatten(blocks) != [] && Flatten(blocks)[0] == first && SectionLines(Flatten(blocks), headers)
    decreases |blocks|
  {
    hide OneLine;
    assert blocks[0] in blocks;
    if |blocks| > 1 {
      EmptyIsPlain();
      assert forall block :: block in blocks[1..] ==> block in blocks;
      FlattenedLines(blocks[1..], blocks[1..][0][0], headers);
    }
  }

  lemma EmptyIsPlain()
    ensures Plain("") && OneLine("")
  {
  }

  predicate CleanConnection(c: Connection) {
    && OneLine(c.id) && OneLine(c.source) && OneLine(c.target) && OneLine(c.modifier) && OneLine(c.factor)
    && OneLine(c.inputMin) && OneLine(c.inputMax) && OneLine(c.outputMin) && OneLine(c.outputMax)
    && OneLine(c.scaleCurve)
  }

  lemma ConnectionLinesAreClean(c: Connection)
    requires CleanConnection(c)
    ensures SectionLines(ConnectionLines(c), CONNECTION_HEADERS)
    ensures ConnectionLines(c) != [] && ConnectionLines(c)[0] == "[[connections]]"
  {
    hide Plain, OneLine, TomlString, TomlBool, IsKey;
    ConnectionKeys();
    OneLineHeaders();
    QuotedSetting("id = ", c.id);
    QuotedSetting("source = ", c.source);
    QuotedSetting("target = ", c.target);
    QuotedSetting("modifier = ", c.modifier);
    Setting("factor = ", c.factor);
    Setting("input_min = ", c.inputMin);
    Setting("input_max = ", c.inputMax);
    Setting("output_min = ", c.outputMin);
    Setting("output_max = ", c.outputMax);
    FlagSetting("invert = ", c.invert);
    QuotedSetting("scale_curve = ", c.scaleCurve);
    FlagSetting("enabled = ", c.enabled);
  }

  lemma {:induction false} ConnectionBlocksAreClean(connections: seq<Connection>)
    requires connections != [] && forall c :: c in connections ==> CleanConnection(c)
    ensures var blocks := Blocks(connections, ConnectionLines);
            && NonEmptyBlocks(blocks) && blocks[0][0] == "[[connections]]"
            && forall block :: block in blocks ==> SectionLines(block, CONNECTION_HEADERS)
    decreases |connections|
  {
    hide ConnectionLines, SectionLines, CleanConnection;
    var blocks := Blocks(connections, ConnectionLines);
    ConnectionLinesAreClean(connections[0]);
    assert blocks[1..] == Blocks(connections[1..], ConnectionLines);
    if |connections| > 1 {
      ConnectionBlocksAreClean(connections[1..]);
    }
  }

  // ---- Connections: the last save wins ----

  ghost function ConnectionBase(text: string): string {
    RStrip(Join(Kept(SplitLines(text))))
  }

  /** What is left of a text has nothing more to drop. */
  lemma ConnectionBaseIsHarmless(text: string)
    ensures var base := ConnectionBase(text);
            && RStrip(base) == base
            && forall line :: line in Split(base) + [""] ==> Harmless(Strip(line))
  {
    hide Strip, RStrip;
    var lines := SplitLines(text);
    KeptIsHarmless(lines);
    SplitLinesIsOneLine(text);
    LinesOfRest(Kept(lines), Harmless);
    RStripRest(Join(Kept(lines)));
    StripEmpty();
  }

  lemma ConnectionBaseOfSaved(text: string, connections: seq<Connection>)
    requires forall c :: c in connections ==> CleanConnection(c)
    ensures ConnectionBase(SaveConnections(text, connections)) == ConnectionBase(text)
  {
    hide RStrip, Join, Split, SplitLines, Strip, Kept, ModeOf, ConnectionLines;
    var base, blocks := ConnectionBase(text), Blocks(connections, ConnectionLines);
    ConnectionBaseIsHarmless(text);
    StripOfRemoved(base);
    if connections == [] {
      EndsWithNewline(base);
      NothingToDrop(Split(base));
      JoinOfSplit(base);
    } else {
      ConnectionBlocksAreClean(connections);
      FlattenedLines(blocks, "[[connections]]", CONNECTION_HEADERS);
      LinesOfSaved(base, blocks);
      NothingToDrop(Split(base) + [""]);
      SectionIsDropped(Flatten(blocks));
      KeptAppend(Split(base) + [""], Flatten(blocks));
      assert Split(base) + [""] + [] == Split(base) + [""];
      EmptyLineStrips(base);
    }
  }

  lemma StripOfRemoved(base: string)
    requires RStrip(base) == base
    ensures RStrip(base + "\n") == base
  {
    hide RStrip;
    RStripSpace(base, '\n');
  }

  lemma SectionIsDropped(lines: seq<string>)
    requires lines != [] && lines[0] == "[[connections]]" && SectionLines(lines, CONNECTION_HEADERS)
    ensures ModeOf(lines) == Section && Kept(lines) == []
  {
    HeadersStripToThemselves();
    forall line | line in lines && IsHeader(line)
      ensures Strip(line) in CONNECTION_HEADERS
    {
      if Plain(line) {
        PlainIsNoHeader(line);
      }
    }
    AllDropped(lines);
  }

  lemma HeadersStripToThemselves()
    ensures forall h :: h in CONNECTION_HEADERS + DEVICE_HEADERS ==> Strip(h) == h && IsHeader(h)
  {
    StripOfVisible("[[connections]]");
    StripOfVisible("[connections]");
    StripOfVisible("[[devices]]");
    StripOfVisible("[[devices.custom_points]]");
  }

  /** Saving connections is last-write-wins, removing them twice is removing them
      once, and saving none is the same as removing them. */
  lemma SavingConnectionsIsLastWriteWins(text: string, first: seq<Connection>, second: seq<Connection>)
    requires forall c :: c in first ==> CleanConnection(c)
    ensures SaveConnections(SaveConnections(text, first), second) == SaveConnections(text, second)
    ensures RemoveConnections(SaveConnections(text, first)) == RemoveConnections(text)
    ensures RemoveConnections(RemoveConnections(text)) == RemoveConnections(text) == SaveConnections(text, [])
  {
    ConnectionBaseOfSaved(text, first);
    ConnectionBaseOfSaved(text, []);
    ConnectionBaseIsHarmless(text);
    StripOfRemoved(ConnectionBase(text));
  }

  // ---- Devices: the last save wins ----

  predicate CleanPoint(p: CustomPoint) {
    && OneLine(p.id) && OneLine(p.valueType) && OneLine(p.direction) && OneLine(p.pointLabel)
    && OneLine(p.valueMin) && OneLine(p.valueMax) && OneLine(p.protocol) && OneLine(p.inputMode)
    && OneLine(p.relativeEncoding)
  }

  predicate CleanDevice(d: Device) {
    && OneLine(d.uid) && OneLine(d.displayName) && OneLine(d.adapter) && OneLine(d.library) && OneLine(d.libraryKind)
    && (d.feedbackRefresh.Present? ==> OneLine(d.feedbackRefresh.text))
    && OneLine(d.valueChannel) && OneLine(d.displayChannel)
    && forall p :: p in d.customPoints ==> CleanPoint(p)
  }

  /** One more line, if it is written at all. */
  lemma OneMoreIsClean(lines: seq<string>, written: bool, line: string, headers: set<string>)
    requires SectionLines(lines, headers) && OneLine(line) && Plain(line)
    ensures SectionLines(lines + Optional(written, line), headers)
  {
    hide Plain, OneLine;
  }

  lemma PointLinesAreClean(p: CustomPoint)
    requires CleanPoint(p)
    ensures SectionLines(CustomPointLines(p), DEVICE_HEADERS)
  {
    hide Plain, OneLine, TomlString, IsKey, Optional, SectionLines;
    PointKeys();
    var head := ["", "[[devices.custom_points]]", "id = " + TomlString(p.id)];
    assert SectionLines(head, DEVICE_HEADERS) by { PointHeadIsClean(p); }
    QuotedSetting("value_type = ", p.valueType);
    OneMoreIsClean(head, p.valueType != "float", "value_type = " + TomlString(p.valueType), DEVICE_HEADERS);
    var typed := head + Optional(p.valueType != "float", "value_type = " + TomlString(p.valueType));
    QuotedSetting("direction = ", p.direction);
    OneMoreIsClean(typed, p.direction != "bidirectional", "direction = " + TomlString(p.direction), DEVICE_HEADERS);
    var directed := typed + Optional(p.direction != "bidirectional", "direction = " + TomlString(p.direction));
    QuotedSetting("label = ", p.pointLabel);
    OneMoreIsClean(directed, p.pointLabel != "", "label = " + TomlString(p.pointLabel), DEVICE_HEADERS);
    var named := directed + Optional(p.pointLabel != "", "label = " + TomlString(p.pointLabel));
    assert SectionLines(named, DEVICE_HEADERS);
    PointTailIsClean(named, p);
  }

  lemma PointHeadIsClean(p: CustomPoint)
    requires OneLine(p.id)
    ensures SectionLines(["", "[[devices.custom_points]]", "id = " + TomlString(p.id)], DEVICE_HEADERS)
  {
    hide Plain, OneLine, TomlString, IsKey;
    PointKeys();
    OneLineHeaders();
    EmptyIsPlain();
    QuotedSetting("id = ", p.id);
  }

  lemma PointTailIsClean(named: seq<string>, p: CustomPoint)
    requires CleanPoint(p) && SectionLines(named, DEVICE_HEADERS)
    ensures SectionLines(named + Optional(p.valueMin != "0.0", "value_min = " + p.valueMin)
                         + Optional(p.valueMax != "127.0", "value_max = " + p.valueMax)
                         + Optional(p.protocol != "", "protocol = " + TomlString(p.protocol))
                         + Optional(p.inputMode != "", "input_mode = " + TomlString(p.inputMode))
                         + Optional(p.relativeEncoding != "", "relative_encoding = " + TomlString(p.relativeEncoding)),
                         DEVICE_HEADERS)
  {
    hide Plain, OneLine, TomlString, IsKey, Optional, SectionLines;
    PointKeys();
    Setting("value_min = ", p.valueMin);
    OneMoreIsClean(named, p.valueMin != "0.0", "value_min = " + p.valueMin, DEVICE_HEADERS);
    var low := named + Optional(p.valueMin != "0.0", "value_min = " + p.valueMin);
    Setting("value_max = ", p.valueMax);
    OneMoreIsClean(low, p.valueMax != "127.0", "value_max = " + p.valueMax, DEVICE_HEADERS);
    var high := low + Optional(p.valueMax != "127.0", "value_max = " + p.valueMax);
    QuotedSetting("protocol = ", p.protocol);
    OneMoreIsClean(high, p.protocol != "", "protocol = " + TomlString(p.protocol), DEVICE_HEADERS);
    var spoken := high + Optional(p.protocol != "", "protocol = " + TomlString(p.protocol));
    QuotedSetting("input_mode = ", p.inputMode);
    OneMoreIsClean(spoken, p.inputMode != "", "input_mode = " + TomlString(p.inputMode), DEVICE_HEADERS);
    var moded := spoken + Optional(p.inputMode != "", "input_mode = " + TomlString(p.inputMode));
    QuotedSetting("relative_encoding = ", p.relativeEncoding);
    OneMoreIsClean(moded, p.relativeEncoding != "", "relative_encoding = " + TomlString(p.relativeEncoding), DEVICE_HEADERS);
  }

  lemma {:induction false} PointsLinesAreClean(points: seq<CustomPoint>)
    requires forall p :: p in points ==> CleanPoint(p)
    ensures SectionLines(CustomPointsLines(points), DEVICE_HEADERS)
    decreases |points|
  {
    hide CustomPointLines, CleanPoint, Plain, OneLine;
    if points != [] {
      PointLinesAreClean(points[0]);
      PointsLinesAreClean(points[1..]);
    }
  }

  lemma DeviceLinesAreClean(d: Device)
    requires CleanDevice(d)
    ensures SectionLines(DeviceLines(d), DEVICE_HEADERS)
    ensures DeviceLines(d) != [] && DeviceLines(d)[0] == "[[devices]]"
  {
    hide CleanPoint, CustomPointsLines;
    hide Plain, OneLine, TomlString, TomlBool, IsKey;
    DeviceKeys();
    OneLineHeaders();
    QuotedSetting("uid = ", d.uid);
    QuotedSetting("name = ", d.displayName);
    QuotedSetting("adapter = ", d.adapter);
    QuotedSetting("library = ", d.library);
    QuotedSetting("library_kind = ", d.libraryKind);
    if d.feedbackRefresh.Present? {
      Setting("feedback_refresh_interval = ", d.feedbackRefresh.text);
    }
    Setting("midi_value_channel = ", d.valueChannel);
    Setting("midi_display_channel = ", d.displayChannel);
    PointsLinesAreClean(d.customPoints);
  }

  lemma {:induction false} DeviceBlocksAreClean(devices: seq<Device>)
    requires devices != [] && forall d :: d in devices ==> CleanDevice(d)
    ensures var blocks := Blocks(devices, DeviceLines);
            && NonEmptyBlocks(blocks) && blocks[0][0] == "[[devices]]"
            && forall block :: block in blocks ==> SectionLines(block, DEVICE_HEADERS)
    decreases |devices|
  {
    hide DeviceLines, SectionLines, CleanDevice;
    var blocks := Blocks(devices, DeviceLines);
    DeviceLinesAreClean(devices[0]);
    assert blocks[1..] == Blocks(devices[1..], DeviceLines);
    if |devices| > 1 {
      DeviceBlocksAreClean(devices[1..]);
    }
  }

  ghost function DeviceBase(text: string): string {
    RStrip(Join(Outside(SplitLines(text), DEVICE_HEADERS)))
  }

  predicate NoDeviceHeader(stripped: string) {
    stripped !in DEVICE_HEADERS
  }

  lemma DeviceBaseHasNoHeaders(text: string)
    ensures var base := DeviceBase(text);
            && RStrip(base) == base
            && forall line :: line in Split(base) + [""] ==> Strip(line) !in DEVICE_HEADERS
  {
    hide Strip, RStrip, Split, Join, Outside;
    var lines := SplitLines(text);
    var kept := Outside(lines, DEVICE_HEADERS);
    OutsideHasNoHeader(lines, DEVICE_HEADERS);
    SplitLinesIsOneLine(text);
    LinesOfRest(kept, NoDeviceHeader);
    assert forall line :: line in Split(DeviceBase(text)) ==> NoDeviceHeader(Strip(line));
    RStripRest(Join(kept));
    StripEmpty();
  }

  lemma DeviceBaseOfSaved(text: string, devices: seq<Device>)
    requires forall d :: d in devices ==> CleanDevice(d)
    ensures DeviceBase(SaveDevices(text, devices)) == DeviceBase(text)
  {
    hide RStrip, Join, Split, SplitLines, Strip, Outside, InSection, DeviceLines;
    var base, blocks := DeviceBase(text), Blocks(devices, DeviceLines);
    DeviceBaseHasNoHeaders(text);
    StripOfRemoved(base);
    if devices == [] {
      EndsWithNewline(base);
      NothingToCut(Split(base), DEVICE_HEADERS);
      JoinOfSplit(base);
    } else {
      DeviceBlocksAreClean(devices);
      FlattenedLines(blocks, "[[devices]]", DEVICE_HEADERS);
      LinesOfSaved(base, blocks);
      NothingToCut(Split(base) + [""], DEVICE_HEADERS);
      DeviceSectionIsCut(Flatten(blocks));
      OutsideAppend(Split(base) + [""], Flatten(blocks), DEVICE_HEADERS);
      assert Split(base) + [""] + [] == Split(base) + [""];
      EmptyLineStrips(base);
    }
  }

  lemma DeviceSectionIsCut(lines: seq<string>)
    requires lines != [] && lines[0] == "[[devices]]" && SectionLines(lines, DEVICE_HEADERS)
    ensures InSection(lines, DEVICE_HEADERS) && Outside(lines, DEVICE_HEADERS) == []
  {
    HeadersStripToThemselves();
    forall line | line in lines && IsHeader(line)
      ensures Strip(line) in DEVICE_HEADERS
    {
      if Plain(line) {
        PlainIsNoHeader(line);
      }
    }
    AllCut(lines, DEVICE_HEADERS);
  }

  /** Saving devices, nested custom points included, is last-write-wins, and
      removing them twice is removing them once. */
  lemma SavingDevicesIsLastWriteWins(text: string, first: seq<Device>, second: seq<Device>)
    requires forall d :: d in first ==> CleanDevice(d)
    ensures SaveDevices(SaveDevices(text, first), second) == SaveDevices(text, second)
    ensures RemoveDevices(SaveDevices(text, first)) == RemoveDevices(text)
    ensures RemoveDevices(RemoveDevices(text)) == RemoveDevices(text) == SaveDevices(text, [])
  {
    DeviceBaseOfSaved(text, first);
    DeviceBaseOfSaved(text, []);
    DeviceBaseHasNoHeaders(text);
    StripOfRemoved(DeviceBase(text));
  }
}
