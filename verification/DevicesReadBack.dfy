/** What a saved text says about its devices and their custom points. */
module DevicesReadBack {
  import opened Common
  import opened Text
  import opened TomlSections
  import opened TomlSave
  import opened TomlReadBack
  import MidiLibrary

  // ---- Reading custom points ----

  /** One table of custom points, or nothing where the program raises. */
  function ReadPoint(settings: seq<string>): Option<CustomPoint> {
    var id := Strip(ReadText(settings, "id", ""));
    if id == "" then None
    else Some(CustomPoint(id, ReadText(settings, "value_type", "float"), ReadText(settings, "direction", "bidirectional"),
                          ReadText(settings, "label", ""),
                          ReadNumber(settings, "value_min", "0.0"), ReadNumber(settings, "value_max", "127.0"),
                          ReadText(settings, "protocol", ""), ReadText(settings, "input_mode", ""),
                          ReadText(settings, "relative_encoding", "")))
  }

  function PointEntries(p: CustomPoint): (entries: seq<Entry>)
    ensures |entries| == 9
  {
    [Entry(true, "id", TomlString(p.id)),
     Entry(p.valueType != "float", "value_type", TomlString(p.valueType)),
     Entry(p.direction != "bidirectional", "direction", TomlString(p.direction)),
     Entry(p.pointLabel != "", "label", TomlString(p.pointLabel)),
     Entry(p.valueMin != "0.0", "value_min", p.valueMin),
     Entry(p.valueMax != "127.0", "value_max", p.valueMax),
     Entry(p.protocol != "", "protocol", TomlString(p.protocol)),
     Entry(p.inputMode != "", "input_mode", TomlString(p.inputMode)),
     Entry(p.relativeEncoding != "", "relative_encoding", TomlString(p.relativeEncoding))]
  }

  const POINT_KEYS: seq<string> := ["id", "value_type", "direction", "label", "value_min", "value_max",
                                    "protocol", "input_mode", "relative_encoding"]

  lemma PointKeysAreNames()
    ensures forall key :: key in POINT_KEYS ==> IsName(key)
    ensures forall i, j :: 0 <= i < j < |POINT_KEYS| ==> Tells(POINT_KEYS[i], POINT_KEYS[j])
  {
  }

  lemma PointEntriesAreNames(p: CustomPoint)
    ensures Names(PointEntries(p))
  {
    hide TomlString, Names, IsName, Tells;
    PointKeysAreNames();
    assert Keys(PointEntries(p)) == POINT_KEYS;
    AreNames(PointEntries(p), POINT_KEYS);
  }

  lemma PointTexts()
    ensures "id" + " = " == "id = " && "value_type" + " = " == "value_type = " && "direction" + " = " == "direction = "
    ensures "label" + " = " == "label = " && "value_min" + " = " == "value_min = " && "value_max" + " = " == "value_max = "
    ensures "protocol" + " = " == "protocol = " && "input_mode" + " = " == "input_mode = "
    ensures "relative_encoding" + " = " == "relative_encoding = "
  {
  }

  lemma LinesOfPoint(p: CustomPoint)
    ensures CustomPointLines(p) == ["", "[[devices.custom_points]]"] + Lines(PointEntries(p))
  {
    hide TomlString, Lines, Optional;
    var front, entries := ["", "[[devices.custom_points]]"], PointEntries(p);
    PointTexts();
    LineOfId(p);
    OneMoreEntry(front, entries, 1);
    OneMoreEntry(front, entries, 2);
    OneMoreEntry(front, entries, 3);
    OneMoreEntry(front, entries, 4);
    OneMoreEntry(front, entries, 5);
    OneMoreEntry(front, entries, 6);
    OneMoreEntry(front, entries, 7);
    OneMoreEntry(front, entries, 8);
    assert entries[..9] == entries;
  }

  lemma LineOfId(p: CustomPoint)
    ensures ["", "[[devices.custom_points]]"] + Lines(PointEntries(p)[..1])
            == ["", "[[devices.custom_points]]", "id = " + TomlString(p.id)]
  {
    hide TomlString, Lines, Optional;
    var entries := PointEntries(p)[..1];
    PointTexts();
    AllWritten(entries, 0, 1);
    NoLines(entries[1..]);
    assert entries[0..] == entries == entries[0..1];
    assert Texts(entries)[0] == "id = " + TomlString(p.id);
    assert Lines(entries) == Texts(entries);
  }

  /** A custom point is read as it was written, but for blanks around its id. */
  lemma PointIsReadBack(p: CustomPoint)
    ensures ReadPoint(Lines(PointEntries(p))) == if Strip(p.id) == "" then None else Some(p.(id := Strip(p.id)))
  {
    hide Names, Lines, Lookup, ReadString, TomlString, Strip;
    PointEntriesAreNames(p);
    var entries := PointEntries(p);
    LookupFinds(entries, 0);
    LookupFinds(entries, 1);
    LookupFinds(entries, 2);
    LookupFinds(entries, 3);
    LookupFinds(entries, 4);
    LookupFinds(entries, 5);
    LookupFinds(entries, 6);
    LookupFinds(entries, 7);
    LookupFinds(entries, 8);
    StringIsReadBack(p.id);
    StringIsReadBack(p.valueType);
    StringIsReadBack(p.direction);
    StringIsReadBack(p.pointLabel);
    StringIsReadBack(p.protocol);
    StringIsReadBack(p.inputMode);
    StringIsReadBack(p.relativeEncoding);
  }

  function ReadPoints(tables: seq<seq<string>>): (points: seq<Option<CustomPoint>>)
    ensures |points| == |tables|
  {
    seq(|tables|, i requires 0 <= i < |tables| => ReadPoint(tables[i]))
  }

  // ---- Reading devices ----

  /** The settings of a device, and those of each of its custom points. */
  datatype DeviceTable = DeviceTable(settings: seq<string>, points: seq<seq<string>>)

  /** Custom points belong to the device above them. */
  function Devices(tables: seq<Table>): (devices: seq<DeviceTable>) {
    if tables == [] then [] else WithTable(Devices(tables[..|tables| - 1]), tables[|tables| - 1])
  }

  function WithTable(devices: seq<DeviceTable>, table: Table): (more: seq<DeviceTable>) {
    if table.header == "[[devices]]" then devices + [DeviceTable(table.settings, [])]
    else if table.header == "[[devices.custom_points]]" && devices != [] then
      var last := devices[|devices| - 1];
      devices[..|devices| - 1] + [last.(points := last.points + [table.settings])]
    else devices
  }

  predicate IsUid(uid: string) {
    uid != "" && forall c :: c in uid ==>
      'a' <= c <= 'z' || 'A' <= c <= 'Z' || '0' <= c <= '9' || c == '.' || c == '_' || c == '-'
  }

  predicate IsChannel(number: string) {
    number in {"1", "2", "3", "4", "5", "6", "7", "8", "9", "10", "11", "12", "13", "14", "15", "16"}
  }

  /** The first of two texts that is not blank. */
  function FirstOf(text: string, other: string): string {
    if text != "" then text else other
  }

  /** One device of the list, or nothing where the program raises. The adapter is
      not looked up and the range of the interval not checked. */
  function ReadDevice(table: DeviceTable): Option<Device> {
    var settings, points := table.settings, ReadPoints(table.points);
    var adapter, library := Strip(ReadText(settings, "adapter", "")), Strip(ReadText(settings, "library", ""));
    var legacy, named := Strip(ReadText(settings, "id", "")), Strip(ReadText(settings, "name", ""));
    var described := Strip(ReadText(settings, "label", ""));
    var uid := FirstOf(Strip(ReadText(settings, "uid", "")), legacy);
    var displayName := FirstOf(named, FirstOf(described, FirstOf(legacy, uid)));
    var refresh := Lookup(settings, "feedback_refresh_interval");
    var value, display := Lookup(settings, "midi_value_channel"), Lookup(settings, "midi_display_channel");
    var compact := library == MidiLibrary.COMPACT;
    if adapter == "" || !IsUid(uid) || ':' in displayName || None in points then None
    else if (value.Some? && !IsChannel(value.value)) || (display.Some? && !IsChannel(display.value)) then None
    else if !MidiLibrary.IsXTouch(library) && (refresh.Some? || value.Some? || display.Some?) then None
    else Some(Device(uid, displayName, adapter, library, Strip(ReadText(settings, "library_kind", "")), described,
                     if refresh.Some? then Present(refresh.value) else Absent,
                     if value.Some? then value.value else if compact then "1" else "11",
                     if display.Some? then display.value else if compact then "1" else "12",
                     AllRead(points)))
  }

  function AllRead(points: seq<Option<CustomPoint>>): (read: seq<CustomPoint>)
    requires None !in points
    ensures |read| == |points| && forall i :: 0 <= i < |read| ==> points[i] == Some(read[i])
  {
    if points == [] then [] else [points[0].value] + AllRead(points[1..])
  }

  /** All devices of a text, in order. */
  function ReadDevices(text: string): (devices: seq<Option<Device>>) {
    ReadTables(Devices(Tables(Visible(SplitLines(text)))))
  }

  function ReadTables(tables: seq<DeviceTable>): (devices: seq<Option<Device>>)
    ensures |devices| == |tables|
  {
    seq(|tables|, i requires 0 <= i < |tables| => ReadDevice(tables[i]))
  }

  // ---- What is read of a saved device ----

  function Entries(d: Device): (entries: seq<Entry>)
    ensures |entries| == 10
  {
    [Entry(true, "uid", TomlString(d.uid)),
     Entry(true, "name", TomlString(d.displayName)),
     Entry(true, "adapter", TomlString(d.adapter)),
     Entry(d.library != "", "library", TomlString(d.library)),
     Entry(d.libraryKind != "", "library_kind", TomlString(d.libraryKind)),
     Entry(d.feedbackRefresh.Present?, "feedback_refresh_interval",
           if d.feedbackRefresh.Present? then d.feedbackRefresh.text else ""),
     Entry(d.valueChannel != "11", "midi_value_channel", d.valueChannel),
     Entry(d.displayChannel != "12", "midi_display_channel", d.displayChannel),
     Entry(false, "id", ""),
     Entry(false, "label", "")]
  }

  const KEYS: seq<string> := ["uid", "name", "adapter", "library", "library_kind", "feedback_refresh_interval",
                              "midi_value_channel", "midi_display_channel", "id", "label"]

  lemma KeysAreNames()
    ensures forall key :: key in KEYS ==> IsName(key)
  {
    hide IsName;
    LongNames();
    ShortNames();
  }

  lemma ShortNames()
    ensures IsName("uid") && IsName("name") && IsName("adapter") && IsName("id") && IsName("label")
  {
  }

  lemma LongNames()
    ensures IsName("library") && IsName("library_kind") && IsName("feedback_refresh_interval")
    ensures IsName("midi_value_channel") && IsName("midi_display_channel")
  {
  }

  lemma KeysTell()
    ensures forall i, j :: 0 <= i < j < |KEYS| ==> Tells(KEYS[i], KEYS[j])
  {
  }

  lemma EntriesAreNames(d: Device)
    ensures Names(Entries(d))
  {
    hide TomlString, Names, IsName, Tells;
    KeysAreNames();
    KeysTell();
    assert Keys(Entries(d)) == KEYS;
    AreNames(Entries(d), KEYS);
  }

  lemma KeyTexts()
    ensures "uid" + " = " == "uid = " && "name" + " = " == "name = " && "adapter" + " = " == "adapter = "
    ensures "library" + " = " == "library = " && "library_kind" + " = " == "library_kind = "
    ensures "feedback_refresh_interval" + " = " == "feedback_refresh_interval = "
    ensures "midi_value_channel" + " = " == "midi_value_channel = "
    ensures "midi_display_channel" + " = " == "midi_display_channel = "
  {
  }

  lemma LinesOfEntries(d: Device)
    ensures DeviceLines(d) == ["[[devices]]"] + Lines(Entries(d)) + CustomPointsLines(d.customPoints)
  {
    hide TomlString, Lines, CustomPointsLines, Optional;
    var front, entries := ["[[devices]]"], Entries(d);
    KeyTexts();
    LinesOfIdentity(d);
    OneMoreEntry(front, entries, 3);
    OneMoreEntry(front, entries, 4);
    OneMoreEntry(front, entries, 5);
    LineOfRefresh(d);
    OneMoreEntry(front, entries, 6);
    OneMoreEntry(front, entries, 7);
    NotWritten(front, entries, 8);
    NotWritten(front, entries, 9);
    assert entries[..10] == entries;
  }

  lemma LineOfRefresh(d: Device)
    ensures Optional(Entries(d)[5].written, "feedback_refresh_interval = " + Entries(d)[5].value)
            == if d.feedbackRefresh.Present? then ["feedback_refresh_interval = " + d.feedbackRefresh.text] else []
  {
  }

  lemma LinesOfIdentity(d: Device)
    ensures ["[[devices]]"] + Lines(Entries(d)[..3])
            == ["[[devices]]", "uid = " + TomlString(d.uid), "name = " + TomlString(d.displayName),
                "adapter = " + TomlString(d.adapter)]
  {
    hide TomlString, Lines, Optional;
    var entries := Entries(d)[..3];
    KeyTexts();
    AllWritten(entries, 0, 3);
    NoLines(entries[3..]);
    assert entries[0..] == entries == entries[0..3];
    assert Texts(entries)[0] == "uid = " + TomlString(d.uid);
    assert Texts(entries)[1] == "name = " + TomlString(d.displayName);
    assert Texts(entries)[2] == "adapter = " + TomlString(d.adapter);
    assert Lines(entries) == Texts(entries);
  }

  // ---- Devices that are read as they were ----

  function DisplayName(d: Device): string {
    if Strip(d.displayName) == "" then Strip(d.uid) else Strip(d.displayName)
  }

  /** A device that the program accepts when it reads it: only the libraries of
      the X-Touch controllers may have an interval and channels. */
  predicate Readable(d: Device) {
    && Strip(d.adapter) != "" && IsUid(Strip(d.uid)) && ':' !in DisplayName(d)
    && (d.valueChannel == "11" || IsChannel(d.valueChannel)) && (d.displayChannel == "12" || IsChannel(d.displayChannel))
    && (Strip(d.library) in {"behringer_xtouch_compact", "behringer_xtouch_mini"}
        || (d.feedbackRefresh.Absent? && d.valueChannel == "11" && d.displayChannel == "12"))
    && forall p :: p in d.customPoints ==> Strip(p.id) != ""
  }

  /** What is read: no label, no blanks around names, and for the compact
      controller its own channels in place of 11 and 12. */
  function Stored(d: Device): Device {
    var compact := Strip(d.library) == "behringer_xtouch_compact";
    Device(Strip(d.uid), DisplayName(d), Strip(d.adapter), Strip(d.library), Strip(d.libraryKind), "",
           d.feedbackRefresh,
           if compact && d.valueChannel == "11" then "1" else d.valueChannel,
           if compact && d.displayChannel == "12" then "1" else d.displayChannel,
           StoredPoints(d.customPoints))
  }

  function StoredPoints(points: seq<CustomPoint>): (stored: seq<CustomPoint>)
    ensures |stored| == |points| && forall i :: 0 <= i < |points| ==> stored[i] == points[i].(id := Strip(points[i].id))
  {
    seq(|points|, i requires 0 <= i < |points| => points[i].(id := Strip(points[i].id)))
  }

  function ReadBack(d: Device): Option<Device> {
    if Readable(d) then Some(Stored(d)) else None
  }

  function PointSettings(points: seq<CustomPoint>): (tables: seq<seq<string>>)
    ensures |tables| == |points| && forall i :: 0 <= i < |points| ==> tables[i] == Lines(PointEntries(points[i]))
  {
    seq(|points|, i requires 0 <= i < |points| => Lines(PointEntries(points[i])))
  }

  lemma PointsAreReadBack(points: seq<CustomPoint>)
    ensures var read := ReadPoints(PointSettings(points));
            && (None in read <==> exists p :: p in points && Strip(p.id) == "")
            && (None !in read ==> AllRead(read) == StoredPoints(points))
  {
    hide Strip, ReadPoint, PointEntries, Lines;
    var read := ReadPoints(PointSettings(points));
    forall i | 0 <= i < |points|
      ensures read[i] == if Strip(points[i].id) == "" then None else Some(points[i].(id := Strip(points[i].id)))
    {
      PointIsReadBack(points[i]);
    }
    if i :| 0 <= i < |points| && Strip(points[i].id) == "" {
      assert read[i] in read;
    }
    if None !in read {
      forall i | 0 <= i < |points|
        ensures AllRead(read)[i] == StoredPoints(points)[i]
      {
        assert read[i] in read;
      }
    }
  }

  lemma TableIsReadBack(d: Device)
    ensures ReadDevice(DeviceTable(Lines(Entries(d)), PointSettings(d.customPoints))) == ReadBack(d)
  {
    hide Names, Lines, Lookup, ReadString, TomlString, Strip, IsUid, IsChannel, AllRead, ReadPoints, PointSettings, StoredPoints;
    EntriesAreNames(d);
    var entries := Entries(d);
    LookupFinds(entries, 0);
    LookupFinds(entries, 1);
    LookupFinds(entries, 2);
    LookupFinds(entries, 3);
    LookupFinds(entries, 4);
    LookupFinds(entries, 5);
    LookupFinds(entries, 6);
    LookupFinds(entries, 7);
    LookupFinds(entries, 8);
    LookupFinds(entries, 9);
    StringIsReadBack(d.uid);
    StringIsReadBack(d.displayName);
    StringIsReadBack(d.adapter);
    StringIsReadBack(d.library);
    StringIsReadBack(d.libraryKind);
    StripEmpty();
    PointsAreReadBack(d.customPoints);
  }

  // ---- Saving and reading a text ----

  /** Texts without line breaks, and numbers as Python prints them. */
  predicate IsSavablePoint(p: CustomPoint) {
    CleanPoint(p) && Printed(p.valueMin) && Printed(p.valueMax)
  }

  predicate IsSavable(d: Device) {
    && CleanDevice(d) && Printed(d.valueChannel) && Printed(d.displayChannel)
    && (d.feedbackRefresh.Present? ==> Printed(d.feedbackRefresh.text))
    && forall p :: p in d.customPoints ==> IsSavablePoint(p)
  }

  function PointTable(p: CustomPoint): Table {
    Table("[[devices.custom_points]]", Lines(PointEntries(p)))
  }

  function PointTables(points: seq<CustomPoint>): (tables: seq<Table>)
    ensures |tables| == |points| && forall i :: 0 <= i < |points| ==> tables[i] == PointTable(points[i])
  {
    seq(|points|, i requires 0 <= i < |points| => PointTable(points[i]))
  }

  /** The tables of a device: its own, and one for each custom point. */
  function DeviceTables(d: Device): (tables: seq<Table>) {
    [Table("[[devices]]", Lines(Entries(d)))] + PointTables(d.customPoints)
  }

  function AllTables(devices: seq<Device>): (tables: seq<Table>) {
    if devices == [] then [] else DeviceTables(devices[0]) + AllTables(devices[1..])
  }

  lemma HeadersAreTrim()
    ensures forall h :: h in DEVICE_HEADERS ==> OneLine(h) && Trim([h]) && IsHeader(h)
  {
    hide Strip;
    OneLineHeaders();
    HeadersStripToThemselves();
  }

  lemma PointEntriesArePrinted(p: CustomPoint)
    requires IsSavablePoint(p)
    ensures AllPrinted(PointEntries(p))
  {
    hide TomlString, Printed, OneLine;
    PrintedString(p.id);
    PrintedString(p.valueType);
    PrintedString(p.direction);
    PrintedString(p.pointLabel);
    PrintedString(p.protocol);
    PrintedString(p.inputMode);
    PrintedString(p.relativeEncoding);
  }

  lemma EntriesArePrinted(d: Device)
    requires IsSavable(d)
    ensures AllPrinted(Entries(d))
  {
    hide TomlString, Printed, OneLine;
    PrintedString(d.uid);
    PrintedString(d.displayName);
    PrintedString(d.adapter);
    PrintedString(d.library);
    PrintedString(d.libraryKind);
  }

  lemma LinesOfPointAreBlock(p: CustomPoint)
    requires IsSavablePoint(p)
    ensures var lines := CustomPointLines(p);
            && AllOneLine(lines) && Visible(lines) != [] && IsHeader(Visible(lines)[0])
            && Tables(Visible(lines)) == [PointTable(p)]
  {
    hide Lines, Visible, Tables, IsHeader, OneLine, Names, AllPrinted, CustomPointLines, PointEntries, IsSavablePoint;
    var header := "[[devices.custom_points]]";
    var block := [header] + Lines(PointEntries(p));
    PointEntriesAreNames(p);
    PointEntriesArePrinted(p);
    HeadersAreTrim();
    TableOfBlock(header, PointEntries(p));
    LinesOfPoint(p);
    EmptyIsPlain();
    EmptyIsInvisible();
    VisibleAppend([""], block);
    assert ["", header] + Lines(PointEntries(p)) == [""] + block;
    assert [] + Visible(block) == Visible(block);
  }

  lemma {:induction false} LinesOfPointsAreBlocks(points: seq<CustomPoint>)
    requires forall p :: p in points ==> IsSavablePoint(p)
    ensures var lines := CustomPointsLines(points);
            && AllOneLine(lines) && Tables(Visible(lines)) == PointTables(points)
            && (if points == [] then lines == [] else Visible(lines) != [] && IsHeader(Visible(lines)[0]))
    decreases |points|
  {
    hide Visible, Tables, IsHeader, OneLine, CustomPointLines, IsSavablePoint, PointTable;
    if points == [] {
      NoTables();
    } else {
      var first, rest := CustomPointLines(points[0]), CustomPointsLines(points[1..]);
      LinesOfPointAreBlock(points[0]);
      LinesOfPointsAreBlocks(points[1..]);
      VisibleAppend(first, rest);
      assert PointTables(points) == [PointTable(points[0])] + PointTables(points[1..]);
      if points[1..] == [] {
        NoTables();
        assert Visible(first) + [] == Visible(first);
      } else {
        TablesAppend(Visible(first), Visible(rest));
      }
    }
  }

  lemma NoTables()
    ensures Visible([]) == [] && Tables([]) == []
  {
  }

  lemma LinesOfDeviceAreBlock(d: Device)
    requires IsSavable(d)
    ensures IsBlock(DeviceLines(d)) && Tables(Visible(DeviceLines(d))) == DeviceTables(d)
  {
    hide Lines, Visible, Tables, IsHeader, OneLine, Names, AllPrinted, DeviceLines, Entries, CustomPointsLines, PointTables, IsSavablePoint;
    var header := "[[devices]]";
    var block, rest := [header] + Lines(Entries(d)), CustomPointsLines(d.customPoints);
    EntriesAreNames(d);
    EntriesArePrinted(d);
    HeadersAreTrim();
    TableOfBlock(header, Entries(d));
    LinesOfEntries(d);
    LinesOfPointsAreBlocks(d.customPoints);
    VisibleAppend(block, rest);
    if d.customPoints == [] {
      NoTables();
      assert Visible(block) + [] == Visible(block);
    } else {
      TablesAppend(Visible(block), Visible(rest));
    }
  }

  lemma {:induction false} BlocksOfDevices(devices: seq<Device>)
    requires forall d :: d in devices ==> IsSavable(d)
    ensures forall block :: block in Blocks(devices, DeviceLines) ==> IsBlock(block)
    ensures TablesOfBlocks(Blocks(devices, DeviceLines)) == AllTables(devices)
    decreases |devices|
  {
    hide IsSavable, DeviceLines, IsBlock, Tables, Visible, DeviceTables;
    if devices != [] {
      LinesOfDeviceAreBlock(devices[0]);
      BlocksOfDevices(devices[1..]);
      assert Blocks(devices, DeviceLines)[1..] == Blocks(devices[1..], DeviceLines);
    }
  }

  function Group(d: Device): DeviceTable {
    DeviceTable(Lines(Entries(d)), PointSettings(d.customPoints))
  }

  function Groups(devices: seq<Device>): (groups: seq<DeviceTable>)
    ensures |groups| == |devices| && forall i :: 0 <= i < |devices| ==> groups[i] == Group(devices[i])
  {
    seq(|devices|, i requires 0 <= i < |devices| => Group(devices[i]))
  }

  lemma OneMoreTable(tables: seq<Table>, table: Table)
    ensures Devices(tables + [table]) == WithTable(Devices(tables), table)
  {
    assert (tables + [table])[..|tables|] == tables;
  }

  /** Custom points are added to the device above them, in order. */
  lemma {:induction false} PointsJoinDevice(tables: seq<Table>, d: DeviceTable, front: seq<DeviceTable>, points: seq<CustomPoint>)
    requires Devices(tables) == front + [d]
    ensures Devices(tables + PointTables(points)) == front + [d.(points := d.points + PointSettings(points))]
    decreases |points|
  {
    hide Devices, Lines, PointEntries;
    if points == [] {
      assert tables + PointTables(points) == tables && d.points + PointSettings(points) == d.points;
    } else {
      var before, last := points[..|points| - 1], points[|points| - 1];
      PointsJoinDevice(tables, d, front, before);
      OneMoreTable(tables + PointTables(before), PointTable(last));
      assert tables + PointTables(points) == tables + PointTables(before) + [PointTable(last)];
      assert d.points + PointSettings(points) == d.points + PointSettings(before) + [Lines(PointEntries(last))];
    }
  }

  lemma DeviceIsGrouped(tables: seq<Table>, d: Device)
    ensures Devices(tables + DeviceTables(d)) == Devices(tables) + [Group(d)]
  {
    hide Devices, Lines, Entries, PointTables, PointSettings;
    var own := Table("[[devices]]", Lines(Entries(d)));
    OneMoreTable(tables, own);
    PointsJoinDevice(tables + [own], DeviceTable(own.settings, []), Devices(tables), d.customPoints);
    assert tables + DeviceTables(d) == tables + [own] + PointTables(d.customPoints);
    assert [] + PointSettings(d.customPoints) == PointSettings(d.customPoints);
  }

  lemma Associative<T>(a: seq<T>, b: seq<T>, c: seq<T>)
    ensures a + (b + c) == a + b + c
  {
  }

  lemma FirstDevice(devices: seq<Device>)
    requires devices != []
    ensures AllTables(devices) == DeviceTables(devices[0]) + AllTables(devices[1..])
    ensures Groups(devices) == [Group(devices[0])] + Groups(devices[1..])
  {
    hide DeviceTables, Group;
  }

  lemma {:induction false} DevicesAreGrouped(tables: seq<Table>, devices: seq<Device>)
    ensures Devices(tables + AllTables(devices)) == Devices(tables) + Groups(devices)
    decreases |devices|
  {
    if devices == [] {
      assert tables + [] == tables && Devices(tables) + Groups(devices) == Devices(tables);
    } else {
      hide Devices, DeviceTables, Group, AllTables, Groups;
      var first, rest := devices[0], devices[1..];
      DeviceIsGrouped(tables, first);
      DevicesAreGrouped(tables + DeviceTables(first), rest);
      FirstDevice(devices);
      Associative(tables, DeviceTables(first), AllTables(rest));
      Associative(Devices(tables), [Group(first)], Groups(rest));
    }
  }

  lemma {:induction false} NoDeviceTables(tables: seq<Table>)
    requires forall t :: t in tables ==> t.header !in DEVICE_HEADERS
    ensures Devices(tables) == []
  {
    if tables != [] {
      NoDeviceTables(tables[..|tables| - 1]);
    }
  }

  lemma KeptHasNoDevices(lines: seq<string>)
    ensures Devices(Tables(Visible(Outside(lines, DEVICE_HEADERS)))) == []
  {
    hide Strip, Outside, Tables;
    var kept := Outside(lines, DEVICE_HEADERS);
    OutsideHasNoHeader(lines, DEVICE_HEADERS);
    VisibleIsKept(kept, NoDeviceHeader);
    HeadersAreLines(Visible(kept));
    NoDeviceTables(Tables(Visible(kept)));
  }

  lemma TablesOfSavedDevices(text: string, devices: seq<Device>)
    requires forall d :: d in devices ==> IsSavable(d)
    ensures Tables(Visible(SplitLines(SaveDevices(text, devices))))
            == Tables(Visible(Outside(SplitLines(text), DEVICE_HEADERS))) + AllTables(devices)
  {
    hide RStrip, Join, SplitLines, Outside, Visible, Tables, IsSavable, IsBlock, AppendSection, OneLine, DeviceLines;
    var lines := SplitLines(text);
    OutsideHasNoHeader(lines, DEVICE_HEADERS);
    SplitLinesIsOneLine(text);
    BlocksOfDevices(devices);
    TablesOfSaved(Outside(lines, DEVICE_HEADERS), Blocks(devices, DeviceLines));
  }

  /** A saved text has the tables of the lines that are kept, and behind them each
      device with its custom points. Reading it gives the saved devices in order,
      and no other. */
  lemma SavedDevicesAreReadBack(text: string, devices: seq<Device>)
    requires forall d :: d in devices ==> IsSavable(d)
    ensures var saved := SaveDevices(text, devices);
            && Tables(Visible(SplitLines(saved)))
               == Tables(Visible(Outside(SplitLines(text), DEVICE_HEADERS))) + AllTables(devices)
            && |ReadDevices(saved)| == |devices|
            && forall i :: 0 <= i < |devices| ==> ReadDevices(saved)[i] == ReadBack(devices[i])
  {
    hide SaveDevices, SplitLines, Outside, Visible, Tables, Devices, IsSavable, ReadBack, ReadDevice, Group, AllTables;
    var kept := Tables(Visible(Outside(SplitLines(text), DEVICE_HEADERS)));
    TablesOfSavedDevices(text, devices);
    KeptHasNoDevices(SplitLines(text));
    DevicesAreGrouped(kept, devices);
    assert [] + Groups(devices) == Groups(devices);
    forall i | 0 <= i < |devices|
      ensures ReadDevice(Groups(devices)[i]) == ReadBack(devices[i])
    {
      GroupIsReadBack(devices[i]);
    }
  }

  lemma GroupIsReadBack(d: Device)
    ensures ReadDevice(Group(d)) == ReadBack(d)
  {
    TableIsReadBack(d);
  }

  lemma UidIsVisible(uid: string)
    requires IsUid(uid)
    ensures uid != "" && Strip(uid) == uid
  {
    hide Strip;
    assert uid[0] in uid && uid[|uid| - 1] in uid;
    StripOfVisible(uid);
  }

  /** A readable device survives unchanged exactly when it has no label, no blanks
      around its names, and is no compact controller on the channels that only the
      other controller has by default. */
  lemma DeviceSurvivesIff(d: Device)
    requires Readable(d)
    ensures ReadBack(d) == Some(d) <==>
            && d.deviceLabel == "" && Strip(d.uid) == d.uid && Strip(d.adapter) == d.adapter
            && Strip(d.library) == d.library && Strip(d.libraryKind) == d.libraryKind
            && d.displayName != "" && Strip(d.displayName) == d.displayName
            && (forall p :: p in d.customPoints ==> Strip(p.id) == p.id)
            && (d.library == "behringer_xtouch_compact" ==> d.valueChannel != "11" && d.displayChannel != "12")
  {
    hide Strip, IsUid, IsChannel;
    UidIsVisible(Strip(d.uid));
    StripEmpty();
    var stored := StoredPoints(d.customPoints);
    if forall p :: p in d.customPoints ==> Strip(p.id) == p.id {
      assert stored == d.customPoints;
    }
    if stored == d.customPoints {
      forall p | p in d.customPoints
        ensures Strip(p.id) == p.id
      {
        var i :| 0 <= i < |d.customPoints| && d.customPoints[i] == p;
        assert stored[i] == p;
      }
    }
  }

  lemma CompactOnChannelElevenIsReadAsOne()
    ensures var d := Device("pad", "Pad", "midi", "behringer_xtouch_compact", "", "", Absent, "11", "5", []);
            ReadBack(d) == Some(d.(valueChannel := "1"))
  {
    StripOfVisible("pad");
    StripOfVisible("Pad");
    StripOfVisible("midi");
    StripOfVisible("behringer_xtouch_compact");
    StripEmpty();
    assert StoredPoints([]) == [];
  }
}
