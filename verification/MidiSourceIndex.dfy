/** The lookup tables that resolve incoming MIDI messages, against a plain scan of
    the controller library. */
module MidiSourceIndex {
  import opened Common
  import opened MidiLibrary

  const NOTE_OFF := 0x80
  const NOTE_ON := 0x90
  const CONTROL_CHANGE := 0xB0
  const PROGRAM_CHANGE := 0xC0
  const PITCH_BEND := 0xE0

  type Table<!K> = map<K, seq<MidiParameter>>

  datatype Index = Index(
    byNote: Table<(int, int)>,
    byControlChange: Table<(int, int)>,
    byProgramChange: Table<(int, int)>,
    byPitchBend: Table<int>,
    byNoteNumber: Table<int>,
    byControlNumber: Table<int>)

  const EMPTY_INDEX := Index(map[], map[], map[], map[], map[], map[])

  /** One entry of one of the six tables. */
  datatype Slot =
    | NoteSlot(channel: int, number: int)
    | ControlSlot(channel: int, number: int)
    | ProgramSlot(channel: int, number: int)
    | BendSlot(channel: int)
    | NoteNumberSlot(number: int)
    | ControlNumberSlot(number: int)

  function Get<K>(table: Table<K>, key: K): seq<MidiParameter> {
    if key in table then table[key] else []
  }

  function Append<K>(table: Table<K>, key: K, p: MidiParameter): Table<K> {
    table[key := Get(table, key) + [p]]
  }

  function Entry(index: Index, slot: Slot): seq<MidiParameter> {
    match slot
    case NoteSlot(channel, number) => Get(index.byNote, (channel, number))
    case ControlSlot(channel, number) => Get(index.byControlChange, (channel, number))
    case ProgramSlot(channel, number) => Get(index.byProgramChange, (channel, number))
    case BendSlot(channel) => Get(index.byPitchBend, channel)
    case NoteNumberSlot(number) => Get(index.byNoteNumber, number)
    case ControlNumberSlot(number) => Get(index.byControlNumber, number)
  }

  // ---- What the tables should hold ----

  predicate MatchesPort(p: MidiParameter, port: Option<string>) {
    p.port == if port.None? then "" else port.value
  }

  /** A parameter that can be received through this setup. */
  predicate IsInput(p: MidiParameter, setup: Setup) {
    && (p.direction == "source" || p.direction == "bidirectional")
    && MatchesPort(p, setup.port)
    && p.midiChannel.Some?
  }

  /** A parameter is received exactly when it is no mere target, is of the port
      that the library is used with, or of none, and has a channel. */
  lemma IsInputIff(p: MidiParameter, port: string, adapter: Option<Adapter>, device: Option<Device>)
    ensures IsInput(p, Setup(Some(port), adapter, device)) <==>
            p.direction in {"source", "bidirectional"} && p.port == port && p.midiChannel.Some?
    ensures IsInput(p, Setup(None, adapter, device)) <==>
            p.direction in {"source", "bidirectional"} && p.port == "" && p.midiChannel.Some?
  {
  }

  predicate OnChannel(p: MidiParameter, setup: Setup, channel: int) {
    setup.ChannelOf(p) == Ok(channel)
  }

  /** Whether a scan for this slot would pick the parameter. */
  predicate Fills(p: MidiParameter, setup: Setup, slot: Slot) {
    IsInput(p, setup) &&
    match slot
    case NoteSlot(channel, number) => p.messageType == "note" && p.number == Some(number) && OnChannel(p, setup, channel)
    case ControlSlot(channel, number) =>
      p.messageType == "control_change" && p.number == Some(number) && OnChannel(p, setup, channel)
    case ProgramSlot(channel, number) =>
      p.messageType == "program_change" && p.number == Some(number) && OnChannel(p, setup, channel)
    case BendSlot(channel) => p.messageType == "pitch_bend" && OnChannel(p, setup, channel)
    case NoteNumberSlot(number) => p.messageType == "note" && p.number == Some(number)
    case ControlNumberSlot(number) => p.messageType == "control_change" && p.number == Some(number)
  }

  /** The parameters of a library that pass, in library order. */
  function Select(library: seq<MidiParameter>, passes: MidiParameter -> bool): (found: seq<MidiParameter>)
    ensures forall p :: p in found <==> p in library && passes(p)
  {
    if library == [] then []
    else
      var p := library[|library| - 1];
      var before := Select(library[..|library| - 1], passes);
      if passes(p) then before + [p] else before
  }

  function Scan(library: seq<MidiParameter>, setup: Setup, slot: Slot): seq<MidiParameter> {
    Select(library, p => Fills(p, setup, slot))
  }

  /** Every entry of the index is what a scan of the library finds. */
  ghost predicate Indexes(index: Index, library: seq<MidiParameter>, setup: Setup) {
    forall slot :: Entry(index, slot) == Scan(library, setup, slot)
  }

  // ---- Building the tables ----

  lemma ScanSnoc(library: seq<MidiParameter>, p: MidiParameter, setup: Setup, slot: Slot)
    ensures Scan(library + [p], setup, slot)
         == if Fills(p, setup, slot) then Scan(library, setup, slot) + [p] else Scan(library, setup, slot)
  {
    hide Fills;
    assert (library + [p])[..|library|] == library;
  }

  /** One more parameter: every slot that it fills gets it, no other changes. */
  ghost predicate Adds(before: Index, after: Index, p: MidiParameter, setup: Setup) {
    forall slot :: Entry(after, slot) == if Fills(p, setup, slot) then Entry(before, slot) + [p] else Entry(before, slot)
  }

  lemma AddedIsIndexed(before: Index, after: Index, library: seq<MidiParameter>, p: MidiParameter, setup: Setup)
    requires Indexes(before, library, setup) && Adds(before, after, p, setup)
    ensures Indexes(after, library + [p], setup)
  {
    hide Entry, Fills, Scan;
    forall slot
      ensures Entry(after, slot) == Scan(library + [p], setup, slot)
    {
      ScanSnoc(library, p, setup, slot);
    }
  }

  lemma NothingAdded(index: Index, p: MidiParameter, setup: Setup)
    requires forall slot :: !Fills(p, setup, slot)
    ensures Adds(index, index, p, setup)
  {
  }

  method BuildSourceIndex(library: seq<MidiParameter>, setup: Setup) returns (r: Result<Index, MidiError>)
    ensures r.Ok? ==> Indexes(r.value, library, setup)
    ensures r.Ok? <==> forall p :: p in library && IsInput(p, setup) ==> setup.ChannelOf(p).Ok?
    ensures r.Err? ==> exists p :: p in library && IsInput(p, setup) && setup.ChannelOf(p) == Err(r.error)
  {
    hide Entry, Fills, Scan;
    var index := EMPTY_INDEX;
    EmptyIndexes(setup);
    for i := 0 to |library|
      invariant Indexes(index, library[..i], setup)
      invariant forall p :: p in library[..i] && IsInput(p, setup) ==> setup.ChannelOf(p).Ok?
    {
      var p := library[i];
      assert library[..i + 1] == library[..i] + [p];
      if IsInput(p, setup) {
        var resolved := setup.ChannelOf(p);
        if resolved.Err? {
          return Err(resolved.error);
        }
        var grown := AddParameter(index, p, resolved.value, setup);
        AddedIsIndexed(index, grown, library[..i], p, setup);
        index := grown;
      } else {
        NoInputFillsNothing(p, setup);
        NothingAdded(index, p, setup);
        AddedIsIndexed(index, index, library[..i], p, setup);
      }
    }
    assert library[..|library|] == library;
    r := Ok(index);
  }

  lemma EmptyIndexes(setup: Setup)
    ensures Indexes(EMPTY_INDEX, [], setup)
  {
  }

  lemma NoInputFillsNothing(p: MidiParameter, setup: Setup)
    requires !IsInput(p, setup)
    ensures forall slot :: !Fills(p, setup, slot)
  {
  }

  lemma Appended<K>(table: Table<K>, key: K, p: MidiParameter)
    ensures forall k :: Get(Append(table, key, p), k) == if k == key then Get(table, key) + [p] else Get(table, k)
  {
  }

  lemma NoteAdds(index: Index, p: MidiParameter, channel: int, number: int, setup: Setup)
    requires IsInput(p, setup) && setup.ChannelOf(p) == Ok(channel) && p.messageType == "note" && p.number == Some(number)
    ensures Adds(index, index.(byNote := Append(index.byNote, (channel, number), p),
                               byNoteNumber := Append(index.byNoteNumber, number, p)), p, setup)
  {
    hide Get, Append, IsInput, Setup.ChannelOf;
    Appended(index.byNote, (channel, number), p);
    Appended(index.byNoteNumber, number, p);
  }

  lemma ControlAdds(index: Index, p: MidiParameter, channel: int, number: int, setup: Setup)
    requires IsInput(p, setup) && setup.ChannelOf(p) == Ok(channel)
    requires p.messageType == "control_change" && p.number == Some(number)
    ensures Adds(index, index.(byControlChange := Append(index.byControlChange, (channel, number), p),
                               byControlNumber := Append(index.byControlNumber, number, p)), p, setup)
  {
    hide Get, Append, IsInput, Setup.ChannelOf;
    Appended(index.byControlChange, (channel, number), p);
    Appended(index.byControlNumber, number, p);
  }

  lemma ProgramAdds(index: Index, p: MidiParameter, channel: int, number: int, setup: Setup)
    requires IsInput(p, setup) && setup.ChannelOf(p) == Ok(channel)
    requires p.messageType == "program_change" && p.number == Some(number)
    ensures Adds(index, index.(byProgramChange := Append(index.byProgramChange, (channel, number), p)), p, setup)
  {
    hide Get, Append, IsInput, Setup.ChannelOf;
    Appended(index.byProgramChange, (channel, number), p);
  }

  lemma BendAdds(index: Index, p: MidiParameter, channel: int, setup: Setup)
    requires IsInput(p, setup) && setup.ChannelOf(p) == Ok(channel) && p.messageType == "pitch_bend"
    ensures Adds(index, index.(byPitchBend := Append(index.byPitchBend, channel, p)), p, setup)
  {
    hide Get, Append, IsInput, Setup.ChannelOf;
    Appended(index.byPitchBend, channel, p);
  }

  predicate IsSupported(p: MidiParameter) {
    || p.messageType == "pitch_bend"
    || (p.number.Some? && (p.messageType == "note" || p.messageType == "control_change" || p.messageType == "program_change"))
  }

  lemma UnsupportedFillsNothing(p: MidiParameter, setup: Setup)
    requires !IsSupported(p)
    ensures forall slot :: !Fills(p, setup, slot)
  {
    hide IsInput;
  }

  /** The body of the loop for a parameter with a channel. */
  method AddParameter(index: Index, p: MidiParameter, channel: int, setup: Setup) returns (grown: Index)
    requires IsInput(p, setup) && setup.ChannelOf(p) == Ok(channel)
    ensures Adds(index, grown, p, setup)
  {
    hide Adds, Append, IsInput, Fills;
    grown := index;
    if p.messageType == "note" && p.number.Some? {
      grown := grown.(byNote := Append(grown.byNote, (channel, p.number.value), p));
      grown := grown.(byNoteNumber := Append(grown.byNoteNumber, p.number.value, p));
      NoteAdds(index, p, channel, p.number.value, setup);
    } else if p.messageType == "control_change" && p.number.Some? {
      grown := grown.(byControlChange := Append(grown.byControlChange, (channel, p.number.value), p));
      grown := grown.(byControlNumber := Append(grown.byControlNumber, p.number.value, p));
      ControlAdds(index, p, channel, p.number.value, setup);
    } else if p.messageType == "program_change" && p.number.Some? {
      grown := grown.(byProgramChange := Append(grown.byProgramChange, (channel, p.number.value), p));
      ProgramAdds(index, p, channel, p.number.value, setup);
    } else if p.messageType == "pitch_bend" {
      grown := grown.(byPitchBend := Append(grown.byPitchBend, channel, p));
      BendAdds(index, p, channel, setup);
    } else {
      UnsupportedFillsNothing(p, setup);
      NothingAdded(index, p, setup);
    }
  }

  // ---- Resolving a message through the tables ----

  datatype MatchedControl = MatchedControl(controlId: string, value: int)

  function MessageType(status: int): int {
    BitAnd(0xF0, status)
  }

  function Channel(status: int): int {
    BitAnd(0x0F, status)
  }

  function Controls(parameters: seq<MidiParameter>, value: int): (controls: seq<MatchedControl>)
    ensures |controls| == |parameters|
    ensures forall i :: 0 <= i < |controls| ==> controls[i] == MatchedControl(parameters[i].id, value)
  {
    if parameters == [] then []
    else Controls(parameters[..|parameters| - 1], value)
         + [MatchedControl(parameters[|parameters| - 1].id, value)]
  }

  function MatchNote(index: Index, channel: int, data: seq<int>, pressed: bool): seq<MatchedControl> {
    if data == [] then []
    else Controls(Entry(index, NoteSlot(channel, data[0])), if pressed && |data| > 1 then data[1] else 0)
  }

  function Match(index: Index, status: int, data: seq<int>): Result<seq<MatchedControl>, MidiError> {
    var kind, channel := MessageType(status), Channel(status);
    if kind == NOTE_ON then
      if |data| < 2 then Err(DataTooShort) else Ok(MatchNote(index, channel, data, data[1] > 0))
    else if kind == NOTE_OFF then Ok(MatchNote(index, channel, data, false))
    else if kind == CONTROL_CHANGE && |data| >= 2 then
      Ok(Controls(Entry(index, ControlSlot(channel, data[0])), data[1]))
    else if kind == PROGRAM_CHANGE && |data| >= 1 then
      Ok(Controls(Entry(index, ProgramSlot(channel, data[0])), data[0]))
    else if kind == PITCH_BEND && |data| >= 2 then
      Ok(Controls(Entry(index, BendSlot(channel)), data[0] + data[1] * 128))
    else Ok([])
  }

  function MatchUnique(parameters: seq<MidiParameter>, value: int): seq<MatchedControl> {
    if |parameters| != 1 then [] else [MatchedControl(parameters[0].id, value)]
  }

  function MatchRelaxed(index: Index, status: int, data: seq<int>): Result<seq<MatchedControl>, MidiError> {
    var exact := Match(index, status, data);
    if exact.Err? || exact.value != [] then exact else Ok(MatchAnyChannel(index, status, data))
  }

  function MatchAnyChannel(index: Index, status: int, data: seq<int>): seq<MatchedControl> {
    var kind := MessageType(status);
    if (kind == NOTE_ON || kind == NOTE_OFF) && |data| >= 1 then
      var pressed := kind == NOTE_ON && |data| > 1 && data[1] > 0;
      MatchUnique(Entry(index, NoteNumberSlot(data[0])), if pressed then data[1] else 0)
    else if kind == CONTROL_CHANGE && |data| >= 2 then
      MatchUnique(Entry(index, ControlNumberSlot(data[0])), data[1])
    else []
  }

  function Digits(n: nat): string {
    if n < 10 then ["0123456789"[n]] else Digits(n / 10) + Digits(n % 10)
  }

  function Decimal(n: int): string {
    if n < 0 then "-" + Digits(-n) else Digits(n)
  }

  function RawControl(status: int, data: seq<int>): Option<string> {
    var kind, channel := MessageType(status), Channel(status);
    if kind == CONTROL_CHANGE && |data| >= 2 then Some("cc_" + Decimal(channel) + "_" + Decimal(data[0]))
    else if (kind == NOTE_ON || kind == NOTE_OFF) && |data| >= 1 then
      Some("note_" + Decimal(channel) + "_" + Decimal(data[0]))
    else if kind == PITCH_BEND && |data| >= 2 then Some("pitch_bend_" + Decimal(channel))
    else if kind == PROGRAM_CHANGE && |data| >= 1 then
      Some("program_" + Decimal(channel) + "_" + Decimal(data[0]))
    else None
  }

  /** `extract_midi_value` */
  function ValueOf(status: int, data: seq<int>): int {
    var kind := MessageType(status);
    if (kind == NOTE_ON || kind == NOTE_OFF) && |data| >= 1 then
      if kind == NOTE_OFF || (|data| > 1 && data[1] == 0) then 0 else if |data| > 1 then data[1] else 0
    else if kind == CONTROL_CHANGE && |data| >= 2 then data[1]
    else if kind == PITCH_BEND && |data| >= 2 then data[0] + data[1] * 128
    else if kind == PROGRAM_CHANGE && |data| >= 1 then data[0]
    else 0
  }

  function ResolveIncoming(index: Option<Index>, status: int, data: seq<int>): Result<seq<MatchedControl>, MidiError> {
    var matched := if index.None? then Ok([]) else MatchRelaxed(index.value, status, data);
    if matched.Err? || matched.value != [] then matched
    else
      match RawControl(status, data)
      case None => Ok([])
      case Some(id) => Ok([MatchedControl(id, ValueOf(status, data))])
  }

  // ---- The tables agree with a scan of the library ----

  /** The kind of parameter that a message concerns, if any. */
  function Concerns(status: int, data: seq<int>): Option<string> {
    var kind := MessageType(status);
    if (kind == NOTE_ON || kind == NOTE_OFF) && |data| >= 1 then Some("note")
    else if kind == CONTROL_CHANGE && |data| >= 2 then Some("control_change")
    else if kind == PROGRAM_CHANGE && |data| >= 1 then Some("program_change")
    else if kind == PITCH_BEND && |data| >= 2 then Some("pitch_bend")
    else None
  }

  /** An input of the kind and number the message is about, on any channel. */
  predicate SameControl(p: MidiParameter, setup: Setup, status: int, data: seq<int>) {
    && IsInput(p, setup)
    && Concerns(status, data) == Some(p.messageType)
    && (p.messageType != "pitch_bend" ==> p.number == Some(data[0]))
  }

  predicate Answers(p: MidiParameter, setup: Setup, status: int, data: seq<int>) {
    SameControl(p, setup, status, data) && OnChannel(p, setup, Channel(status))
  }

  function Answering(library: seq<MidiParameter>, setup: Setup, status: int, data: seq<int>): seq<MidiParameter> {
    Select(library, p => Answers(p, setup, status, data))
  }

  function Alike(library: seq<MidiParameter>, setup: Setup, status: int, data: seq<int>): seq<MidiParameter> {
    Select(library, p => SameControl(p, setup, status, data))
  }

  predicate IsShortNoteOn(status: int, data: seq<int>) {
    MessageType(status) == NOTE_ON && |data| < 2
  }

  lemma {:induction false} SelectSame(library: seq<MidiParameter>, f: MidiParameter -> bool, g: MidiParameter -> bool)
    requires forall p :: p in library ==> f(p) == g(p)
    ensures Select(library, f) == Select(library, g)
  {
    if library != [] {
      SelectSame(library[..|library| - 1], f, g);
    }
  }

  lemma {:induction false} SelectNone(library: seq<MidiParameter>, f: MidiParameter -> bool)
    requires forall p :: p in library ==> !f(p)
    ensures Select(library, f) == []
  {
    if library != [] {
      SelectNone(library[..|library| - 1], f);
    }
  }

  /** The slot in which a message is looked up. */
  function SlotOf(status: int, data: seq<int>): (slot: Slot)
    requires Concerns(status, data).Some?
  {
    var kind := Concerns(status, data).value;
    if kind == "note" then NoteSlot(Channel(status), data[0])
    else if kind == "control_change" then ControlSlot(Channel(status), data[0])
    else if kind == "program_change" then ProgramSlot(Channel(status), data[0])
    else BendSlot(Channel(status))
  }

  lemma SlotHoldsAnswers(library: seq<MidiParameter>, setup: Setup, status: int, data: seq<int>)
    requires Concerns(status, data).Some?
    ensures Scan(library, setup, SlotOf(status, data)) == Answering(library, setup, status, data)
  {
    hide Channel, MessageType, OnChannel, IsInput, Select;
    SelectSame(library, p => Fills(p, setup, SlotOf(status, data)), p => Answers(p, setup, status, data));
  }

  /** `match` finds exactly what a scan by kind, channel and number finds, in
      library order, with the message's value; it fails only for a note-on
      message that lacks its velocity. */
  lemma MatchIsScan(index: Index, library: seq<MidiParameter>, setup: Setup, status: int, data: seq<int>)
    requires Indexes(index, library, setup)
    requires forall d :: d in data ==> d >= 0
    ensures Match(index, status, data) ==
            if IsShortNoteOn(status, data) then Err(DataTooShort)
            else Ok(Controls(Answering(library, setup, status, data), ValueOf(status, data)))
  {
    hide Select, Answering, Scan, MessageType, Channel, Entry;
    assert |data| > 1 ==> data[1] in data;
    if Concerns(status, data).Some? {
      var slot := SlotOf(status, data);
      assert Entry(index, slot) == Scan(library, setup, slot);
      SlotHoldsAnswers(library, setup, status, data);
    } else {
      NoAnswer(library, setup, status, data);
    }
  }

  lemma NoAnswer(library: seq<MidiParameter>, setup: Setup, status: int, data: seq<int>)
    requires Concerns(status, data).None?
    ensures Answering(library, setup, status, data) == []
  {
    hide Select, MessageType;
    SelectNone(library, p => Answers(p, setup, status, data));
  }

  predicate HasNumber(status: int, data: seq<int>) {
    Concerns(status, data) == Some("note") || Concerns(status, data) == Some("control_change")
  }

  lemma NumberHoldsAlike(library: seq<MidiParameter>, setup: Setup, status: int, data: seq<int>)
    requires HasNumber(status, data)
    ensures var slot := if Concerns(status, data) == Some("note") then NoteNumberSlot(data[0]) else ControlNumberSlot(data[0]);
            Scan(library, setup, slot) == Alike(library, setup, status, data)
  {
    hide Channel, MessageType, OnChannel, IsInput, Select;
    var slot := if Concerns(status, data) == Some("note") then NoteNumberSlot(data[0]) else ControlNumberSlot(data[0]);
    SelectSame(library, p => Fills(p, setup, slot), p => SameControl(p, setup, status, data));
  }

  lemma UniqueIsControls(parameters: seq<MidiParameter>, value: int)
    ensures MatchUnique(parameters, value) == Controls(if |parameters| == 1 then parameters else [], value)
  {
    if |parameters| == 1 {
      assert Controls(parameters, value)[0] == MatchedControl(parameters[0].id, value);
    }
  }

  lemma AnyChannelIsAlike(index: Index, library: seq<MidiParameter>, setup: Setup, status: int, data: seq<int>)
    requires Indexes(index, library, setup)
    requires forall d :: d in data ==> d >= 0
    ensures var alike := Alike(library, setup, status, data);
            MatchAnyChannel(index, status, data) ==
            Controls(if HasNumber(status, data) && |alike| == 1 then alike else [], ValueOf(status, data))
  {
    hide Select, Alike, Scan, MessageType, Entry, MatchUnique, Controls;
    assert Controls([], ValueOf(status, data)) == [];
    if HasNumber(status, data) {
      assert |data| > 1 ==> data[1] in data;
      var slot := if Concerns(status, data) == Some("note") then NoteNumberSlot(data[0]) else ControlNumberSlot(data[0]);
      assert Entry(index, slot) == Scan(library, setup, slot);
      NumberHoldsAlike(library, setup, status, data);
      UniqueIsControls(Alike(library, setup, status, data), ValueOf(status, data));
    }
  }

  /** `match_relaxed` ignores the channel only when nothing answers on it, and
      only for a note or controller number that a single input has. */
  lemma RelaxedIsScan(index: Index, library: seq<MidiParameter>, setup: Setup, status: int, data: seq<int>)
    requires Indexes(index, library, setup)
    requires forall d :: d in data ==> d >= 0
    requires !IsShortNoteOn(status, data)
    ensures var answering, alike := Answering(library, setup, status, data), Alike(library, setup, status, data);
            MatchRelaxed(index, status, data) ==
            Ok(Controls(if answering != [] then answering else if HasNumber(status, data) && |alike| == 1 then alike else [],
                        ValueOf(status, data)))
  {
    hide Match, MatchAnyChannel, Indexes, IsShortNoteOn, HasNumber, Alike, Answering, ValueOf;
    MatchIsScan(index, library, setup, status, data);
    AnyChannelIsAlike(index, library, setup, status, data);
  }

  predicate OnlyAt(library: seq<MidiParameter>, f: MidiParameter -> bool, i: int) {
    0 <= i < |library| && f(library[i]) && forall j :: 0 <= j < |library| && j != i ==> !f(library[j])
  }

  lemma {:induction false} OnlyOneSelected(library: seq<MidiParameter>, f: MidiParameter -> bool, i: int)
    requires OnlyAt(library, f, i)
    ensures |Select(library, f)| == 1
  {
    var front := library[..|library| - 1];
    if i == |front| {
      SelectNone(front, f);
    } else {
      OnlyOneSelected(front, f, i);
    }
  }

  lemma {:induction false} SelectedIsOnly(library: seq<MidiParameter>, f: MidiParameter -> bool) returns (i: int)
    requires |Select(library, f)| == 1
    ensures OnlyAt(library, f, i)
  {
    var front := library[..|library| - 1];
    if f(library[|front|]) {
      i := |front|;
      assert Select(front, f) == [];
      forall j | 0 <= j < |front|
        ensures !f(library[j])
      {
        assert front[j] in front;
      }
    } else {
      i := SelectedIsOnly(front, f);
      assert forall j :: 0 <= j < |front| ==> front[j] == library[j];
    }
  }

  /** No other entry of the library than the i-th is an input for this control. */
  predicate OnlyInputAlike(library: seq<MidiParameter>, setup: Setup, status: int, data: seq<int>, i: int) {
    && 0 <= i < |library| && SameControl(library[i], setup, status, data)
    && forall j :: 0 <= j < |library| && j != i ==> !SameControl(library[j], setup, status, data)
  }

  lemma SameOnly(library: seq<MidiParameter>, setup: Setup, status: int, data: seq<int>, i: int)
    ensures OnlyInputAlike(library, setup, status, data, i) <==> OnlyAt(library, p => SameControl(p, setup, status, data), i)
  {
    hide SameControl;
  }

  /** The fallback never guesses: it names a control exactly when one single input
      of the library has that kind and number, and that one listens elsewhere. */
  lemma FallbackIsUnambiguous(index: Index, library: seq<MidiParameter>, setup: Setup, status: int, data: seq<int>)
    requires Indexes(index, library, setup)
    requires forall d :: d in data ==> d >= 0
    requires !IsShortNoteOn(status, data) && Answering(library, setup, status, data) == []
    ensures MatchRelaxed(index, status, data).value != [] <==>
            && HasNumber(status, data)
            && exists i :: OnlyInputAlike(library, setup, status, data, i)
  {
    hide Select, Concerns, SameControl, Answering, OnlyAt, OnlyInputAlike, MatchRelaxed;
    RelaxedIsScan(index, library, setup, status, data);
    var same := p => SameControl(p, setup, status, data);
    if |Select(library, same)| == 1 {
      var i := SelectedIsOnly(library, same);
      SameOnly(library, setup, status, data, i);
    }
    forall i | OnlyInputAlike(library, setup, status, data, i)
      ensures |Select(library, same)| == 1
    {
      SameOnly(library, setup, status, data, i);
      OnlyOneSelected(library, same, i);
    }
  }

  /** No control message is lost: with or without an index every complete note,
      controller, program or pitch bend message resolves to at least one control,
      and all of them get the value of the message. */
  lemma EveryMessageResolves(index: Option<Index>, library: seq<MidiParameter>, setup: Setup, status: int, data: seq<int>)
    requires index.Some? ==> Indexes(index.value, library, setup)
    requires forall d :: d in data ==> d >= 0
    requires !IsShortNoteOn(status, data)
    ensures var r := ResolveIncoming(index, status, data);
            && r.Ok?
            && (r.value != [] <==> Concerns(status, data).Some?)
            && forall m :: m in r.value ==> m.value == ValueOf(status, data)
  {
    hide Select, Answering, Alike, Indexes, MatchRelaxed, MessageType, Channel, Decimal;
    if index.Some? {
      RelaxedIsScan(index.value, library, setup, status, data);
      if Concerns(status, data).None? {
        NoAnswer(library, setup, status, data);
      }
    }
  }

  // ---- Messages and raw names in numbers ----

  /** What the status byte says: the kind in its high half, the channel in the low. */
  lemma StatusByte(high: nat, channel: nat, data: seq<int>)
    requires 8 <= high < 16 && channel < 16
    ensures Channel(16 * high + channel) == channel
    ensures Concerns(16 * high + channel, data) ==
            if (high == 0x8 || high == 0x9) && |data| >= 1 then Some("note")
            else if high == 0xB && |data| >= 2 then Some("control_change")
            else if high == 0xC && |data| >= 1 then Some("program_change")
            else if high == 0xE && |data| >= 2 then Some("pitch_bend")
            else None
    ensures ValueOf(16 * high + channel, data) == (
              if (high == 0x9 || high == 0xB) && |data| >= 2 then data[1]
              else if high == 0xC && |data| >= 1 then data[0]
              else if high == 0xE && |data| >= 2 then data[0] + 128 * data[1]
              else 0)
    ensures IsShortNoteOn(16 * high + channel, data) <==> high == 0x9 && |data| < 2
  {
    hide BitAnd;
    Nibbles(high, channel);
  }

  /** The number that a decimal text stands for. */
  function ReadDigits(s: string): int {
    if s == "" then 0 else 10 * ReadDigits(s[..|s| - 1]) + (s[|s| - 1] as int - '0' as int)
  }

  /** Numbers are written in decimal, without leading zeros. */
  lemma {:induction false} DigitsForm(n: nat)
    ensures var s := Digits(n);
            && s != "" && ReadDigits(s) == n
            && (forall c :: c in s ==> '0' <= c <= '9')
            && (n > 0 ==> s[0] != '0') && (n == 0 ==> s == "0")
  {
    DigitText(n % 10);
    if n >= 10 {
      DigitsForm(n / 10);
      var front, last := Digits(n / 10), Digits(n % 10);
      assert Digits(n) == front + last;
      assert (front + last)[..|front|] == front && |last| == 1;
    } else {
      assert Digits(n)[..0] == "";
    }
  }

  lemma DigitText(n: nat)
    requires n < 10
    ensures Digits(n) == ["0123456789"[n]] && "0123456789"[n] as int == '0' as int + n
  {
  }

  /** Raw names: the kind, the channel counted from 0, and the number; note-on and
      note-off share one, a pitch bend has no number. */
  lemma RawNames(high: nat, channel: nat, data: seq<int>)
    requires 8 <= high < 16 && channel < 16
    ensures RawControl(16 * high + channel, data) ==
            if (high == 0x8 || high == 0x9) && |data| >= 1 then Some("note_" + Decimal(channel) + "_" + Decimal(data[0]))
            else if high == 0xB && |data| >= 2 then Some("cc_" + Decimal(channel) + "_" + Decimal(data[0]))
            else if high == 0xC && |data| >= 1 then Some("program_" + Decimal(channel) + "_" + Decimal(data[0]))
            else if high == 0xE && |data| >= 2 then Some("pitch_bend_" + Decimal(channel))
            else None
    ensures |data| >= 1 && data[0] >= 0 ==> ReadDigits(Decimal(channel)) == channel && ReadDigits(Decimal(data[0])) == data[0]
  {
    hide BitAnd, Digits;
    Nibbles(high, channel);
    DigitsForm(channel);
    if |data| >= 1 && data[0] >= 0 {
      DigitsForm(data[0]);
    }
  }

  lemma RawNameOfFirstController()
    ensures RawControl(0xB0, [7, 64]) == Some("cc_0_7")
  {
    hide RawControl, Digits;
    RawNames(0xB, 0, [7, 64]);
    DigitText(0);
    DigitText(7);
    assert "cc_" + "0" + "_" + "7" == "cc_0_7";
  }
}
