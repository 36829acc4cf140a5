/** Encoding a value for a library parameter into a MIDI message, and what comes
    back when that message is received again. */
module MidiTargetEncode {
  import opened Common
  import opened MidiLibrary
  import opened MidiSourceIndex

  function Scaled(p: MidiParameter, v: real): Result<int, MidiError> {
    if p.valueMin.None? || p.valueMax.None? then Err(MissingRange)
    else Ok(RoundHalfEven(Clamp(v, p.valueMin.value, p.valueMax.value)))
  }

  function Min(a: int, b: int): int {
    if a < b then a else b
  }

  function Max(a: int, b: int): int {
    if a < b then b else a
  }

  function Or(velocity: Option<int>, default: int): int {
    if velocity.Some? then velocity.value else default
  }

  /** Faders of some controllers are listed as sources only, but can be driven. */
  predicate IsEncodable(p: MidiParameter) {
    || p.direction == "target" || p.direction == "bidirectional"
    || (p.direction == "source" && p.messageType == "control_change" && p.category == "fader")
  }

  datatype Message = Message(status: int, data: seq<int>)

  function Encode(p: MidiParameter, v: real, setup: Setup): Result<Message, MidiError> {
    if p.direction != "target" && p.direction != "source" && p.direction != "bidirectional" then Err(NotAnOutput)
    else if !IsEncodable(p) then Err(NotATarget)
    else if p.messageType == "sysex" then Err(SysexNotSent)
    else if p.midiChannel.None? then Err(MissingChannel)
    else
      match setup.ChannelOf(p)
      case Err(e) => Err(e)
      case Ok(channel) =>
        match Scaled(p, v)
        case Err(e) => Err(e)
        case Ok(scaled) => EncodeScaled(p, scaled, channel)
  }

  function EncodeScaled(p: MidiParameter, scaled: int, channel: int): Result<Message, MidiError> {
    if p.messageType == "control_change" then
      if p.number.None? then Err(MissingNumber)
      else Ok(Message(BitOr(CONTROL_CHANGE, channel), [p.number.value, scaled]))
    else if p.messageType == "note" then
      if p.number.None? then Err(MissingNumber)
      else if scaled <= 0 then Ok(Message(BitOr(NOTE_OFF, channel), [p.number.value, Or(p.noteOffVelocity, 0)]))
      else Ok(Message(BitOr(NOTE_ON, channel), [p.number.value, Min(127, Or(p.noteOnVelocity, Min(127, scaled)))]))
    else if p.messageType == "program_change" then Ok(Message(BitOr(PROGRAM_CHANGE, channel), [scaled]))
    else if p.messageType == "pitch_bend" then
      var bend := Max(0, Min(16383, scaled));
      Ok(Message(BitOr(PITCH_BEND, channel), [BitAnd(0x7F, bend), BitAnd(0x7F, bend / 128)]))
    else Err(UnsupportedType)
  }

  // ---- What a receiver reads ----

  /** The value that the message for `scaled` carries to a receiver. */
  function Carried(p: MidiParameter, scaled: int): int {
    if p.messageType == "control_change" then scaled
    else if p.messageType == "note" then
      if scaled <= 0 then 0 else Min(127, Or(p.noteOnVelocity, scaled))
    else Max(0, Min(16383, scaled))
  }

  /** A parameter that can be sent and received: of a kind that carries a value
      and with a channel the status byte can hold. */
  predicate Echoes(p: MidiParameter, setup: Setup) {
    && IsInput(p, setup) && IsEncodable(p)
    && (p.messageType == "control_change" || p.messageType == "note" || p.messageType == "pitch_bend")
    && (p.messageType != "pitch_bend" ==> p.number.Some?)
    && p.valueMin.Some? && p.valueMax.Some?
    && setup.ChannelOf(p).Ok? && 0 <= setup.ChannelOf(p).value < 16
  }

  /** Numbers and velocities of a parameter are never negative. */
  predicate HasPlainData(p: MidiParameter) {
    Or(p.number, 0) >= 0 && Or(p.noteOnVelocity, 0) >= 0 && Or(p.noteOffVelocity, 0) >= 0
  }

  lemma Septets(bend: nat)
    requires bend <= 16383
    ensures BitAnd(0x7F, bend) + BitAnd(0x7F, bend / 128) * 128 == bend
    ensures 0 <= BitAnd(0x7F, bend) <= 127 && 0 <= BitAnd(0x7F, bend / 128) <= 127
  {
    hide BitAnd;
    LowSeptet(bend);
    LowSeptet(bend / 128);
  }

  lemma StatusOf(high: nat, channel: nat)
    requires high < 16 && channel < 16
    ensures MessageType(BitOr(16 * high, channel)) == 16 * high && Channel(BitOr(16 * high, channel)) == channel
  {
    Nibbles(high, channel);
  }

  /** The message that is sent speaks about this parameter on its channel, and
      carries the value. */
  lemma EncodedAnswers(p: MidiParameter, v: real, setup: Setup)
    requires Echoes(p, setup)
    ensures Encode(p, v, setup).Ok?
    ensures var m := Encode(p, v, setup).value;
            Answers(p, setup, m.status, m.data) && !IsShortNoteOn(m.status, m.data)
    ensures var m, scaled := Encode(p, v, setup).value, Scaled(p, v).value;
            HasPlainData(p) && (p.messageType == "control_change" ==> scaled >= 0) ==>
              (forall d :: d in m.data ==> d >= 0) && ValueOf(m.status, m.data) == Carried(p, scaled)
  {
    hide BitOr, BitAnd, RoundHalfEven, Clamp, MessageType, Channel, IsInput;
    var channel, scaled := setup.ChannelOf(p).value, Scaled(p, v).value;
    if p.messageType == "control_change" {
      StatusOf(0xB, channel);
    } else if p.messageType == "note" {
      StatusOf(if scaled <= 0 then 0x8 else 0x9, channel);
    } else {
      StatusOf(0xE, channel);
      Septets(Max(0, Min(16383, scaled)));
    }
  }

  lemma ControlsContain(parameters: seq<MidiParameter>, value: int, p: MidiParameter)
    requires p in parameters
    ensures MatchedControl(p.id, value) in Controls(parameters, value)
  {
    var i :| 0 <= i < |parameters| && parameters[i] == p;
    assert Controls(parameters, value)[i] == MatchedControl(p.id, value);
  }

  /** Sending a value and resolving the message through an index for the same
      adapter and device gives the parameter back, with the value the message
      can carry; all controls that share the message get the same value, in
      library order, and the channel fallback plays no part. */
  lemma SentIsReceived(index: Index, library: seq<MidiParameter>, setup: Setup, p: MidiParameter, v: real)
    requires Indexes(index, library, setup) && p in library && Echoes(p, setup)
    requires p.messageType == "control_change" ==> Scaled(p, v).value >= 0
    requires HasPlainData(p)
    ensures Encode(p, v, setup).Ok?
    ensures var m := Encode(p, v, setup).value;
            var value := Carried(p, Scaled(p, v).value);
            && ResolveIncoming(Some(index), m.status, m.data)
                 == Ok(Controls(Answering(library, setup, m.status, m.data), value))
            && MatchedControl(p.id, value) in ResolveIncoming(Some(index), m.status, m.data).value
  {
    hide Encode, Echoes, Scaled, Answers, ValueOf, Carried, Indexes, MatchRelaxed, RawControl, IsShortNoteOn, Concerns, Select;
    EncodedAnswers(p, v, setup);
    var m := Encode(p, v, setup).value;
    RelaxedIsScan(index, library, setup, m.status, m.data);
    ControlsContain(Answering(library, setup, m.status, m.data), ValueOf(m.status, m.data), p);
  }

  /** A range that the message can carry: 7 bits, or 14 for a pitch bend. */
  predicate FitsRange(p: MidiParameter) {
    && p.valueMin.Some? && p.valueMax.Some?
    && 0.0 <= p.valueMin.value <= p.valueMax.value
    && p.valueMax.value <= (if p.messageType == "pitch_bend" then 16383.0 else 127.0)
    && (p.messageType == "note" ==> p.noteOnVelocity.None?)
  }

  /** Within such a range nothing but the fraction is lost. */
  lemma CarriesRoundedValue(p: MidiParameter, v: real)
    requires FitsRange(p)
    requires p.messageType == "control_change" || p.messageType == "note" || p.messageType == "pitch_bend"
    ensures Scaled(p, v).Ok?
    ensures var value, low, high := Carried(p, Scaled(p, v).value), p.valueMin.value, p.valueMax.value;
            && value >= 0 && (p.messageType == "control_change" ==> Scaled(p, v).value >= 0)
            && (v >= high ==> value == RoundHalfEven(high))
            && (v <= low ==> value == RoundHalfEven(low))
            && (low <= v <= high ==> value == RoundHalfEven(v))
  {
    hide RoundHalfEven, Clamp;
  }

  /** For 7-bit and 14-bit ranges the value that comes back is the rounded one
      within the range, and the rounded end of the range beyond it. */
  lemma EncodeThenResolveIsRounding(index: Index, library: seq<MidiParameter>, setup: Setup, p: MidiParameter, v: real)
    requires Indexes(index, library, setup) && p in library && Echoes(p, setup) && FitsRange(p)
    requires HasPlainData(p)
    ensures var m := Encode(p, v, setup);
            && m.Ok?
            && var received := ResolveIncoming(Some(index), m.value.status, m.value.data);
            && var low, high := p.valueMin.value, p.valueMax.value;
            && var value := RoundHalfEven(if v >= high then high else if v <= low then low else v);
            && received.Ok?
            && MatchedControl(p.id, value) in received.value
            && (forall c :: c in received.value ==> c.value == value)
            && (Answering(library, setup, m.value.status, m.value.data) == [p]
                ==> received.value == [MatchedControl(p.id, value)])
  {
    hide Encode, Scaled, Answers, Carried, Indexes, ResolveIncoming, RoundHalfEven, Clamp, Select, HasPlainData, IsInput;
    CarriesRoundedValue(p, v);
    SentIsReceived(index, library, setup, p, v);
  }

  // ---- On the wire ----

  /** The bytes that are sent for a value, for every kind of parameter: the type
      and channel in the status, the number, and the value or the configured
      velocity, cut off at 127. */
  lemma SentBytes(p: MidiParameter, v: real, setup: Setup)
    requires IsEncodable(p) && p.messageType != "sysex" && p.midiChannel.Some?
    requires setup.ChannelOf(p).Ok? && 0 <= setup.ChannelOf(p).value < 16 && p.valueMin.Some? && p.valueMax.Some?
    ensures var channel, m := setup.ChannelOf(p).value, Encode(p, v, setup);
            var low, high := p.valueMin.value, p.valueMax.value;
            var scaled := RoundHalfEven(if low > high || v >= high then high else if v <= low then low else v);
            && (p.messageType == "control_change" && p.number.Some? ==>
                  m == Ok(Message(0xB0 + channel, [p.number.value, scaled])))
            && (p.messageType == "note" && p.number.Some? && scaled <= 0 ==>
                  m == Ok(Message(0x80 + channel, [p.number.value, if p.noteOffVelocity.Some? then p.noteOffVelocity.value else 0])))
            && (p.messageType == "note" && p.number.Some? && scaled > 0 ==>
                  var velocity := if p.noteOnVelocity.Some? then p.noteOnVelocity.value else scaled;
                  m == Ok(Message(0x90 + channel, [p.number.value, if velocity > 127 then 127 else velocity])))
            && (p.messageType == "program_change" ==> m == Ok(Message(0xC0 + channel, [scaled])))
            && (p.messageType == "pitch_bend" ==>
                  var bend := if scaled < 0 then 0 else if scaled > 16383 then 16383 else scaled;
                  m == Ok(Message(0xE0 + channel, [bend % 128, bend / 128])))
  {
    hide EncodeScaled, RoundHalfEven, Clamp;
    ClampIsInside(v, p.valueMin.value, p.valueMax.value);
    BytesOfScaled(p, Scaled(p, v).value, setup.ChannelOf(p).value);
  }

  lemma BytesOfScaled(p: MidiParameter, scaled: int, channel: nat)
    requires channel < 16
    ensures var m := EncodeScaled(p, scaled, channel);
            && (p.messageType == "control_change" && p.number.Some? ==>
                  m == Ok(Message(0xB0 + channel, [p.number.value, scaled])))
            && (p.messageType == "note" && p.number.Some? && scaled <= 0 ==>
                  m == Ok(Message(0x80 + channel, [p.number.value, if p.noteOffVelocity.Some? then p.noteOffVelocity.value else 0])))
            && (p.messageType == "note" && p.number.Some? && scaled > 0 ==>
                  var velocity := if p.noteOnVelocity.Some? then p.noteOnVelocity.value else scaled;
                  m == Ok(Message(0x90 + channel, [p.number.value, if velocity > 127 then 127 else velocity])))
            && (p.messageType == "program_change" ==> m == Ok(Message(0xC0 + channel, [scaled])))
            && (p.messageType == "pitch_bend" ==>
                  var bend := if scaled < 0 then 0 else if scaled > 16383 then 16383 else scaled;
                  m == Ok(Message(0xE0 + channel, [bend % 128, bend / 128])))
  {
    hide BitOr, BitAnd;
    Nibbles(0x8, channel);
    Nibbles(0x9, channel);
    Nibbles(0xB, channel);
    Nibbles(0xC, channel);
    Nibbles(0xE, channel);
    BendBytes(scaled);
  }

  lemma ClampIsInside(v: real, low: real, high: real)
    ensures Clamp(v, low, high) == if low > high || v >= high then high else if v <= low then low else v
  {
  }

  lemma BendBytes(scaled: int)
    ensures var bend := Max(0, Min(16383, scaled));
            && bend == (if scaled < 0 then 0 else if scaled > 16383 then 16383 else scaled)
            && BitAnd(0x7F, bend) == bend % 128 && BitAnd(0x7F, bend / 128) == bend / 128
  {
    hide BitAnd;
    LowSeptet(Max(0, Min(16383, scaled)));
    LowSeptet(Max(0, Min(16383, scaled)) / 128);
  }

  /** Exactly when nothing is sent, and what is raised: the first that applies. */
  lemma EncodeFailsIff(p: MidiParameter, v: real, setup: Setup)
    ensures var known := p.direction == "target" || p.direction == "source" || p.direction == "bidirectional";
            var driven := p.direction != "source" || (p.messageType == "control_change" && p.category == "fader");
            var numbered := p.messageType == "control_change" || p.messageType == "note";
            var plain := p.messageType == "program_change" || p.messageType == "pitch_bend";
            var r := Encode(p, v, setup);
            if !known then r == Err(NotAnOutput)
            else if !driven then r == Err(NotATarget)
            else if p.messageType == "sysex" then r == Err(SysexNotSent)
            else if p.midiChannel.None? then r == Err(MissingChannel)
            else if setup.ChannelOf(p).Err? then r == Err(setup.ChannelOf(p).error)
            else if p.valueMin.None? || p.valueMax.None? then r == Err(MissingRange)
            else if numbered && p.number.None? then r == Err(MissingNumber)
            else if !numbered && !plain then r == Err(UnsupportedType)
            else r.Ok?
  {
    hide BitOr, BitAnd, RoundHalfEven, Clamp;
  }
}
