/** Controller libraries: their parameters and the channel a parameter uses. */
module MidiLibrary {
  import opened Common
  import opened Text

  datatype MidiParameter = MidiParameter(
    id: string,
    messageType: string,
    valueMin: Option<real>,
    valueMax: Option<real>,
    category: string,
    direction: string,
    port: string,
    midiChannel: Option<int>,
    number: Option<int>,
    noteOnVelocity: Option<int>,
    noteOffVelocity: Option<int>)

  /** What an adapter option for a channel holds: nothing, text or a number that
      reads as an integer, or something that does not. */
  datatype ChannelOption = Unset | Reads(channel: int) | Malformed

  datatype Adapter = Adapter(midiLibrary: string, valueChannel: ChannelOption, displayChannel: ChannelOption)

  datatype Device = Device(library: string, valueChannel: int, displayChannel: int)

  datatype MidiError =
    | MissingChannel
    | ChannelNotAnInteger
    | ChannelOutOfRange
    | NotAnOutput
    | NotATarget
    | SysexNotSent
    | MissingRange
    | MissingNumber
    | UnsupportedType
    | DataTooShort

  datatype XTouchOptions = XTouchOptions(library: string, valueChannel: int, displayChannel: int)

  const COMPACT := "behringer_xtouch_compact"
  const MINI := "behringer_xtouch_mini"

  predicate IsXTouch(library: string) {
    library == COMPACT || library == MINI
  }

  function DefaultValueChannel(library: string): int {
    if library == COMPACT then 1 else 11
  }

  function DefaultDisplayChannel(library: string): int {
    if library == COMPACT then 1 else 12
  }

  function ParseChannel(option: ChannelOption, default: int): (r: Result<int, MidiError>)
    ensures r.Ok? && option.Reads? ==> 1 <= r.value <= 16 && r.value == option.channel
  {
    match option
    case Unset => Ok(default)
    case Malformed => Err(ChannelNotAnInteger)
    case Reads(channel) => if 1 <= channel <= 16 then Ok(channel) else Err(ChannelOutOfRange)
  }

  function LibraryOf(adapter: Adapter, device: Option<Device>): string {
    if device.Some? && Strip(device.value.library) != "" then Strip(device.value.library)
    else Strip(adapter.midiLibrary)
  }

  /** The device's own channels, or those of the adapter's options. */
  function OptionsFor(adapter: Adapter, device: Option<Device>): Result<XTouchOptions, MidiError> {
    var library := LibraryOf(adapter, device);
    if device.Some? && IsXTouch(library) then
      Ok(XTouchOptions(library, device.value.valueChannel, device.value.displayChannel))
    else
      match ParseChannel(adapter.valueChannel, DefaultValueChannel(library))
      case Err(e) => Err(e)
      case Ok(value) =>
        match ParseChannel(adapter.displayChannel, DefaultDisplayChannel(library))
        case Err(e) => Err(e)
        case Ok(display) => Ok(XTouchOptions(library, value, display))
  }

  predicate EndsWith(s: string, end: string) {
    |end| <= |s| && s[|s| - |end|..] == end
  }

  predicate IsLedRing(p: MidiParameter) {
    p.category == "feedback" && EndsWith(p.id, "_led_ring")
  }

  /** The channel, counted from 1, on which a parameter is sent and received. */
  function ResolveChannel(adapter: Adapter, device: Option<Device>, p: MidiParameter): Result<int, MidiError> {
    if p.midiChannel.None? then Err(MissingChannel)
    else
      match OptionsFor(adapter, device)
      case Err(e) => Err(e)
      case Ok(options) =>
        if !IsXTouch(options.library) then Ok(p.midiChannel.value)
        else if IsLedRing(p) then Ok(options.displayChannel)
        else Ok(options.valueChannel)
  }

  /** An option that is unset, or reads as a channel from 1 to 16. */
  predicate IsUsable(option: ChannelOption) {
    option.Unset? || (option.Reads? && 1 <= option.channel <= 16)
  }

  function Or(option: ChannelOption, default: int): int {
    if option.Reads? then option.channel else default
  }

  /** A device with an X-Touch library brings its own channels. */
  predicate HasOwnChannels(adapter: Adapter, device: Option<Device>) {
    device.Some? && IsXTouch(LibraryOf(adapter, device))
  }

  /** A channel resolves exactly when the parameter has one and both options of
      the adapter are usable, even those of a controller that does not use them;
      only a device with its own channels is independent of the options. */
  lemma ChannelResolvesIff(adapter: Adapter, device: Option<Device>, p: MidiParameter)
    ensures ResolveChannel(adapter, device, p).Ok? <==>
            && p.midiChannel.Some?
            && (HasOwnChannels(adapter, device) || (IsUsable(adapter.valueChannel) && IsUsable(adapter.displayChannel)))
    ensures ResolveChannel(adapter, device, p).Ok? ==>
              var channel, library := ResolveChannel(adapter, device, p).value, LibraryOf(adapter, device);
              var compact := library == "behringer_xtouch_compact";
              var display := p.category == "feedback" && |p.id| >= 9 && p.id[|p.id| - 9..] == "_led_ring";
              if !compact && library != "behringer_xtouch_mini" then Some(channel) == p.midiChannel
              else if device.Some? then
                channel == if display then device.value.displayChannel else device.value.valueChannel
              else
                && 1 <= channel <= 16
                && channel == (
                     if display then Or(adapter.displayChannel, if compact then 1 else 12)
                     else Or(adapter.valueChannel, if compact then 1 else 11))
  {
    hide LibraryOf;
  }

  /** The first exception, if any. */
  lemma ChannelFails(adapter: Adapter, device: Option<Device>, p: MidiParameter)
    requires !HasOwnChannels(adapter, device)
    ensures var r := ResolveChannel(adapter, device, p);
            if p.midiChannel.None? then r == Err(MissingChannel)
            else if adapter.valueChannel.Malformed? then r == Err(ChannelNotAnInteger)
            else if !IsUsable(adapter.valueChannel) then r == Err(ChannelOutOfRange)
            else if adapter.displayChannel.Malformed? then r == Err(ChannelNotAnInteger)
            else if !IsUsable(adapter.displayChannel) then r == Err(ChannelOutOfRange)
            else r.Ok?
  {
    hide LibraryOf, IsLedRing;
  }

  /** The library of the device, unless it is blank, or else of the adapter. */
  lemma LibraryForm(adapter: Adapter, device: Option<Device>)
    ensures LibraryOf(adapter, device) == (
              if device.Some? && !AllSpace(device.value.library) then Strip(device.value.library)
              else Strip(adapter.midiLibrary))
  {
    hide Strip;
    if device.Some? {
      BlankIff(device.value.library);
    }
  }

  /** One index or encoder: its port filter, and the adapter and device it serves. */
  datatype Setup = Setup(port: Option<string>, adapter: Option<Adapter>, device: Option<Device>) {

    /** The channel of a parameter counted from 0. */
    function ChannelOf(p: MidiParameter): Result<int, MidiError> {
      if p.midiChannel.None? then Err(MissingChannel)
      else if adapter.None? then Ok(p.midiChannel.value - 1)
      else
        match ResolveChannel(adapter.value, device, p)
        case Err(e) => Err(e)
        case Ok(channel) => Ok(channel - 1)
    }
  }

  /** Channels are counted from 0 on the wire: one less than the parameter's own,
      or, with an adapter, than the one that resolves. */
  lemma ChannelOnWire(setup: Setup, p: MidiParameter)
    ensures setup.adapter.None? && p.midiChannel.Some? ==> setup.ChannelOf(p) == Ok(p.midiChannel.value - 1)
    ensures setup.adapter.Some? ==>
              var r, resolved := setup.ChannelOf(p), ResolveChannel(setup.adapter.value, setup.device, p);
              if resolved.Ok? then r.Ok? && r.value + 1 == resolved.value else r == Err(resolved.error)
    ensures p.midiChannel.None? ==> setup.ChannelOf(p) == Err(MissingChannel)
  {
  }

  // ---- Bits ----

  /** `a | b` on unbounded integers in two's complement. */
  function BitOr(a: nat, b: int): int {
    if a == 0 then b else 2 * BitOr(a / 2, b / 2) + if a % 2 == 1 || b % 2 == 1 then 1 else 0
  }

  /** `mask & b` on unbounded integers in two's complement. */
  function BitAnd(mask: nat, b: int): nat {
    if mask == 0 then 0 else 2 * BitAnd(mask / 2, b / 2) + if mask % 2 == 1 && b % 2 == 1 then 1 else 0
  }

  lemma {:induction false} OrZero(a: nat)
    ensures BitOr(a, 0) == a
  {
    if a > 0 {
      OrZero(a / 2);
    }
  }

  lemma OrTwice(a: nat, b: int)
    ensures BitOr(2 * a, b) == 2 * BitOr(a, b / 2) + b % 2
  {
  }

  lemma AndTwice(mask: nat, b: int)
    ensures BitAnd(2 * mask, b) == 2 * BitAnd(mask, b / 2)
    ensures BitAnd(2 * mask + 1, b) == 2 * BitAnd(mask, b / 2) + b % 2
  {
    assert (2 * mask + 1) / 2 == mask;
  }

  lemma LowNibble(b: int)
    ensures BitAnd(0x0F, b) == b % 16
  {
    hide BitAnd;
    AndTwice(7, b);
    AndTwice(3, b / 2);
    AndTwice(1, b / 2 / 2);
    AndTwice(0, b / 2 / 2 / 2);
    assert BitAnd(0, b / 2 / 2 / 2 / 2) == 0 by { AndNone(b / 2 / 2 / 2 / 2); }
  }

  lemma AndNone(b: int)
    ensures BitAnd(0, b) == 0
  {
  }

  lemma LowFive(b: int)
    ensures BitAnd(0x1F, b) == b % 32
  {
    hide BitAnd;
    AndTwice(0x0F, b);
    LowNibble(b / 2);
  }

  lemma LowSix(b: int)
    ensures BitAnd(0x3F, b) == b % 64
  {
    hide BitAnd;
    AndTwice(0x1F, b);
    LowFive(b / 2);
  }

  lemma LowSeptet(b: int)
    ensures BitAnd(0x7F, b) == b % 128
  {
    hide BitAnd;
    AndTwice(0x3F, b);
    LowSix(b / 2);
  }

  lemma LowOctet(b: int)
    ensures BitAnd(0xFF, b) == b % 256
  {
    hide BitAnd;
    AndTwice(0x7F, b);
    LowSeptet(b / 2);
  }

  /** A status byte: the message type in the high half, the channel in the low. */
  lemma Nibbles(high: nat, low: nat)
    requires high < 16 && low < 16
    ensures BitOr(16 * high, low) == 16 * high + low
    ensures BitAnd(0xF0, 16 * high + low) == 16 * high
    ensures BitAnd(0x0F, 16 * high + low) == low
  {
    hide BitOr, BitAnd;
    OrNibble(high, low);
    LowNibble(16 * high + low);
    HighNibble(16 * high + low);
  }

  lemma OrNibble(high: nat, low: nat)
    requires low < 16
    ensures BitOr(16 * high, low) == 16 * high + low
  {
    hide BitOr;
    OrTwice(8 * high, low);
    OrTwice(4 * high, low / 2);
    OrTwice(2 * high, low / 4);
    OrTwice(high, low / 8);
    OrZero(high);
    assert low / 2 / 2 == low / 4 && low / 4 / 2 == low / 8 && low / 8 / 2 == 0;
  }

  lemma HighNibble(b: int)
    ensures BitAnd(0xF0, b) == b / 16 % 16 * 16
  {
    hide BitAnd;
    AndTwice(0x78, b);
    AndTwice(0x3C, b / 2);
    AndTwice(0x1E, b / 4);
    AndTwice(0x0F, b / 8);
    assert b / 2 / 2 == b / 4 && b / 4 / 2 == b / 8 && b / 8 / 2 == b / 16;
    LowNibble(b / 16);
  }
}
