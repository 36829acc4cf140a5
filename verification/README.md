# MIDIJuggler, modelled

MIDIJuggler routes MIDI, OSC and GPIO events between controllers and mixing
desks. This project models its stateful algorithms, its codecs, its lookup
index, the editor of its configuration file and the transfer of connections,
and proves properties of them that hold for every input, every interleaving or
every history.

`dafny verify dfyconfig.toml` checks all of it.

## How it is modelled

- Code between two `await`s is one atomic step. The Wing adapter's outbound and
  inbound fader throttles (`FaderSend`, `FaderFeedback`) and the monitor
  coalescer (`MonitorCoalescer.dfy`) are state machines over such steps, with the
  tasks that the event loop holds as part of the state. Their classes
  (`WingNative`, `MonitorCoalesce.MonitorCoalescer`) have one method for each
  stretch of code and are proved to take exactly the machine's steps.
- The other objects that change state (GPIO adapter, master clock, tempo
  trackers, echo guards, data-point store, device registry) are classes. A ghost
  history, or the sequence of operations, specifies their state, and the lemmas
  speak about that history.
- What a saved configuration file says is stated by a reader of its own: tables,
  settings, quoted strings, numbers and flags as the writer uses them, and the
  defaults and checks of the program for absent and wrong ones. What an OSC packet
  says is stated against its layout, byte by byte.
- Loops that fill lists, tables and buffers are methods with loops, proved equal
  to functions: the OSC codec, the MIDI source index, the section removers, the
  bundle loops, the finalizer.
- Times and control values are real numbers. MIDI data, channels and counters
  are integers; the bit operations on status bytes are defined on unbounded
  integers in two's complement. OSC packets are sequences of bytes, OSC floats
  are opaque 4-byte words. Text is a sequence of characters with `\n` as the only
  line break.
- Clock readings, pin levels, raised exceptions of callbacks and the order of
  steps are parameters. Numbers in the configuration file are given as printed.

## What the code does not promise

Some statements that the names or comments suggest are false of the code; the
model follows the code and says when they hold.

- A value stored while `set_float` raises stays pending without a task until the
  next store for its address (`FaderSend.FailedSendStrandsIff`).
- `MonitorCoalescer` describes a capped rate (src/midijuggler/web/monitor_coalesce.py:135).
  It holds as long as no payload is offered during a flush that is younger than
  the interval, or during a second flush; an offer at such a moment can always
  break it (`MonitorCoalesce.CapSurvivesOfferIff`).
- Removing the connections also removes assignments to names that start with
  `connections` anywhere in the file (`TomlSections.OnlySectionsAreRemovedIff`, `SettingElsewhereIsRemoved`).
- Enlarging the window of an echo guard does not bring records back
  (`EchoGuards.EnlargingLosesRecords`, `MidiEchoIff`, `MidiEchoAgreesIff`).
- A data-point value that carries several payloads is compared by one of them
  (`DataPoints.DroppedWriteLosesIff`). The brightness point forces a changed level
  through, but not a changed availability (`DataPoints.BrightnessIsKeptIff`).
- `tap_tempo_min_taps` has no upper bound, but only five taps are kept
  (`TempoTrackers.TooManyTapsWanted`).
- Reconfiguring GPIO inputs publishes nothing, so published values are sure to
  alternate across it only if the first new reading is the value published last
  (`GpioDebounce.ReconfigurationIsHarmlessIff`).
- A bundle can be imported with both roles mapped to one device, which loses
  connections whose source points are equal (`ConnectionBundle.SameDeviceKeepsAllIff`).
- Saving does not write everything: a factor connection loses its ranges, its
  inversion and its curve, any other one its factor
  (`ConnectionsReadBack.ConnectionSurvivesIff`), and a device its label. A compact
  controller on value channel 11 or display channel 12, the defaults of the other
  controller, comes back on channel 1 (`DevicesReadBack.DeviceSurvivesIff`). Line
  breaks in texts are not escaped, so that a text can be read again if and only if
  it has none (`TomlReadBack.StringSurvivesIff`).
- A failed reload leaves the device registry with the new devices but without
  the adapters behind the conflict (`ConfigFinalizer.DeviceRegistry.Reload`).

## Model

| member | source | states |
|---|---|---|
| FaderSend.SendsFollowStoresAndAreThrottled | src/midijuggler/adapters/wing_native.py:350-391 | over every interleaving the sends of an address are a subsequence of its stores, each hands over the newest value of its moment, and two of them start at least 1/60 s apart |
| FaderSend.PendingValueHasOneTask | src/midijuggler/adapters/wing_native.py:350-391 | in every reachable state a pending value has a task that can still send it if and only if the newest send for its address did not raise; no address ever has two tasks |
| FaderSend.QuiescentMeansDelivered | src/midijuggler/adapters/wing_native.py:358-391 | when no task is left, the last value sent for an address is the last one stored, unless the newest send raised |
| FaderSend.FailedSendStrandsIff | src/midijuggler/adapters/wing_native.py:367-391 | `set_float` raising leaves a value without a task exactly when one was stored during the call |
| FaderSend.StrandedRunExists | src/midijuggler/adapters/wing_native.py:358-391 | a complete run in which a stored value is never sent |
| FaderSend.StoreRecovers | src/midijuggler/adapters/wing_native.py:275-282 | the next store for that address creates a task again |
| FaderSend.DrainsInBoundedSteps | src/midijuggler/adapters/wing_native.py:358-391 | with no further stores the tasks of an address finish within six of their own steps, whatever else is interleaved |
| FaderSend.RunKeepsInv | src/midijuggler/adapters/wing_native.py:350-391 | the invariant behind these: slots and live tasks correspond, waiting tasks have work, pending is what the history owes, sleeping tasks wake late enough |
| FaderFeedback.FeedbackNeverDrifts | src/midijuggler/adapters/wing_native.py:471-504 | over every interleaving successive publications of a path differ by at least 0.01 and are a subsequence of the values received, values are taken at least 1/15 s apart, a pending value has a live task, and with nothing pending the last publication is within 0.01 of the last value received |
| FaderFeedback.StepKeepsInv | src/midijuggler/adapters/wing_native.py:480-504 | every atomic step keeps the book-keeping and the deadband invariant |
| CoalescingLog.TakesFollowStores | src/midijuggler/adapters/wing_native.py:350-391 | taken values follow the stores in order; a value is owed exactly when the newest store has not been taken |
| CoalescingLog.TakenIsLatestStored | src/midijuggler/adapters/wing_native.py:364-371 | a take hands over the latest store of its key with nothing of the key in between |
| FlushTasks.RetireKeeps | src/midijuggler/adapters/wing_native.py:386-391 | a task leaving its slot keeps one task for each key, and a task remains exactly when a value is pending and the adapter runs |
| WingNative.WingNativeAdapter.StoreFader | src/midijuggler/adapters/wing_native.py:265-283 | storing a fader value is the Store step of the protocol and leaves the other direction alone |
| WingNative.WingNativeAdapter.ScheduleFaderSend | src/midijuggler/adapters/wing_native.py:350-356 | a task is created only when the slot holds none that is still running |
| WingNative.WingNativeAdapter.WakeFaderSend | src/midijuggler/adapters/wing_native.py:361-371 | after the throttling sleep the newest value is taken; without a client or a value the flush ends without a reschedule |
| WingNative.WingNativeAdapter.FaderSendDone | src/midijuggler/adapters/wing_native.py:367-382 | `set_float` returning or raising is the corresponding protocol step |
| WingNative.WingNativeAdapter.QueueFaderFeedback | src/midijuggler/adapters/wing_native.py:471-478 | receiving feedback is the Receive step |
| WingNative.WingNativeAdapter.WakeFaderFlush | src/midijuggler/adapters/wing_native.py:483-504 | the flush publishes the newest value or drops it within the deadband, and reschedules |
| MonitorCoalesce.NothingIsLost | src/midijuggler/web/monitor_coalesce.py:151-191 | over every interleaving, callbacks that raise included: a pending payload has a live task that will look at it again, payloads taken are a subsequence of those offered, and at rest the last one taken is the last one offered |
| MonitorCoalesce.CapSurvivesOfferIff | src/midijuggler/web/monitor_coalesce.py:151-191 | after any run with accurate timers and timely offers of a key, every continuation of that kind keeps the interval between its takes if and only if the next offer is timely, too: no second flush of the key is awaited, and no first flush younger than the interval |
| MonitorCoalesce.TimelyOffersKeepCap | src/midijuggler/web/monitor_coalesce.py:151-191 | the cap over whole runs: with accurate timers and timely offers any two takes of a key are at least the interval apart, whatever the other keys do |
| MonitorCoalesce.UntimelyOfferBreaksCap | src/midijuggler/web/monitor_coalesce.py:170-191 | after any untimely offer there is a run that breaks the cap: a short flush takes the payload at once, or two live tasks of the key take one payload each |
| MonitorCoalesce.SlotsAreOverwrittenAndCapIsExceeded | src/midijuggler/web/monitor_coalesce.py:170-191 | a run that overwrites a slot of a live task and flushes two payloads of one key at the same instant |
| MonitorCoalesce.RunKeepsInv | src/midijuggler/web/monitor_coalesce.py:151-191 | every step keeps: slots point to tasks that will look again, pending keys are watched, pending is what the history owes |
| MonitorCoalesce.MonitorCoalescer.Offer | src/midijuggler/web/monitor_coalesce.py:162-168 | a non-immediate offer is the Offer step |
| MonitorCoalesce.MonitorCoalescer.Wake | src/midijuggler/web/monitor_coalesce.py:173-176 | the first look takes and flushes the pending payload or enters the `finally` block |
| MonitorCoalesce.MonitorCoalescer.EnterFinally | src/midijuggler/web/monitor_coalesce.py:177-186 | the `finally` block up to its next await |
| MonitorCoalesce.MonitorCoalescer.FlushAgainDone | src/midijuggler/web/monitor_coalesce.py:187-191 | a new task is created for what arrived during the second flush, unless it raised |
| OscRoundTrip.RoundTripIff | src/midijuggler/osc/protocol.py:9-115 | decoding an encoded message gives it back if and only if its strings are free of NUL and the address does not start with `#bundle`; the packet length is a multiple of 4 (OSC 1.0 Specification, sections "OSC Messages" and "OSC Type Tag String") |
| OscRoundTrip.DecodedMessageFits | src/midijuggler/osc/protocol.py:60-110 | whatever the decoder accepts is clean, can be encoded again, and takes at most seven bytes more than it came in |
| OscRoundTrip.CutBundleYieldsCompleteMessages | src/midijuggler/osc/protocol.py:40-57 | a bundle cut off anywhere after its header decodes to exactly the messages that are complete, in order |
| OscRoundTrip.BundleRoundTrip | src/midijuggler/osc/protocol.py:34-57 | a whole bundle decodes to its messages (OSC 1.0 Specification, section "OSC Bundles") |
| OscRoundTrip.PackThenUnpack | src/midijuggler/osc/protocol.py:19-19 | big-endian 32-bit integers in two's complement survive packing |
| OscPackets.CutPacket | src/midijuggler/osc/protocol.py:34-115 | the packet of any arguments, blobs and unknown types, cut after any number of bytes: an error before the address ends, the address alone up to its padding, an error before the type tags end, and then the arguments that can still be read |
| OscPackets.CutYieldsFirstValues | src/midijuggler/osc/protocol.py:74-101 | of cut arguments exactly those before the first whose four bytes are missing are read; it is an error only when a string has lost its zero or an unknown type has data left |
| OscPackets.WholePacket | src/midijuggler/osc/protocol.py:60-101 | a whole packet gives all its values in order; blobs of any size between them are left out and change nothing else |
| OscPackets.WithoutTags | src/midijuggler/osc/protocol.py:64-72 | an address alone, or with a second string that does not start with a comma, is a message without arguments, whatever follows |
| OscPackets.EncoderWritesLayout | src/midijuggler/osc/protocol.py:9-31 | the encoder writes the layout of OSC 1.0 byte by byte: zero-padded strings, a comma and one letter for each argument, big-endian numbers (OSC 1.0 Specification, "OSC Type Tag String") |
| OscPackets.OscIntIsBigEndian | src/midijuggler/osc/protocol.py:19-19 | the four bytes of an integer make up its value modulo 2^32, the first counting most |
| OscProtocol.EncodeMessage | src/midijuggler/osc/protocol.py:9-31 | the loop builds the packet of the specification, or raises for the first argument that cannot be encoded |
| OscProtocol.DecodeArguments | src/midijuggler/osc/protocol.py:74-101 | the loop over the type tags reads what the recursive reader reads: truncation stops it, an unknown tag raises, blobs are skipped |
| OscProtocol.DecodeMessage | src/midijuggler/osc/protocol.py:60-101 | one message is read, with each early return and exception of the original |
| OscProtocol.DecodeBundle | src/midijuggler/osc/protocol.py:40-57 | the bundle loop reads the elements up to the first that is cut off or empty |
| OscProtocol.DecodeMessages | src/midijuggler/osc/protocol.py:34-37 | a packet is a bundle or a single message |
| TomlSections.NearestHeaderDecides | src/midijuggler/config.py:428-457 | a line lies in a section exactly when the nearest header at or before it names the section |
| TomlSections.RemoveDeviceSections | src/midijuggler/config.py:428-457 | the nested loops keep exactly the lines outside the device sections, in order |
| TomlSections.RemoveConnectionSections | src/midijuggler/config.py:528-561 | the nested loops are one pass of a line automaton with sections, assignments and open arrays |
| TomlSections.OnlySectionsAreRemovedIff | src/midijuggler/config.py:528-561 | removing connections keeps exactly the lines outside their sections if and only if none of those looks like an assignment to a name starting with `connections` |
| TomlSections.SettingElsewhereIsRemoved | src/midijuggler/config.py:528-561 | a text without connections from which a setting `connections_timeout` of another section is removed |
| TomlSections.OutsideHasNoHeader | src/midijuggler/config.py:428-457 | nothing that is kept is a header of a removed section |
| TomlSave.SavingConnectionsIsLastWriteWins | src/midijuggler/config.py:359-371 | for newline-free fields, saving c1 then c2 gives the text of saving c2; removing is idempotent, undoes a save, and equals saving nothing |
| TomlSave.SavingDevicesIsLastWriteWins | src/midijuggler/config.py:343-356 | the same for devices with their nested custom points |
| TomlSave.ConnectionLinesAreClean | src/midijuggler/config.py:564-593 | a formatted connection has one header, and no other line of it starts a section |
| TomlSave.DeviceLinesAreClean | src/midijuggler/config.py:460-509 | a formatted device has only device headers |
| TomlReadBack.StringIsReadBack | src/midijuggler/config.py:812-813 | a quoted string is read back as it was written, whatever quotes and backslashes it contains |
| TomlReadBack.StringSurvivesIff | src/midijuggler/config.py:812-813 | in a text a written string is read back if and only if it has no line break; with one it cannot be read at all |
| TomlReadBack.TablesOfSaved | src/midijuggler/config.py:359-371 | a saved text shows the tables of the kept lines, each with its settings, and behind them those of the saved blocks |
| ConnectionsReadBack.SavedConnectionsAreReadBack | src/midijuggler/config.py:359-371 | reading a saved text gives the saved connections in order and no other, and every other table of the text is still there with its settings |
| ConnectionsReadBack.TableIsReadBack | src/midijuggler/config.py:569-593 | the lines of a connection are read as that connection: each field under its key, absent keys as their defaults, or an exception exactly when a required field is empty, modifier or curve are unknown, or a factor is zero |
| ConnectionsReadBack.ConnectionSurvivesIff | src/midijuggler/config.py:1851-1890 | a connection survives saving and loading unchanged if and only if it is readable and what is not written for its kind has its default: ranges, inversion and curve of a factor, the factor of any other |
| ConnectionsReadBack.FactorConnectionLosesInversion | src/midijuggler/config.py:576-588 | an inverted factor connection that comes back not inverted |
| DevicesReadBack.SavedDevicesAreReadBack | src/midijuggler/config.py:343-356 | the same for devices, each with its own custom points in order |
| DevicesReadBack.TableIsReadBack | src/midijuggler/config.py:1620-1695 | the lines of a device and of its points are read as that device, or an exception exactly when a name is not allowed, a point has no id, or a library that is not an X-Touch has an interval or channels |
| DevicesReadBack.PointIsReadBack | src/midijuggler/config.py:1698-1715 | a custom point is read as it was written, but for blanks around its id |
| DevicesReadBack.DeviceSurvivesIff | src/midijuggler/config.py:465-484 | a readable device survives unchanged if and only if it has no label, no blanks around its names, and is no compact controller on value channel 11 or display channel 12 |
| DevicesReadBack.CompactOnChannelElevenIsReadAsOne | src/midijuggler/config.py:479-482 | a compact controller on channel 11 that comes back on channel 1 |
| TomlReplace.AdapterSectionEnd | src/midijuggler/config.py:640-662 | the nested loops find the first header after the start that is neither the section's own nor its inputs header |
| TomlReplace.SectionEnd | src/midijuggler/config.py:640-662 | no line before the end is a foreign header, and the line at the end is |
| TomlReplace.InputsHeaderForm | src/midijuggler/config.py:640-662 | the inputs table that belongs to an adapter's section |
| TomlReplace.ReplacingKeepsTheRest | src/midijuggler/config.py:679-690 | after a replacement the lines before the section stand unchanged, the new section follows, then what stood behind the old one but for blanks at the end of the file |
| TomlReplace.ReplacingIsLastWriteWins | src/midijuggler/config.py:665-690 | with the header present: replacing twice is the last replacement, and removing after replacing is removing |
| TomlReplace.AppendingIsLastWriteWinsUpToBlanks | src/midijuggler/config.py:679-690 | with the header absent: the same up to blanks at the end, and exactly when the section ends with one line break; removing what was appended gives the stripped text |
| TomlReplace.StrippedSection | src/midijuggler/config.py:679-690 | a section stays a section of its header when its text is stripped |
| MidiSourceIndex.BuildSourceIndex | src/midijuggler/midi/library_match.py:189-244 | the loop fills six tables whose every entry is what a scan of the library finds; it raises exactly when the channel of some input cannot be resolved |
| MidiSourceIndex.IsInputIff | src/midijuggler/midi/library_match.py:207-213 | which parameters are received: sources and bidirectional ones of the library's port, or of none without a port, that have a channel |
| MidiSourceIndex.AddParameter | src/midijuggler/midi/library_match.py:223-235 | one parameter enters exactly the slots that it fills |
| MidiSourceIndex.MatchIsScan | src/midijuggler/midi/library_match.py:40-118 | `match` returns, in library order, the inputs a scan by kind, channel and number returns, with the value of `extract_midi_value`; it fails only for a note-on without velocity |
| MidiSourceIndex.RelaxedIsScan | src/midijuggler/midi/library_match.py:57-71 | `match_relaxed` is the exact scan, or the single input with that note or controller number when that scan is empty |
| MidiSourceIndex.FallbackIsUnambiguous | src/midijuggler/midi/library_match.py:57-138 | with an empty exact scan a control is named if and only if exactly one library entry is an input of that kind and number |
| MidiSourceIndex.EveryMessageResolves | src/midijuggler/midi/library_match.py:141-186 | with or without an index, a message resolves to a control exactly when it is a complete note, controller, program or pitch bend message, and every control gets the message's value |
| MidiSourceIndex.StatusByte | src/midijuggler/midi/library_match.py:175-186 | kind, channel and value of a message by the halves of its status byte, in numbers (MIDI 1.0 Detailed Specification, "Channel Voice Messages") |
| MidiSourceIndex.RawNames | src/midijuggler/midi/library_match.py:159-172 | the raw name of each kind of message, with the channel counted from 0 and the first data byte in decimal |
| MidiSourceIndex.DigitsForm | src/midijuggler/midi/library_match.py:159-172 | numbers are written in decimal without leading zeros and read as that number |
| MidiLibrary.ChannelResolvesIff | src/midijuggler/midi/xtouch_channels.py:49-153 | a channel resolves exactly when the parameter has one and both adapter options are unset or read as 1..16, even for controllers that do not use them, unless the device brings its own; and it is the parameter's own, the device's, the option's or the controller's default |
| MidiLibrary.ChannelOnWire | src/midijuggler/midi/library_match.py:215-221 | the channel counted from 0 is one less than the resolved one, or than the parameter's own without an adapter |
| MidiLibrary.ChannelFails | src/midijuggler/midi/xtouch_channels.py:106-121 | which exception is raised first: no channel, a value option that is no integer or out of range, then the display option |
| MidiLibrary.LibraryForm | src/midijuggler/midi/xtouch_channels.py:49-60 | the library is the device's unless that is blank, and else the adapter's |
| MidiLibrary.Nibbles | src/midijuggler/midi/target_encode.py:128-147 | a status byte holds type and channel: combining and masking are inverse (MIDI 1.0 Detailed Specification, "Channel Voice Messages") |
| MidiTargetEncode.EncodedAnswers | src/midijuggler/midi/target_encode.py:93-149 | an encodable input encodes without error to a message that asks for it on its resolved channel and carries the value |
| MidiTargetEncode.SentIsReceived | src/midijuggler/midi/target_encode.py:93-158 | resolving the encoded message through an index for the same adapter and device gives the parameter back among those that share the message, all with the carried value, never by the channel fallback |
| MidiTargetEncode.EncodeThenResolveIsRounding | src/midijuggler/midi/target_encode.py:93-158 | for 7-bit and 14-bit ranges the value that comes back is the rounded one within the range and the rounded end of the range beyond it, and the result is that one control when nothing shares its message |
| MidiTargetEncode.CarriesRoundedValue | src/midijuggler/midi/target_encode.py:152-158 | the value carried is the rounded one within the range, and the rounded end of the range beyond it |
| MidiTargetEncode.SentBytes | src/midijuggler/midi/target_encode.py:117-158 | the bytes sent for every kind of parameter: status, number, clamped and rounded value, configured note-on and note-off velocities, program and bend |
| MidiTargetEncode.EncodeFailsIff | src/midijuggler/midi/target_encode.py:93-158 | exactly when nothing is sent, and which exception is raised first |
| MidiTargetEncode.Septets | src/midijuggler/midi/target_encode.py:144-146 | the two data bytes of a pitch bend are seven bits each and make up the value again (MIDI 1.0 Detailed Specification, "Pitch Bend Change") |
| Common.RoundHalfEven | src/midijuggler/midi/target_encode.py:152-158 | Python's rounding: within one half, halves to even |
| Common.Clamp | src/midijuggler/midi/target_encode.py:152-158 | the value inside the range, the nearer end outside it |
| Common.Distance | src/midijuggler/datapoint/compare.py:19-24 | the absolute difference |
| GpioDebounce.StableIsLastSettled | src/midijuggler/adapters/gpio.py:310-327 | the stable value is that of the latest poll that ends a long enough run, or the initial one if none did |
| GpioDebounce.LongRunSettles | src/midijuggler/adapters/gpio.py:310-327 | on a monotonic clock any stretch of two or more polls reading v over the bounce time leaves the input stable at v |
| GpioDebounce.PublicationIsBacked | src/midijuggler/adapters/gpio.py:319-327 | a publication of v is a change and is backed by an unbroken run of polls reading v over the bounce time |
| GpioDebounce.PublishedAlternate | src/midijuggler/adapters/gpio.py:310-341 | published values start with the initial reading, alternate strictly, and end in the stable value |
| GpioDebounce.PublicationsAreSpaced | src/midijuggler/adapters/gpio.py:310-327 | two publications of an input are at least the bounce time apart |
| GpioDebounce.ReconfigurationIsHarmlessIff | src/midijuggler/adapters/gpio.py:372-400 | whatever is polled after a reconfiguration, the published values go on alternating if and only if its first reading agrees with the value published last |
| GpioDebounce.ReconfiguredAlternatesIff | src/midijuggler/adapters/gpio.py:310-341 | what was published before and after a reconfiguration alternates exactly when nothing is published after it or its first reading agrees with the value published last |
| GpioDebounce.ReleaseIsPublishedTwice | src/midijuggler/adapters/gpio.py:372-400 | a reconfiguration while an input is pressed, after which its release is published a second time in a row |
| GpioDebounce.GpioAdapter.PollOnce | src/midijuggler/adapters/gpio.py:310-327 | one round adds one reading to each input's history, updates every state by it, publishes in input order, and extends the streams by what it publishes |
| GpioDebounce.GpioAdapter.PublishInitialStates | src/midijuggler/adapters/gpio.py:329-341 | every input starts over from a fresh reading, which is published as initial |
| GpioDebounce.GpioAdapter.Open | src/midijuggler/adapters/gpio.py:411-433 | each pin gets a state from its first reading; nothing is published, and what was published before stays the beginning of the pin's stream |
| GpioDebounce.PolledAddsOne | src/midijuggler/adapters/gpio.py:310-327 | a round touches the history of each configured pin once |
| GpioDebounce.LogicalValue | src/midijuggler/adapters/gpio.py:366-370 | a pin is on exactly when it is high, or low for an active-low input |
| MasterClockTransport.NeverEarly | src/midijuggler/master_clock.py:555-566 | under any tempo commands, reconfigurations and resyncs, tick n comes no earlier than the start plus the first n intervals, each the interval of a tempo within the configured bounds; the deadline lags the clock by at most 8 intervals |
| MasterClockTransport.TicksAreBounded | src/midijuggler/master_clock.py:555-574 | ticks by time T are at most (T - start) * fastest tempo * 24 / 60 |
| MasterClockTransport.DeadlineIsExact | src/midijuggler/master_clock.py:555-566 | the deadline is the start plus all intervals plus what resynchronising added, nothing else |
| MasterClockTransport.ResyncsIffTooLate | src/midijuggler/master_clock.py:559-565 | a turn resynchronises exactly when it begins more than nine intervals after the previous deadline, and the next one is then one interval from the second reading |
| MasterClockTransport.StepKeepsInv | src/midijuggler/master_clock.py:341-424 | every command and every half of a loop pass keeps tempo, schedule and lag |
| MasterClockTransport.FasterIsShorter | src/midijuggler/master_clock.py:687-688 | a faster tempo has shorter ticks |
| MasterClockTransport.TicksFillMinute | src/midijuggler/master_clock.py:687-688 | 24 ticks are one beat, and a minute has as many beats as the tempo says |
| MasterClockTransport.MasterClock.BeginTurn | src/midijuggler/master_clock.py:558-565 | one pass of the loop up to its sleep, which lasts until the deadline, or not at all |
| MasterClockTransport.MasterClock.SetBpm | src/midijuggler/master_clock.py:398-424 | the tempo ends within 0.000001 of the clamped request, and is the old one or exactly that |
| MasterClockTransport.MasterClock.EmitFrame | src/midijuggler/master_clock.py:568-574 | a frame advances the position by one |
| TempoTrackers.StoredIsEndOfRun | src/midijuggler/master_clock.py:116-121 | the stored list is the last min(max, run length) entries of the longest run without a long pause |
| TempoTrackers.MeanIsSpanByCount | src/midijuggler/master_clock.py:122-133 | positive gaps telescope: their mean is the span by their number and at most the timeout; there is none exactly when all taps came at once |
| TempoTrackers.TapTempoIffEnoughTaps | src/midijuggler/master_clock.py:116-133 | a tap gives a tempo if and only if the window has the minimum of taps and a positive span; it is at least 60 / reset timeout before rounding |
| TempoTrackers.TempoIsStepsBySpan | src/midijuggler/master_clock.py:122-133 | the tempo is as many beats as the window has forward steps, in the time of its span |
| TempoTrackers.QuantizeIsNearest | src/midijuggler/master_clock.py:91-92 | rounding to a step gives the nearest multiple of it, half way the even one |
| TempoTrackers.TooManyTapsWanted | src/midijuggler/master_clock.py:97-133 | a minimum above the number of kept taps never gives a tempo |
| TempoTrackers.TapTempoTracker.RegisterTap | src/midijuggler/master_clock.py:116-133 | the tracker computes the rounded tempo of its whole tap history |
| TempoTrackers.ClockBpmTracker.Tick | src/midijuggler/clock.py:36-59 | the tracker keeps the window and the estimate of its whole tick history |
| TempoTrackers.ClockEstimateIsWindowed | src/midijuggler/clock.py:36-59 | the estimate is 60 * steps / (24 * span) of the current window, and at least 60 / (24 * timeout) |
| EchoGuards.RecentIsSurviving | src/midijuggler/midi/echo_guard.py:64-72 | for any history the list holds exactly the records that were inside the window at every reading of the clock since and not wiped by switching the guard off |
| EchoGuards.MidiEchoIff | src/midijuggler/midi/echo_guard.py:41-72 | on a clock that never runs backwards, with a window never enlarged since the guard was last off, a message is an echo if and only if a matching one recorded since then lies within the window |
| EchoGuards.OscEchoIff | src/midijuggler/midi/echo_guard.py:101-136 | the same for an address and a value within the tolerance |
| EchoGuards.MidiEchoAgreesIff | src/midijuggler/midi/echo_guard.py:41-72 | after any history the guard answers all coming queries for a key by what was recorded if and only if every record that can still lie within the window is held, or a newer one of the key is |
| EchoGuards.SameMessageIff | src/midijuggler/midi/echo_guard.py:25-26 | two messages match exactly when they agree in the low eight bits of the status, in length, and in the low seven bits of every data byte |
| EchoGuards.SameValueIff | src/midijuggler/midi/echo_guard.py:113-136 | two OSC values match exactly when their stripped addresses agree and the values differ by no more than the tolerance |
| EchoGuards.WindowInSeconds | src/midijuggler/midi/echo_guard.py:41-42 | the window is the milliseconds in seconds, and zero for none |
| EchoGuards.FoundUnlessEnlarged | src/midijuggler/midi/echo_guard.py:41-72 | a record inside the present window is held if the clock never ran backwards and the window was not enlarged since it was made |
| EchoGuards.EnlargingLosesRecords | src/midijuggler/midi/echo_guard.py:41-72 | with an enlarged window a record inside it can be gone |
| EchoGuards.MidiEchoGuard.IsEcho | src/midijuggler/midi/echo_guard.py:53-62 | true if and only if a surviving record has the same masked key and is inside the window now |
| EchoGuards.MidiEchoGuard.Record | src/midijuggler/midi/echo_guard.py:46-51 | recording extends the history, and prunes |
| EchoGuards.MidiEchoGuard.Configure | src/midijuggler/midi/echo_guard.py:41-44 | a new window, and an empty list when that switches the guard off |
| EchoGuards.OscEchoGuard.IsEcho | src/midijuggler/midi/echo_guard.py:113-126 | true if and only if a surviving record has the same stripped address, a value within the tolerance, and is inside the window now |
| EchoGuards.OscEchoGuard.Record | src/midijuggler/midi/echo_guard.py:106-111 | recording extends the history, and prunes |
| DataPoints.FloatsConverge | src/midijuggler/datapoint/store.py:30-154 | after any sequence of operations, if the last write to a key since it was unregistered is of a type whose values carry floats, the key holds a float within the epsilon of its present specification of that write, whatever else the values carry and whatever other types were written |
| DataPoints.FloatIsHeldIff | src/midijuggler/datapoint/store.py:93-154 | in any state a written float is held within the epsilon if and only if the write counts or the key holds a float |
| DataPoints.EmptyFloatSticks | src/midijuggler/datapoint/store.py:134-154 | a float value without its float stays: the float written next is dropped |
| DataPoints.StoreHoldsLastWrite | src/midijuggler/datapoint/store.py:30-154 | for values with one payload the whole value is close to the last write, and the key holds none if there was none |
| DataPoints.CompareEpsilon | src/midijuggler/datapoint/compare.py:8-16 | the epsilon of each kind of range in numbers |
| DataPoints.WriteIsDroppedIff | src/midijuggler/datapoint/store.py:93-154 | exactly when a write is dropped, in terms of the value held and the numbers of the epsilon |
| DataPoints.TurnsAreRecognised | src/midijuggler/datapoint/store.py:121-132 | which keys are relative rotations, whose writes always count |
| DataPoints.DroppedWriteLosesIff | src/midijuggler/datapoint/store.py:136-154 | a dropped write loses something exactly when the two values differ in a field other than the first of float, bool and int that both carry |
| DataPoints.BrightnessIsKeptIff | src/midijuggler/modules/interface/gamepi_brightness.py:34-61 | a published brightness level is always held; its availability is held exactly when it has not changed, or the level or the maximum has |
| DataPoints.UnavailableAtZeroIsDropped | src/midijuggler/modules/interface/gamepi_brightness.py:34-61 | a display at level zero that becomes unavailable is still held as available |
| DataPoints.RegisteringWidens | src/midijuggler/datapoint/compare.py:8-16 | registering a specification never shrinks the epsilon |
| DataPoints.HistoryIsLastAccepted | src/midijuggler/datapoint/store.py:28-106 | the history is the end of the accepted writes, in order |
| DataPoints.DataPointStore.WriteValue | src/midijuggler/datapoint/store.py:93-119 | an accepted write is stored and reaches the point's and the general subscribers in order; a dropped one changes nothing |
| DataPoints.DataPointStore.RegisterSpec | src/midijuggler/datapoint/store.py:30-34 | raises exactly for a different specification, and then changes nothing |
| DataPoints.DataPointStore.UnregisterPoint | src/midijuggler/datapoint/store.py:40-44 | specification, value and subscribers go together |
| ConnectionBundle.ImportOfExportIff | src/midijuggler/connection/bundle.py:244-286 | one connection is renamed faithfully, all fields but `managed_by` kept, if and only if points and id carry no surrounding blanks, curve and factor are valid, and the id is free or the one that would be generated |
| ConnectionBundle.ImportOfEntry | src/midijuggler/connection/bundle.py:413-461 | the exception of the first check that an entry of a bundle fails, or each field of the connection with the default of an absent key |
| ConnectionBundle.ImportedIsRenamed | src/midijuggler/connection/bundle.py:413-461 | with distinct free ids the imported list is the pair's connections between the other devices, in order |
| ConnectionBundle.BundleIsFaithfulRenaming | src/midijuggler/connection/bundle.py:72-192 | the whole transfer; with distinct sources and two different devices without dots in their ids every imported connection survives the merge |
| ConnectionBundle.MergeKeepsSurvivors | src/midijuggler/learn.py:440-451 | folding `upsert_connection` keeps, in order, exactly the connections that no later imported one replaces by id or connected source |
| ConnectionBundle.AllImportedSurviveIff | src/midijuggler/connection/bundle.py:183-192 | all imported connections survive if and only if no two of them share an id or a connected source |
| ConnectionBundle.SameDeviceKeepsAllIff | src/midijuggler/connection/bundle.py:385-410 | with both roles mapped to one device all imported connections survive the merge if and only if the source points of the bundle are pairwise distinct |
| ConnectionBundle.SameDeviceLosesConnection | src/midijuggler/connection/bundle.py:385-410 | two connections with different sources, of which one is lost that way |
| ConnectionBundle.DotPosition | src/midijuggler/connection/bundle.py:279-286 | an endpoint splits at the first dot into device and point |
| ConnectionBundle.ReplacesIff | src/midijuggler/learn.py:440-451 | a connection replaces those of its id and those of its source, except for the source `nicht_verbunden.nicht_verbunden` |
| ConnectionBundle.RoleForm | src/midijuggler/connection/bundle.py:274-286 | which role an endpoint gets: none without a point, for a built-in module or another device |
| ConnectionBundle.ExportForm | src/midijuggler/connection/bundle.py:244-271 | every field of an exported connection; a straight curve and an unused factor of one are left out |
| ConnectionBundle.ExportConnections | src/midijuggler/connection/bundle.py:92-102 | the loop exports exactly the connections between the two devices, in order |
| ConnectionBundle.ApplyImport | src/midijuggler/connection/bundle.py:183-192 | the loop imports all connections and folds them in, or raises the first error |
| ConnectionBundle.SlugForm | src/midijuggler/learn.py:318-323 | a slug consists of words of small letters and digits joined by single dashes, and slugging it again changes nothing |
| ConnectionBundle.SlugOfWords | src/midijuggler/learn.py:319-320 | two words with anything between them are joined by one dash, in small letters |
| ConnectionBundle.GeneratedIdForm | src/midijuggler/learn.py:318-323 | a generated id depends on the slugs only, starts with `learn-`, and is cut at 120 characters exactly when both slugs are longer than 110 together |
| ConfigFinalizer.FinalizeLeniently | src/midijuggler/config.py:1535-1589 | keeps the first device of each configured adapter and the connections whose endpoints resolve; every dropped item is reported once, with its reason |
| ConfigFinalizer.ValidateDevicesAndConnections | src/midijuggler/config.py:1820-1848 | passes exactly when no adapter is shared and all endpoints resolve |
| ConfigFinalizer.LenientResultIsValid | src/midijuggler/config.py:1535-1589 | what the lenient path accepts always passes the strict check, and its adapters are configured |
| ConfigFinalizer.UnchangedIffStrictlyValid | src/midijuggler/config.py:1535-1589 | the lenient path changes nothing, and reports nothing, if and only if the strict check passes and all adapters are configured |
| ConfigFinalizer.FinalizingIsIdempotent | src/midijuggler/config.py:1535-1589 | finalizing twice is finalizing once |
| ConfigFinalizer.ResolvesToDevice | src/midijuggler/config.py:1780-1817 | whatever a module name resolves to is the uid of a configured device |
| ConfigFinalizer.RulesInOrder | src/midijuggler/config.py:1780-1817 | a name is a uid, else the first device of that name, else the last one bound to that adapter, else the only one with that prefix, else the only one with that library; ambiguous prefixes and libraries resolve to nothing |
| ConfigFinalizer.ShorthandForm | src/midijuggler/config.py:1770-1777 | a library goes by the mode of its desk, or else by its name without the maker's prefix |
| ConfigFinalizer.NormalizedForm | src/midijuggler/config.py:1756-1767 | an endpoint of a name that resolves gets that device's uid and keeps its point; without a dot, for a built-in module or an unknown name it stays |
| ConfigFinalizer.EndpointFitsIff | src/midijuggler/config.py:1835-1848 | an endpoint passes exactly when its first part is a built-in module or resolves |
| ConfigFinalizer.NormalizingIsIdempotent | src/midijuggler/config.py:1756-1767 | normalizing an endpoint twice is normalizing it once when uids carry no dots |
| ConfigFinalizer.RegistryAcceptsFinalized | src/midijuggler/device/registry.py:16-26 | the registry never raises for an accepted configuration |
| ConfigFinalizer.DeviceRegistry.Reload | src/midijuggler/device/registry.py:32-43 | raises exactly for a shared adapter, and then keeps the new devices with only the first adapters bound |
| ConfigFinalizer.DeviceRegistry.DeviceForAdapter | src/midijuggler/device/registry.py:57-61 | finds the device of an adapter exactly when there is one |

## Left out

- Tear-down and reconnection of the Wing session during sends: its map of tasks is cleared while some may still be running.
- FaderSend.DrainsInBoundedSteps: counts steps and does not bound time, because how long `set_float` and `publish` take is up to the desk and the subscribers.
- Immediate offers and `close` of the monitor coalescer: the first bypasses its state, the second cancels its tasks.
- UTF-8, IEEE float conversion, negative blob sizes and nested bundles in OSC packets.
- TOML that is never saved: multi-line and literal strings, inline tables, comments, sub-tables. The kept part of a text is only read as lines and headers.
- Line breaks other than `\n`, and white space other than blanks, tabs and the ASCII line and page breaks: values with a newline are not escaped when they are written (src/midijuggler/config.py:812-813).
- ConnectionsReadBack.SavedConnectionsAreReadBack: requires newline-free values and numbers that end with a visible character, as Python prints them; what the text of a number means is not modelled. `managed_by` is never written.
- DevicesReadBack.SavedDevicesAreReadBack: the same; the adapter of a device is not looked up when it is read, and the range and step of its interval are not checked.
- TomlSave.SavingDevicesIsLastWriteWins: requires newline-free values, which is what the escaping of the writer presupposes.
- The sections for mappings, runtime, display and other settings: the editing loops are those of devices or the replacement modelled here.
- Resolving a target id to a library parameter, and raw point names such as `cc:1:64`: the two sides count channels differently (src/midijuggler/midi/library_match.py:164, src/midijuggler/midi/target_encode.py:240).
- MidiTargetEncode.SentIsReceived: covers controllers, notes and pitch bends; a program change carries its value in place of the number it is matched by.
- Echo guard and feedback calls of the Wing adapter around a send: they do not touch the maps of the protocol.
- Opening and closing of GPIO readers, and readings that raise: I/O of the operating system.
- A second transport thread after a stop that timed out, the click output, and the notifications of a changed tempo: one run of one thread is modelled.
- Awaiting inside data-point handlers, and `unregister_module_except`: handlers are returned in order, the second is a sequence of the modelled operations.
- DataPoints.StoreHoldsLastWrite: assumes that values of the key carry one payload; `FloatsConverge` does not, and `DroppedWriteLosesIff` says what any dropped write loses.
- DataPoints.FloatsConverge: speaks of a type whose values all carry floats; `FloatIsHeldIff` and `EmptyFloatSticks` say what happens otherwise.
- Custom points and device types in bundles, and payloads of other types than the exporter writes: they are merged or compared without affecting the connections.
- Case folding of characters outside ASCII in generated ids.
- `supplement_devices` and the normalization of adapter references before the finalizer; devices are given as a list with one entry for each uid.
- Text of log and error messages.
