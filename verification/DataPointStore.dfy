/** The registry and value bus for data points. A write that does not change the
    value is dropped; floats count as unchanged within an epsilon that depends on
    the range in the point's specification. */
module DataPoints {
  import opened Common

  datatype ValueType = Float | Bool | Int | Trigger | MidiMessage | OscMessage

  datatype DataPointId = DataPointId(module_: string, point: string) {
    function Key(): string {
      module_ + "." + point
    }
  }

  datatype DataPointSpec = DataPointSpec(
    id: DataPointId,
    valueType: ValueType,
    direction: string,
    description: string, // label, protocol and category
    valueMin: Option<real>,
    valueMax: Option<real>,
    inputMode: string,
    relativeEncoding: string)

  /** An OSC argument as Python compares it: numbers and booleans by value. */
  datatype Argument = Number(value: real) | Text(text: string) | Bytes(bytes: seq<int>)

  datatype DataPointValue = DataPointValue(
    id: DataPointId,
    valueType: ValueType,
    timestamp: real,
    floatValue: Option<real>,
    boolValue: Option<bool>,
    intValue: Option<int>,
    midiStatus: Option<int>,
    midiData: Option<seq<int>>,
    oscAddress: Option<string>,
    oscArguments: Option<seq<Argument>>,
    forceNotify: bool)

  // ---- Comparing ----

  function CompareEpsilon(spec: Option<DataPointSpec>): (epsilon: real)
    ensures epsilon >= 0.000000001
    ensures spec.None? || spec.value.valueMin.None? || spec.value.valueMax.None? ==> epsilon == 0.000000001
    ensures spec.Some? && spec.value.valueMin.Some? && spec.value.valueMax.Some? ==>
              var span := spec.value.valueMax.value - spec.value.valueMin.value;
              && (span <= 1.0 ==> epsilon == 0.000000001)
              && (1.0 < span <= 10.0 ==> epsilon >= 0.000001 && epsilon >= span * 0.00001
                                           && (epsilon == 0.000001 || epsilon == span * 0.00001))
              && (span > 10.0 ==> epsilon >= 0.001 && epsilon >= span * 0.0001
                                    && (epsilon == 0.001 || epsilon == span * 0.0001))
  {
    if spec.None? || spec.value.valueMin.None? || spec.value.valueMax.None? then 0.000000001
    else
      var span := spec.value.valueMax.value - spec.value.valueMin.value;
      if span > 10.0 then (if span * 0.0001 > 0.001 then span * 0.0001 else 0.001)
      else if span > 1.0 then (if span * 0.00001 > 0.000001 then span * 0.00001 else 0.000001)
      else 0.000000001
  }

  predicate FloatsDiffer(previous: real, current: real, spec: Option<DataPointSpec>) {
    Distance(current, previous) > CompareEpsilon(spec)
  }

  predicate EndsWith(s: string, end: string) {
    |end| <= |s| && s[|s| - |end|..] == end
  }

  /** `key.rsplit(".", 1)[-1]` */
  function LastSegment(key: string): string {
    if key == "" || key[|key| - 1] == '.' then ""
    else LastSegment(key[..|key| - 1]) + [key[|key| - 1]]
  }

  function Lookup<V>(table: map<string, V>, key: string): Option<V> {
    if key in table then Some(table[key]) else None
  }

  /** Writes of these values are never dropped. */
  predicate AlwaysCounts(key: string, v: DataPointValue, spec: Option<DataPointSpec>) {
    || v.forceNotify
    || v.valueType.MidiMessage?
    || (spec.Some? && spec.value.inputMode == "relative")
    || EndsWith(LastSegment(key), "_turn")
  }

  predicate PayloadDiffers(p: DataPointValue, v: DataPointValue, spec: Option<DataPointSpec>) {
    if v.valueType != p.valueType then true
    else if v.floatValue.Some? && p.floatValue.Some? then FloatsDiffer(p.floatValue.value, v.floatValue.value, spec)
    else if v.boolValue.Some? && p.boolValue.Some? then v.boolValue != p.boolValue
    else if v.intValue.Some? && p.intValue.Some? then v.intValue != p.intValue
    else MessageDiffers(p, v)
  }

  predicate MessageDiffers(p: DataPointValue, v: DataPointValue) {
    v.midiStatus != p.midiStatus || v.midiData != p.midiData || v.oscAddress != p.oscAddress || v.oscArguments != p.oscArguments
  }

  predicate ValueChanged(key: string, v: DataPointValue, previous: Option<DataPointValue>, spec: Option<DataPointSpec>) {
    AlwaysCounts(key, v, spec) || previous.None? || PayloadDiffers(previous.value, v, spec)
  }

  // ---- The store as a state machine ----

  type Handler = nat

  datatype Store = Store(
    specs: map<string, DataPointSpec>,
    values: map<string, DataPointValue>,
    subscribers: map<string, seq<Handler>>,
    history: seq<DataPointValue>)

  datatype Op =
    | Register(spec: DataPointSpec)
    | Unregister(id: DataPointId)
    | Subscribe(key: string, handler: Handler)
    | Write(value: DataPointValue)

  const EMPTY := Store(map[], map[], map[], [])

  /** A `deque` of bounded length. */
  function Push<T>(history: seq<T>, x: T, size: nat): seq<T> {
    var longer := history + [x];
    if |longer| > size then longer[|longer| - size..] else longer
  }

  function Subscribers(s: Store, key: string): seq<Handler> {
    if key in s.subscribers then s.subscribers[key] else []
  }

  predicate Accepts(s: Store, v: DataPointValue) {
    var key := v.id.Key();
    ValueChanged(key, v, Lookup(s.values, key), Lookup(s.specs, key))
  }

  /** A rejected registration raises and changes nothing. */
  predicate Conflicts(s: Store, spec: DataPointSpec) {
    spec.id.Key() in s.specs && s.specs[spec.id.Key()] != spec
  }

  function Next(s: Store, op: Op, size: nat): Store {
    match op
    case Register(spec) => if Conflicts(s, spec) then s else s.(specs := s.specs[spec.id.Key() := spec])
    case Unregister(id) =>
      s.(specs := s.specs - {id.Key()}, values := s.values - {id.Key()}, subscribers := s.subscribers - {id.Key()})
    case Subscribe(key, handler) => s.(subscribers := s.subscribers[key := Subscribers(s, key) + [handler]])
    case Write(v) =>
      if Accepts(s, v) then s.(values := s.values[v.id.Key() := v], history := Push(s.history, v, size)) else s
  }

  function After(ops: seq<Op>, size: nat): Store {
    if ops == [] then EMPTY else Next(After(ops[..|ops| - 1], size), ops[|ops| - 1], size)
  }

  // ---- What the store stands for ----

  /** The last value written to a key since it was last unregistered. */
  function LastWrite(ops: seq<Op>, key: string): Option<DataPointValue> {
    if ops == [] then None
    else
      var before := LastWrite(ops[..|ops| - 1], key);
      match ops[|ops| - 1]
      case Write(v) => if v.id.Key() == key then Some(v) else before
      case Unregister(id) => if id.Key() == key then None else before
      case _ => before
  }

  /** Same kind and payload, floats within the epsilon. */
  predicate Close(p: DataPointValue, v: DataPointValue, epsilon: real) {
    && p.valueType == v.valueType
    && (if p.floatValue.Some? && v.floatValue.Some? then Distance(v.floatValue.value, p.floatValue.value) <= epsilon
        else p.floatValue == v.floatValue)
    && p.boolValue == v.boolValue && p.intValue == v.intValue
    && !MessageDiffers(p, v)
  }

  /** A value carries what its type says, and nothing else. */
  predicate SinglePayload(v: DataPointValue) {
    && (v.floatValue.Some? <==> v.valueType.Float?)
    && (v.boolValue.Some? <==> v.valueType.Bool? || v.valueType.Trigger?)
    && (v.intValue.Some? <==> v.valueType.Int?)
    && (!v.valueType.MidiMessage? ==> v.midiStatus.None? && v.midiData.None?)
    && (!v.valueType.OscMessage? ==> v.oscAddress.None? && v.oscArguments.None?)
  }

  /** Exactly when a dropped write loses something: one field, the first of float,
      bool and int that both values carry, decides alone. */
  lemma DroppedWriteLosesIff(p: DataPointValue, v: DataPointValue, spec: Option<DataPointSpec>)
    requires !PayloadDiffers(p, v, spec)
    ensures var bothFloat := p.floatValue.Some? && v.floatValue.Some?;
            var bothBool := p.boolValue.Some? && v.boolValue.Some?;
            var bothInt := p.intValue.Some? && v.intValue.Some?;
            !Close(p, v, CompareEpsilon(spec)) <==>
              if bothFloat then p.boolValue != v.boolValue || p.intValue != v.intValue || MessageDiffers(p, v)
              else if bothBool then p.floatValue != v.floatValue || p.intValue != v.intValue || MessageDiffers(p, v)
              else if bothInt then p.floatValue != v.floatValue || p.boolValue != v.boolValue || MessageDiffers(p, v)
              else p.floatValue != v.floatValue || p.boolValue != v.boolValue || p.intValue != v.intValue
  {
  }

  lemma DroppedSinglePayloadIsClose(p: DataPointValue, v: DataPointValue, spec: Option<DataPointSpec>)
    requires SinglePayload(p) && SinglePayload(v) && !PayloadDiffers(p, v, spec)
    ensures Close(p, v, CompareEpsilon(spec))
  {
    hide CompareEpsilon;
  }

  /** Registering a point never makes the comparison stricter. */
  lemma RegisteringWidens(spec: DataPointSpec)
    ensures CompareEpsilon(None) <= CompareEpsilon(Some(spec))
  {
  }

  predicate Converged(s: Store, key: string, last: Option<DataPointValue>) {
    && (last.None? <==> key !in s.values)
    && (last.Some? ==>
          && SinglePayload(s.values[key])
          && Close(s.values[key], last.value, CompareEpsilon(Lookup(s.specs, key))))
  }

  lemma CloseToItself(v: DataPointValue, epsilon: real)
    requires epsilon >= 0.0
    ensures Close(v, v, epsilon)
  {
  }

  lemma CloseWithin(p: DataPointValue, v: DataPointValue, narrow: real, wide: real)
    requires Close(p, v, narrow) && narrow <= wide
    ensures Close(p, v, wide)
  {
  }

  lemma WriteConverges(s: Store, v: DataPointValue, size: nat, key: string, last: Option<DataPointValue>)
    requires Converged(s, key, last) && (v.id.Key() == key ==> SinglePayload(v))
    ensures Converged(Next(s, Write(v), size), key, if v.id.Key() == key then Some(v) else last)
  {
    hide CompareEpsilon, PayloadDiffers, SinglePayload, Close, AlwaysCounts, Push;
    if v.id.Key() == key {
      var spec := Lookup(s.specs, key);
      if Accepts(s, v) {
        CloseToItself(v, CompareEpsilon(spec));
      } else {
        DroppedSinglePayloadIsClose(s.values[key], v, spec);
      }
    }
  }

  lemma RegisterConverges(s: Store, spec: DataPointSpec, size: nat, key: string, last: Option<DataPointValue>)
    requires Converged(s, key, last)
    ensures Converged(Next(s, Register(spec), size), key, last)
  {
    hide CompareEpsilon, SinglePayload, Close;
    if spec.id.Key() == key && key !in s.specs && last.Some? {
      RegisteringWidens(spec);
      CloseWithin(s.values[key], last.value, CompareEpsilon(None), CompareEpsilon(Some(spec)));
    }
  }

  /** Convergence of values with a single payload: whatever was registered, unregistered, subscribed
      and written, every key holds a value close to the last one written since it
      was unregistered, floats within the epsilon of its present specification,
      and holds none if there was none. */
  lemma {:induction false} StoreHoldsLastWrite(ops: seq<Op>, size: nat, key: string)
    requires forall op :: op in ops && op.Write? && op.value.id.Key() == key ==> SinglePayload(op.value)
    ensures Converged(After(ops, size), key, LastWrite(ops, key))
    decreases |ops|
  {
    hide CompareEpsilon, SinglePayload, Close, Accepts, Conflicts;
    if ops != [] {
      var front, op := ops[..|ops| - 1], ops[|ops| - 1];
      assert op in ops && forall o :: o in front ==> o in ops;
      StoreHoldsLastWrite(front, size, key);
      match op
      case Write(v) => WriteConverges(After(front, size), v, size, key, LastWrite(front, key));
      case Register(spec) => RegisterConverges(After(front, size), spec, size, key, LastWrite(front, key));
      case _ =>
    }
  }

  // ---- Floats in any sequence of writes ----

  /** Every value of this type that is written to the key carries a float. */
  predicate CarriesFloats(ops: seq<Op>, key: string, valueType: ValueType) {
    forall op :: op in ops && op.Write? && op.value.id.Key() == key && op.value.valueType == valueType ==>
      op.value.floatValue.Some?
  }

  predicate HoldsFloat(s: Store, key: string, last: Option<DataPointValue>, valueType: ValueType) {
    && (last.None? <==> key !in s.values)
    && (last.Some? ==>
          && s.values[key].valueType == last.value.valueType
          && (last.value.valueType == valueType ==>
                && s.values[key].floatValue.Some? && last.value.floatValue.Some?
                && Distance(last.value.floatValue.value, s.values[key].floatValue.value)
                     <= CompareEpsilon(Lookup(s.specs, key))))
  }

  lemma WriteHoldsFloat(s: Store, v: DataPointValue, size: nat, key: string, last: Option<DataPointValue>, t: ValueType)
    requires HoldsFloat(s, key, last, t) && (v.id.Key() == key && v.valueType == t ==> v.floatValue.Some?)
    ensures HoldsFloat(Next(s, Write(v), size), key, if v.id.Key() == key then Some(v) else last, t)
  {
    hide CompareEpsilon, AlwaysCounts, Push, MessageDiffers;
  }

  lemma RegisterHoldsFloat(s: Store, spec: DataPointSpec, size: nat, key: string, last: Option<DataPointValue>, t: ValueType)
    requires HoldsFloat(s, key, last, t)
    ensures HoldsFloat(Next(s, Register(spec), size), key, last, t)
  {
    hide CompareEpsilon;
    RegisteringWidens(spec);
  }

  lemma {:induction false} RunHoldsFloat(ops: seq<Op>, size: nat, key: string, t: ValueType)
    requires CarriesFloats(ops, key, t)
    ensures HoldsFloat(After(ops, size), key, LastWrite(ops, key), t)
    decreases |ops|
  {
    hide CompareEpsilon, HoldsFloat, Accepts, Conflicts;
    if ops == [] {
      assert HoldsFloat(EMPTY, key, None, t) by { NothingHeld(key, t); }
    } else {
      var front, op := ops[..|ops| - 1], ops[|ops| - 1];
      assert op in ops && forall o :: o in front ==> o in ops;
      RunHoldsFloat(front, size, key, t);
      match op
      case Write(v) => WriteHoldsFloat(After(front, size), v, size, key, LastWrite(front, key), t);
      case Register(spec) => RegisterHoldsFloat(After(front, size), spec, size, key, LastWrite(front, key), t);
      case Unregister(id) => UnregisterHoldsFloat(After(front, size), id, size, key, LastWrite(front, key), t);
      case Subscribe(name, handler) =>
        SubscribeHoldsFloat(After(front, size), name, handler, size, key, LastWrite(front, key), t);
    }
  }

  lemma NothingHeld(key: string, t: ValueType)
    ensures HoldsFloat(EMPTY, key, None, t)
  {
  }

  lemma UnregisterHoldsFloat(s: Store, id: DataPointId, size: nat, key: string, last: Option<DataPointValue>, t: ValueType)
    requires HoldsFloat(s, key, last, t)
    ensures HoldsFloat(Next(s, Unregister(id), size), key, if id.Key() == key then None else last, t)
  {
    hide CompareEpsilon;
  }

  lemma SubscribeHoldsFloat(s: Store, name: string, handler: Handler, size: nat, key: string,
                            last: Option<DataPointValue>, t: ValueType)
    requires HoldsFloat(s, key, last, t)
    ensures HoldsFloat(Next(s, Subscribe(name, handler), size), key, last, t)
  {
    hide CompareEpsilon;
  }

  /** No drift for floats, whatever else the values carry and whatever other types
      are written in between: if the last write to a key is of a type whose values
      carry floats, the key holds a float within the epsilon of its present
      specification of that write. */
  lemma FloatsConverge(ops: seq<Op>, size: nat, key: string, valueType: ValueType)
    requires CarriesFloats(ops, key, valueType)
    requires LastWrite(ops, key).Some? && LastWrite(ops, key).value.valueType == valueType
    ensures var s, v := After(ops, size), LastWrite(ops, key).value;
            && key in s.values && s.values[key].valueType == valueType
            && s.values[key].floatValue.Some? && v.floatValue.Some?
            && Near(v.floatValue.value, s.values[key].floatValue.value, Lookup(s.specs, key))
  {
    hide CompareEpsilon, Distance, After, LastWrite, CarriesFloats;
    RunHoldsFloat(ops, size, key, valueType);
    var s, v := After(ops, size), LastWrite(ops, key).value;
    NearIffClose(v.floatValue.value, s.values[key].floatValue.value, Lookup(s.specs, key));
  }

  /** The comparison written out: 1e-9 without a range or for a span up to 1,
      a hundred thousandth of a span up to 10 but at least 1e-6, and a ten
      thousandth of a larger one but at least 0.001. */
  predicate Near(x: real, y: real, spec: Option<DataPointSpec>) {
    if spec.None? || spec.value.valueMin.None? || spec.value.valueMax.None? then -0.000000001 <= x - y <= 0.000000001
    else
      var span := spec.value.valueMax.value - spec.value.valueMin.value;
      if span <= 1.0 then -0.000000001 <= x - y <= 0.000000001
      else if span <= 10.0 then -0.000001 <= x - y <= 0.000001 || -span <= (x - y) * 100000.0 <= span
      else -0.001 <= x - y <= 0.001 || -span <= (x - y) * 10000.0 <= span
  }

  lemma NearIffClose(x: real, y: real, spec: Option<DataPointSpec>)
    ensures Near(x, y, spec) <==> Distance(x, y) <= CompareEpsilon(spec)
    ensures Near(x, y, spec) <==> !FloatsDiffer(y, x, spec)
  {
  }

  /** In any state whatsoever, a float that is written is held afterwards, within
      the epsilon, if and only if the write counts or the key holds a float. */
  lemma FloatIsHeldIff(s: Store, v: DataPointValue, size: nat)
    requires v.floatValue.Some?
    ensures var after, key := Next(s, Write(v), size), v.id.Key();
            (&& key in after.values && after.values[key].floatValue.Some?
             && Near(v.floatValue.value, after.values[key].floatValue.value, Lookup(s.specs, key)))
            <==> Accepts(s, v) || (key in s.values && s.values[key].floatValue.Some?)
  {
    hide CompareEpsilon, Distance, Near, FloatsDiffer, AlwaysCounts, Push, MessageDiffers;
    var spec, x := Lookup(s.specs, v.id.Key()), v.floatValue.value;
    NearIffClose(x, x, spec);
    assert Near(x, x, spec) by { NearItself(x, spec); }
    if v.id.Key() in s.values && s.values[v.id.Key()].floatValue.Some? {
      NearIffClose(x, s.values[v.id.Key()].floatValue.value, spec);
    }
  }

  lemma NearItself(x: real, spec: Option<DataPointSpec>)
    ensures Near(x, x, spec)
  {
  }

  /** A float value without its float stays: the float written next is dropped. */
  lemma EmptyFloatSticks(id: DataPointId, x: real, size: nat)
    requires !EndsWith(LastSegment(id.Key()), "_turn")
    ensures var empty := DataPointValue(id, Float, 0.0, None, None, None, None, None, None, None, false);
            var full := empty.(floatValue := Some(x));
            var s := Next(EMPTY, Write(empty), size);
            !Accepts(s, full) && Next(s, Write(full), size).values[id.Key()].floatValue == None
  {
  }

  // ---- Which writes are dropped ----

  lemma {:induction false} LastSegmentForm(key: string)
    ensures var segment := LastSegment(key);
            && |segment| <= |key| && key[|key| - |segment|..] == segment && '.' !in segment
            && (|segment| < |key| ==> key[|key| - |segment| - 1] == '.')
  {
    if key != "" && key[|key| - 1] != '.' {
      LastSegmentForm(key[..|key| - 1]);
    }
  }

  lemma SuffixAt(s: string, end: string, i: int)
    requires |end| <= |s| && s[|s| - |end|..] == end && |s| - |end| <= i < |s|
    ensures s[i] == end[i - (|s| - |end|)] && s[i] in end
  {
  }

  /** Encoders are recognised by the end of their point's name. */
  lemma TurnsAreRecognised(id: DataPointId)
    ensures EndsWith(LastSegment(id.Key()), "_turn") <==>
            |id.point| >= 5 && id.point[|id.point| - 5..] == "_turn"
  {
    hide LastSegment;
    var key, segment := id.Key(), LastSegment(id.Key());
    LastSegmentForm(key);
    assert key[|id.module_|] == '.' && key[|id.module_| + 1..] == id.point;
    var n := |key| - |segment|;
    assert |segment| <= |id.point| by {
      if n <= |id.module_| {
        SuffixAt(key, segment, |id.module_|);
      }
    }
    assert id.point[|id.point| - |segment|..] == segment;
    if |id.point| >= 5 && id.point[|id.point| - 5..] == "_turn" {
      assert |segment| >= 5 by {
        if |segment| < 5 {
          SuffixAt(key, "_turn", n - 1);
        }
      }
    }
  }

  /** A write is dropped exactly when it neither is forced, nor a MIDI message, nor
      for a relative point or an encoder, and the key holds a value of the same type
      that agrees with it in the first of float, bool and int that both carry, floats
      as near as the range of the point says, or else in the message fields. */
  lemma WriteIsDroppedIff(s: Store, v: DataPointValue)
    ensures var key := v.id.Key();
            !Accepts(s, v) <==>
            && !v.forceNotify && v.valueType != MidiMessage
            && !(key in s.specs && s.specs[key].inputMode == "relative")
            && !(|v.id.point| >= 5 && v.id.point[|v.id.point| - 5..] == "_turn")
            && key in s.values
            && var p := s.values[key];
               && p.valueType == v.valueType
               && (if v.floatValue.Some? && p.floatValue.Some? then
                     Near(v.floatValue.value, p.floatValue.value, Lookup(s.specs, key))
                   else if v.boolValue.Some? && p.boolValue.Some? then v.boolValue == p.boolValue
                   else if v.intValue.Some? && p.intValue.Some? then v.intValue == p.intValue
                   else
                     && v.midiStatus == p.midiStatus && v.midiData == p.midiData
                     && v.oscAddress == p.oscAddress && v.oscArguments == p.oscArguments)
  {
    hide LastSegment, Near, CompareEpsilon, Distance, FloatsDiffer;
    TurnsAreRecognised(v.id);
    var key := v.id.Key();
    if key in s.values && v.floatValue.Some? && s.values[key].floatValue.Some? {
      NearIffClose(v.floatValue.value, s.values[key].floatValue.value, Lookup(s.specs, key));
    }
  }

  // ---- The brightness point ----

  /** What the display reports; the level is missing while it is unavailable. */
  datatype Brightness = Brightness(available: bool, level: Option<int>, max: int)

  /** `status_to_datapoint_value`: a value with three payloads. */
  function BrightnessValue(id: DataPointId, b: Brightness, at: real): DataPointValue {
    var level := if b.available && b.level.Some? then b.level.value else 0;
    DataPointValue(id, Int, at, Some(b.max as real), Some(b.available), Some(level), None, None, None, None, false)
  }

  /** `publish_brightness_to_store`: a changed level is forced through. */
  function PublishBrightness(s: Store, id: DataPointId, b: Brightness, at: real): Op {
    var v := BrightnessValue(id, b, at);
    if id.Key() in s.values && s.values[id.Key()].intValue != v.intValue then Write(v.(forceNotify := true)) else Write(v)
  }

  /** The level that is stored is always the one published last; its availability
      is, too, exactly when it has not changed, or the level or the maximum has. */
  lemma BrightnessIsKeptIff(s: Store, id: DataPointId, before: Brightness, now: Brightness, at: real, size: nat)
    requires id.Key() in s.values
    requires var old_ := s.values[id.Key()]; old_ == BrightnessValue(id, before, old_.timestamp).(forceNotify := old_.forceNotify)
    requires id.Key() in s.specs ==> s.specs[id.Key()].inputMode != "relative"
    requires !EndsWith(LastSegment(id.Key()), "_turn")
    ensures var key, after := id.Key(), Next(s, PublishBrightness(s, id, now, at), size);
            var was, is_ := s.values[key], BrightnessValue(id, now, at);
            && key in after.values
            && after.values[key].intValue == is_.intValue
            && (after.values[key].boolValue == is_.boolValue <==>
                  || before.available == now.available
                  || was.intValue != is_.intValue
                  || !Near(now.max as real, before.max as real, Lookup(s.specs, key)))
  {
    hide CompareEpsilon, Distance, Near, FloatsDiffer, Push;
    NearIffClose(now.max as real, before.max as real, Lookup(s.specs, id.Key()));
  }

  /** A display at level zero that becomes unavailable is still shown as available. */
  lemma UnavailableAtZeroIsDropped(id: DataPointId, at: real, size: nat)
    requires !EndsWith(LastSegment(id.Key()), "_turn")
    ensures var dark, gone := Brightness(true, Some(0), 255), Brightness(false, None, 255);
            var s := Next(EMPTY, PublishBrightness(EMPTY, id, dark, at), size);
            Next(s, PublishBrightness(s, id, gone, at), size).values[id.Key()].boolValue == Some(true)
  {
    var dark, gone := Brightness(true, Some(0), 255), Brightness(false, None, 255);
    var s := Next(EMPTY, PublishBrightness(EMPTY, id, dark, at), size);
    assert s.values[id.Key()] == BrightnessValue(id, dark, at);
    NearItself(255.0, Lookup(s.specs, id.Key()));
    BrightnessIsKeptIff(s, id, dark, gone, at, size);
  }

  // ---- The history ----

  /** All writes that were accepted, in order. */
  function AcceptedWrites(ops: seq<Op>, size: nat): seq<DataPointValue> {
    if ops == [] then []
    else
      var front, op := ops[..|ops| - 1], ops[|ops| - 1];
      AcceptedWrites(front, size) + if op.Write? && Accepts(After(front, size), op.value) then [op.value] else []
  }

  function LastOf<T>(xs: seq<T>, size: nat): seq<T> {
    if |xs| > size then xs[|xs| - size..] else xs
  }

  lemma PushIsLast<T>(xs: seq<T>, x: T, size: nat)
    ensures Push(LastOf(xs, size), x, size) == LastOf(xs + [x], size)
  {
  }

  /** The history is the end of everything that was accepted. */
  lemma {:induction false} HistoryIsLastAccepted(ops: seq<Op>, size: nat)
    ensures After(ops, size).history == LastOf(AcceptedWrites(ops, size), size)
  {
    hide Accepts, Push, LastOf, Conflicts;
    if ops == [] {
      assert LastOf<DataPointValue>([], size) == [] by { LastOfNothing(size); }
    } else {
      var front, op := ops[..|ops| - 1], ops[|ops| - 1];
      HistoryIsLastAccepted(front, size);
      if op.Write? && Accepts(After(front, size), op.value) {
        PushIsLast(AcceptedWrites(front, size), op.value, size);
      } else {
        assert AcceptedWrites(front, size) + [] == AcceptedWrites(front, size);
      }
    }
  }

  lemma LastOfNothing(size: nat)
    ensures LastOf<DataPointValue>([], size) == []
  {
  }

  // ---- The object ----

  class DataPointStore {
    var specs: map<string, DataPointSpec>
    var values: map<string, DataPointValue>
    var subscribers: map<string, seq<Handler>>
    var history: seq<DataPointValue>
    const historySize: nat
    ghost var ops: seq<Op>

    ghost predicate Valid()
      reads this
    {
      Store(specs, values, subscribers, history) == After(ops, historySize)
    }

    constructor (historySize: nat := 200)
      ensures Valid() && ops == [] && this.historySize == historySize
    {
      specs, values, subscribers, history, ops := map[], map[], map[], [], [];
      this.historySize := historySize;
    }

    method RegisterSpec(spec: DataPointSpec) returns (r: Result<(), string>)
      requires Valid()
      modifies this
      ensures Valid() && ops == old(ops) + [Register(spec)]
      ensures r.Ok? <==> old(spec.id.Key() in specs ==> specs[spec.id.Key()] == spec)
      ensures r.Ok? ==> spec.id.Key() in specs && specs[spec.id.Key()] == spec
      ensures r.Err? ==> unchanged(`specs)
    {
      var key := spec.id.Key();
      ops := ops + [Register(spec)];
      assert ops[..|ops| - 1] == old(ops);
      if key in specs && specs[key] != spec {
        return Err("data point already registered with different spec: " + key);
      }
      specs := specs[key := spec];
      r := Ok(());
    }

    method UnregisterPoint(id: DataPointId)
      requires Valid()
      modifies this
      ensures Valid() && ops == old(ops) + [Unregister(id)]
    {
      var key := id.Key();
      ops := ops + [Unregister(id)];
      assert ops[..|ops| - 1] == old(ops);
      specs := specs - {key};
      values := values - {key};
      subscribers := subscribers - {key};
    }

    method AddSubscriber(key: string, handler: Handler)
      requires Valid()
      modifies this
      ensures Valid() && ops == old(ops) + [Subscribe(key, handler)]
    {
      ops := ops + [Subscribe(key, handler)];
      assert ops[..|ops| - 1] == old(ops);
      subscribers := subscribers[key := (if key in subscribers then subscribers[key] else []) + [handler]];
    }

    /** Returns the handlers to call, in order: those of the point, then those of
        every point. */
    method WriteValue(v: DataPointValue) returns (handlers: seq<Handler>)
      requires Valid()
      modifies this
      ensures Valid() && ops == old(ops) + [Write(v)]
      ensures handlers == if old(Accepts(Store(specs, values, subscribers, history), v))
                          then Subscribers(Store(specs, values, subscribers, history), v.id.Key())
                               + Subscribers(Store(specs, values, subscribers, history), "*")
                          else []
    {
      var key := v.id.Key();
      ops := ops + [Write(v)];
      assert ops[..|ops| - 1] == old(ops);
      if !ValueChanged(key, v, Lookup(values, key), Lookup(specs, key)) {
        return [];
      }
      values := values[key := v];
      history := Push(history, v, historySize);
      handlers := (if key in subscribers then subscribers[key] else []) + if "*" in subscribers then subscribers["*"] else [];
    }
  }
}
