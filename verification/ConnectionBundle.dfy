/** Exporting the connections of a device pair, importing them for another pair,
    and merging them into the existing ones. */
module ConnectionBundle {
  import opened Common
  import opened Text

  datatype ModifierKind = RangeMap | Passthrough | Factor

  datatype ConnectionSpec = ConnectionSpec(
    id: string,
    source: string,
    target: string,
    modifier: ModifierKind,
    inputMin: real,
    inputMax: real,
    outputMin: real,
    outputMax: real,
    invert: bool,
    scaleCurve: string,
    factor: real,
    enabled: bool,
    managedBy: Option<string>)

  /** A connection in a bundle; a key that is absent is None. */
  datatype RawConnection = RawConnection(
    id: Option<string>,
    sourceDevice: Option<string>,
    sourcePoint: Option<string>,
    targetDevice: Option<string>,
    targetPoint: Option<string>,
    modifier: Option<string>,
    inputMin: Option<real>,
    inputMax: Option<real>,
    outputMin: Option<real>,
    outputMax: Option<real>,
    invert: Option<bool>,
    scaleCurve: Option<string>,
    factor: Option<real>,
    enabled: Option<bool>)

  datatype ImportError = UnknownRole | MissingPoint | UnsupportedModifier | UnsupportedCurve | ZeroFactor

  const DEVICE_A := "device_a"
  const DEVICE_B := "device_b"
  const RESERVED_MODULES: set<string> := {"clock", "gamepi", "mapping", "nicht_verbunden", "rotary_display", "song"}
  const SCALE_CURVES: set<string> := {"linear", "log_to_linear", "linear_to_log"}

  // ---- Endpoints ----

  /** The index of the first dot, or the length. */
  function FirstDot(s: string): (i: nat)
    ensures i <= |s| && '.' !in s[..i] && (i < |s| ==> s[i] == '.')
  {
    if s == "" || s[0] == '.' then 0
    else
      var i := 1 + FirstDot(s[1..]);
      assert s[..i] == [s[0]] + s[1..][..i - 1];
      i
  }

  /** `endpoint.partition(".")`, without the separator. */
  function Module(endpoint: string): string {
    endpoint[..FirstDot(endpoint)]
  }

  function Point(endpoint: string): string {
    if FirstDot(endpoint) == |endpoint| then "" else endpoint[FirstDot(endpoint) + 1..]
  }

  function Endpoint(uid: string, point: string): string {
    uid + "." + point
  }

  predicate IsDisconnected(endpoint: string) {
    && FirstDot(endpoint) < |endpoint|
    && Module(endpoint) == "nicht_verbunden" && Point(endpoint) == "nicht_verbunden"
  }

  lemma {:induction false} DotPosition(uid: string, point: string)
    requires '.' !in uid
    ensures FirstDot(Endpoint(uid, point)) == |uid|
    ensures Module(Endpoint(uid, point)) == uid && Point(Endpoint(uid, point)) == point
  {
    var endpoint := Endpoint(uid, point);
    if uid == "" {
      assert endpoint[0] == '.';
    } else {
      DotPosition(uid[1..], point);
      assert endpoint[1..] == Endpoint(uid[1..], point) && endpoint[0] == uid[0];
    }
  }

  lemma {:induction false} NoDot(s: string)
    requires '.' !in s
    ensures FirstDot(s) == |s| && Module(s) == s
  {
    if s != "" {
      NoDot(s[1..]);
    }
  }

  lemma DisconnectedForm(endpoint: string)
    ensures IsDisconnected(endpoint) <==> endpoint == "nicht_verbunden.nicht_verbunden"
  {
    hide FirstDot;
    DotPosition("nicht_verbunden", "nicht_verbunden");
    assert Endpoint("nicht_verbunden", "nicht_verbunden") == "nicht_verbunden.nicht_verbunden";
    if FirstDot(endpoint) < |endpoint| {
      assert endpoint == Module(endpoint) + "." + Point(endpoint);
    }
  }

  // ---- Export ----

  function RoleOf(endpoint: string, uidA: string, uidB: string): Option<string> {
    if FirstDot(endpoint) == |endpoint| || Point(endpoint) == "" || Module(endpoint) in RESERVED_MODULES then None
    else if Module(endpoint) == uidA then Some(DEVICE_A)
    else if Module(endpoint) == uidB then Some(DEVICE_B)
    else None
  }

  function ModifierValue(modifier: ModifierKind): string {
    match modifier
    case RangeMap => "range_map"
    case Passthrough => "passthrough"
    case Factor => "factor"
  }

  predicate JoinsPair(c: ConnectionSpec, uidA: string, uidB: string) {
    var source, target := RoleOf(c.source, uidA, uidB), RoleOf(c.target, uidA, uidB);
    source.Some? && target.Some? && source != target
  }

  /** `as_dict` leaves defaults out; the endpoints are replaced by roles. */
  function ExportOne(c: ConnectionSpec, uidA: string, uidB: string): RawConnection {
    RawConnection(
      Some(c.id),
      RoleOf(c.source, uidA, uidB), Some(Point(c.source)),
      RoleOf(c.target, uidA, uidB), Some(Point(c.target)),
      Some(ModifierValue(c.modifier)),
      Some(c.inputMin), Some(c.inputMax), Some(c.outputMin), Some(c.outputMax),
      Some(c.invert),
      if c.scaleCurve != "linear" then Some(c.scaleCurve) else None,
      if c.modifier.Factor? || c.factor != 1.0 then Some(c.factor) else None,
      Some(c.enabled))
  }

  /** Which role an endpoint has, if it is one of a device of the pair. */
  lemma RoleForm(name: string, point: string, uidA: string, uidB: string)
    requires '.' !in name
    ensures RoleOf(name, uidA, uidB) == None
    ensures RoleOf(name + "." + point, uidA, uidB) == (
              if point == "" || name in {"clock", "gamepi", "mapping", "nicht_verbunden", "rotary_display", "song"} then None
              else if name == uidA then Some("device_a")
              else if name == uidB then Some("device_b")
              else None)
  {
    hide FirstDot;
    NoDot(name);
    DotPosition(name, point);
  }

  /** A connection from one device of the pair to the other is exported with roles
      and points in place of its endpoints, without a straight curve and without a
      factor of one that is not used. */
  lemma ExportForm(c: ConnectionSpec, uidA: string, uidB: string, sourcePoint: string, targetPoint: string)
    requires '.' !in uidA && '.' !in uidB && uidA != uidB && sourcePoint != "" && targetPoint != ""
    requires c.source == uidA + "." + sourcePoint && c.target == uidB + "." + targetPoint
    requires {uidA, uidB} !! {"clock", "gamepi", "mapping", "nicht_verbunden", "rotary_display", "song"}
    ensures JoinsPair(c, uidA, uidB) && JoinsPair(c, uidB, uidA)
    ensures var raw := ExportOne(c, uidA, uidB);
            && raw.id == Some(c.id)
            && raw.sourceDevice == Some("device_a") && raw.sourcePoint == Some(sourcePoint)
            && raw.targetDevice == Some("device_b") && raw.targetPoint == Some(targetPoint)
            && raw.modifier == Some(if c.modifier.RangeMap? then "range_map" else if c.modifier.Factor? then "factor" else "passthrough")
            && raw.inputMin == Some(c.inputMin) && raw.inputMax == Some(c.inputMax)
            && raw.outputMin == Some(c.outputMin) && raw.outputMax == Some(c.outputMax)
            && raw.invert == Some(c.invert) && raw.enabled == Some(c.enabled)
            && (raw.scaleCurve.Some? <==> c.scaleCurve != "linear") && (raw.scaleCurve.Some? ==> raw.scaleCurve.value == c.scaleCurve)
            && (raw.factor.Some? <==> c.modifier == Factor || c.factor != 1.0) && (raw.factor.Some? ==> raw.factor.value == c.factor)
  {
    hide FirstDot;
    DotPosition(uidA, sourcePoint);
    DotPosition(uidB, targetPoint);
  }

  /** The connections of the pair, in order. */
  function OfPair(connections: seq<ConnectionSpec>, uidA: string, uidB: string): (pair: seq<ConnectionSpec>)
    ensures forall c :: c in pair ==> c in connections && JoinsPair(c, uidA, uidB)
  {
    if connections == [] then []
    else
      var before, last := OfPair(connections[..|connections| - 1], uidA, uidB), connections[|connections| - 1];
      if JoinsPair(last, uidA, uidB) then before + [last] else before
  }

  function Exported(pair: seq<ConnectionSpec>, uidA: string, uidB: string): (raws: seq<RawConnection>)
    ensures |raws| == |pair|
  {
    if pair == [] then []
    else Exported(pair[..|pair| - 1], uidA, uidB) + [ExportOne(pair[|pair| - 1], uidA, uidB)]
  }

  method ExportConnections(connections: seq<ConnectionSpec>, uidA: string, uidB: string) returns (raws: seq<RawConnection>)
    ensures raws == Exported(OfPair(connections, uidA, uidB), uidA, uidB)
  {
    hide RoleOf, ExportOne;
    raws := [];
    for i := 0 to |connections|
      invariant raws == Exported(OfPair(connections[..i], uidA, uidB), uidA, uidB)
    {
      var c := connections[i];
      assert connections[..i + 1][..i] == connections[..i];
      ghost var before := OfPair(connections[..i], uidA, uidB);
      if JoinsPair(c, uidA, uidB) {
        assert (before + [c])[..|before|] == before;
        raws := raws + [ExportOne(c, uidA, uidB)];
      }
    }
    assert connections[..|connections|] == connections;
  }

  // ---- Import ----

  predicate IsSlugChar(c: char) {
    'a' <= c <= 'z' || '0' <= c <= '9'
  }

  function LowerCase(c: char): char {
    if 'A' <= c <= 'Z' then c - 'A' + 'a' else c
  }

  /** Runs of other characters become one dash each. */
  function Dashed(s: string): (d: string)
    ensures forall c :: c in d ==> IsSlugChar(c) || c == '-'
  {
    if s == "" then ""
    else
      var before, c := Dashed(s[..|s| - 1]), LowerCase(s[|s| - 1]);
      if IsSlugChar(c) then before + [c]
      else if before != "" && before[|before| - 1] == '-' then before
      else before + "-"
  }

  function Slug(s: string): string {
    var dashed := Dashed(s);
    var left := if dashed != "" && dashed[0] == '-' then dashed[1..] else dashed;
    if left != "" && left[|left| - 1] == '-' then left[..|left| - 1] else left
  }

  function MakeMappingId(source: string, target: string): (id: string)
    ensures |id| <= 120
  {
    var candidate := "learn-" + Slug(source) + "-to-" + Slug(target);
    if |candidate| > 120 then candidate[..120] else candidate
  }

  function Or<T>(value: Option<T>, default: T): T {
    if value.Some? then value.value else default
  }

  /** Which device each role stands for. */
  datatype Mapping = Mapping(uidA: string, uidB: string) {
    function Uid(role: string): Option<string> {
      if role == DEVICE_A then Some(uidA) else if role == DEVICE_B then Some(uidB) else None
    }
  }

  function ParseModifier(value: string): Option<ModifierKind> {
    if value == "range_map" then Some(RangeMap)
    else if value == "passthrough" then Some(Passthrough)
    else if value == "factor" then Some(Factor)
    else None
  }

  function ImportOne(raw: RawConnection, mapping: Mapping, existing: set<string>): Result<ConnectionSpec, ImportError> {
    var sourceUid, targetUid := mapping.Uid(Strip(Or(raw.sourceDevice, ""))), mapping.Uid(Strip(Or(raw.targetDevice, "")));
    var sourcePoint, targetPoint := Strip(Or(raw.sourcePoint, "")), Strip(Or(raw.targetPoint, ""));
    if sourceUid.None? || targetUid.None? then Err(UnknownRole)
    else if sourcePoint == "" || targetPoint == "" then Err(MissingPoint)
    else
      var source, target := Endpoint(sourceUid.value, sourcePoint), Endpoint(targetUid.value, targetPoint);
      var modifier := ParseModifier(Strip(Or(raw.modifier, "range_map")));
      if modifier.None? then Err(UnsupportedModifier)
      else
        var stripped := Strip(Or(raw.scaleCurve, "linear"));
        var scaleCurve := if stripped == "" then "linear" else stripped;
        if scaleCurve !in SCALE_CURVES then Err(UnsupportedCurve)
        else
          var factor := Or(raw.factor, 1.0);
          if modifier.value.Factor? && factor == 0.0 then Err(ZeroFactor)
          else
            var given := Strip(Or(raw.id, ""));
            Ok(ConnectionSpec(
                 if given == "" || given in existing then MakeMappingId(source, target) else given,
                 source, target, modifier.value,
                 Or(raw.inputMin, 0.0), Or(raw.inputMax, 1.0), Or(raw.outputMin, 0.0), Or(raw.outputMax, 127.0),
                 Or(raw.invert, false), scaleCurve, factor, Or(raw.enabled, true), None))
  }

  /** All connections of a bundle; each one's id counts as taken for the next. */
  function ImportAll(raws: seq<RawConnection>, mapping: Mapping, existing: set<string>)
    : Result<seq<ConnectionSpec>, ImportError>
  {
    if raws == [] then Ok([])
    else
      match ImportAll(raws[..|raws| - 1], mapping, existing)
      case Err(e) => Err(e)
      case Ok(before) =>
        match ImportOne(raws[|raws| - 1], mapping, existing + Ids(before))
        case Err(e) => Err(e)
        case Ok(c) => Ok(before + [c])
  }

  function Ids(connections: seq<ConnectionSpec>): set<string> {
    set c | c in connections :: c.id
  }

  predicate Replaces(c: ConnectionSpec, old_: ConnectionSpec) {
    old_.id == c.id || (!IsDisconnected(c.source) && old_.source == c.source)
  }

  /** A connection replaces those of its id and, unless its source is the one that
      stands for none, those of its source. */
  lemma ReplacesIff(c: ConnectionSpec, other: ConnectionSpec)
    ensures Replaces(c, other) <==>
            other.id == c.id || (other.source == c.source && c.source != "nicht_verbunden.nicht_verbunden")
  {
    DisconnectedForm(c.source);
  }

  function Without(connections: seq<ConnectionSpec>, c: ConnectionSpec): (kept: seq<ConnectionSpec>)
    ensures forall k :: k in kept <==> k in connections && !Replaces(c, k)
  {
    if connections == [] then []
    else
      var before, last := Without(connections[..|connections| - 1], c), connections[|connections| - 1];
      if Replaces(c, last) then before else before + [last]
  }

  function Upsert(connections: seq<ConnectionSpec>, c: ConnectionSpec): seq<ConnectionSpec> {
    Without(connections, c) + [c]
  }

  function Merge(connections: seq<ConnectionSpec>, imported: seq<ConnectionSpec>): seq<ConnectionSpec> {
    if imported == [] then connections
    else Upsert(Merge(connections, imported[..|imported| - 1]), imported[|imported| - 1])
  }

  /** The loop of `apply_connection_bundle_import`: an error of any connection
      raises, and nothing is merged. */
  method ApplyImport(raws: seq<RawConnection>, mapping: Mapping, connections: seq<ConnectionSpec>)
    returns (r: Result<(seq<ConnectionSpec>, seq<ConnectionSpec>), ImportError>)
    ensures match ImportAll(raws, mapping, Ids(connections))
            case Err(e) => exists n :: 0 < n <= |raws| && ImportAll(raws[..n], mapping, Ids(connections)) == Err(e) && r == Err(e)
            case Ok(imported) => r == Ok((imported, Merge(connections, imported)))
  {
    hide ImportOne, Upsert;
    var existingIds := Ids(connections);
    var imported: seq<ConnectionSpec> := [];
    var merged := connections;
    for i := 0 to |raws|
      invariant ImportAll(raws[..i], mapping, Ids(connections)) == Ok(imported)
      invariant existingIds == Ids(connections) + Ids(imported)
      invariant merged == Merge(connections, imported)
    {
      assert raws[..i + 1][..i] == raws[..i];
      var one := ImportOne(raws[i], mapping, existingIds);
      if one.Err? {
        ErrorStays(raws, i + 1, mapping, Ids(connections));
        return Err(one.error);
      }
      assert (imported + [one.value])[..|imported|] == imported;
      IdsOfMore(imported, one.value);
      existingIds := existingIds + {one.value.id};
      imported := imported + [one.value];
      merged := Upsert(merged, one.value);
    }
    assert raws[..|raws|] == raws;
    r := Ok((imported, merged));
  }

  lemma IdsOfMore(connections: seq<ConnectionSpec>, c: ConnectionSpec)
    ensures Ids(connections + [c]) == Ids(connections) + {c.id}
  {
    assert forall x :: x in connections + [c] <==> x in connections || x == c;
  }

  lemma {:induction false} ErrorStays(raws: seq<RawConnection>, n: nat, mapping: Mapping, existing: set<string>)
    requires n <= |raws| && ImportAll(raws[..n], mapping, existing).Err?
    ensures ImportAll(raws, mapping, existing) == ImportAll(raws[..n], mapping, existing)
    decreases |raws| - n
  {
    if n < |raws| {
      assert raws[..n + 1][..n] == raws[..n];
      ErrorStays(raws, n + 1, mapping, existing);
    } else {
      assert raws[..n] == raws;
    }
  }

  // ---- The round trip of one connection ----

  function Renamed(endpoint: string, uidA: string, uidB: string, mapping: Mapping): string {
    Endpoint(if Module(endpoint) == uidA then mapping.uidA else mapping.uidB, Point(endpoint))
  }

  /** The same connection between the other pair. */
  function RenamedConnection(c: ConnectionSpec, uidA: string, uidB: string, mapping: Mapping): ConnectionSpec {
    c.(source := Renamed(c.source, uidA, uidB, mapping), target := Renamed(c.target, uidA, uidB, mapping), managedBy := None)
  }

  /** What the import accepts and leaves as it is, besides the id. */
  predicate Transferable(c: ConnectionSpec) {
    && Strip(Point(c.source)) == Point(c.source) && Strip(Point(c.target)) == Point(c.target)
    && c.scaleCurve in SCALE_CURVES
    && !(c.modifier.Factor? && c.factor == 0.0)
    && Strip(c.id) == c.id != ""
  }

  lemma StripsOfConstants()
    ensures Strip(DEVICE_A) == DEVICE_A && Strip(DEVICE_B) == DEVICE_B
    ensures forall m :: Strip(ModifierValue(m)) == ModifierValue(m)
    ensures forall s :: s in SCALE_CURVES ==> Strip(s) == s
  {
    StripOfVisible(DEVICE_A);
    StripOfVisible(DEVICE_B);
    forall m ensures Strip(ModifierValue(m)) == ModifierValue(m) { StripOfVisible(ModifierValue(m)); }
    forall s | s in SCALE_CURVES ensures Strip(s) == s { StripOfVisible(s); }
  }

  lemma ParsesBack(modifier: ModifierKind)
    ensures ParseModifier(ModifierValue(modifier)) == Some(modifier)
  {
  }

  /** Importing an exported connection renames it faithfully, and keeps every
      field but `managed_by`, exactly when it is transferable and its id is free
      or the very one that would be generated. */
  lemma ImportOfExportIff(c: ConnectionSpec, uidA: string, uidB: string, mapping: Mapping, existing: set<string>)
    requires JoinsPair(c, uidA, uidB)
    ensures var renamed := RenamedConnection(c, uidA, uidB, mapping);
            ImportOne(ExportOne(c, uidA, uidB), mapping, existing) == Ok(renamed) <==>
            Transferable(c) && (c.id !in existing || c.id == MakeMappingId(renamed.source, renamed.target))
  {
    hide Strip, MakeMappingId, ModifierValue, ParseModifier, FirstDot;
    StripsOfConstants();
    ParsesBack(c.modifier);
    var renamed := RenamedConnection(c, uidA, uidB, mapping);
    var raw := ExportOne(c, uidA, uidB);
    SameEndpoint(if Module(c.source) == uidA then mapping.uidA else mapping.uidB, Strip(Point(c.source)), Point(c.source));
    SameEndpoint(if Module(c.target) == uidA then mapping.uidA else mapping.uidB, Strip(Point(c.target)), Point(c.target));
    GeneratedIsStripped(renamed.source, renamed.target);
  }

  lemma GeneratedIsStripped(source: string, target: string)
    ensures Strip(MakeMappingId(source, target)) == MakeMappingId(source, target) != ""
  {
    hide Strip, Dashed;
    var id := MakeMappingId(source, target);
    var candidate := "learn-" + Slug(source) + "-to-" + Slug(target);
    assert forall c :: c in "learn-" + Slug(source) + "-to-" + Slug(target) ==> IsSlugChar(c) || c == '-' by {
      SlugChars(source);
      SlugChars(target);
    }
    assert id[0] == 'l' && id[|id| - 1] in candidate;
    StripOfVisible(id);
  }

  lemma SlugChars(s: string)
    ensures forall c :: c in Slug(s) ==> IsSlugChar(c) || c == '-'
  {
    hide Dashed;
    var d := Dashed(s);
    assert forall c :: c in Slug(s) ==> c in d;
  }

  lemma SameEndpoint(uid: string, p: string, q: string)
    ensures Endpoint(uid, p) == Endpoint(uid, q) <==> p == q
  {
    assert Endpoint(uid, p)[|uid| + 1..] == p && Endpoint(uid, q)[|uid| + 1..] == q;
  }

  // ---- The round trip of a bundle ----

  function RenamedAll(pair: seq<ConnectionSpec>, uidA: string, uidB: string, mapping: Mapping): (renamed: seq<ConnectionSpec>)
    ensures |renamed| == |pair|
  {
    if pair == [] then []
    else RenamedAll(pair[..|pair| - 1], uidA, uidB, mapping) + [RenamedConnection(pair[|pair| - 1], uidA, uidB, mapping)]
  }

  lemma {:induction false} RenamedAt(pair: seq<ConnectionSpec>, uidA: string, uidB: string, mapping: Mapping, i: nat)
    requires i < |pair|
    ensures RenamedAll(pair, uidA, uidB, mapping)[i] == RenamedConnection(pair[i], uidA, uidB, mapping)
  {
    hide RenamedConnection;
    if i < |pair| - 1 {
      RenamedAt(pair[..|pair| - 1], uidA, uidB, mapping, i);
    }
  }

  predicate DistinctIds(connections: seq<ConnectionSpec>) {
    forall i, j :: 0 <= i < j < |connections| ==> connections[i].id != connections[j].id
  }

  /** With distinct ids that are still free the imported list is the exported
      pair's, in order, between the other devices. */
  lemma {:induction false} ImportedIsRenamed(pair: seq<ConnectionSpec>, uidA: string, uidB: string,
                                             mapping: Mapping, existing: set<string>)
    requires forall c :: c in pair ==> JoinsPair(c, uidA, uidB) && Transferable(c) && c.id !in existing
    requires DistinctIds(pair)
    ensures ImportAll(Exported(pair, uidA, uidB), mapping, existing) == Ok(RenamedAll(pair, uidA, uidB, mapping))
  {
    hide ImportOne, ExportOne, JoinsPair, Transferable, RenamedConnection;
    if pair != [] {
      var front, c := pair[..|pair| - 1], pair[|pair| - 1];
      assert c in pair && forall k :: k in front ==> k in pair;
      ImportedIsRenamed(front, uidA, uidB, mapping, existing);
      assert Exported(pair, uidA, uidB)[..|front|] == Exported(front, uidA, uidB);
      assert c.id !in Ids(RenamedAll(front, uidA, uidB, mapping)) by { IdIsFree(pair, uidA, uidB, mapping); }
      ImportOfExportIff(c, uidA, uidB, mapping, existing + Ids(RenamedAll(front, uidA, uidB, mapping)));
    }
  }

  lemma IdIsFree(pair: seq<ConnectionSpec>, uidA: string, uidB: string, mapping: Mapping)
    requires pair != [] && DistinctIds(pair)
    ensures pair[|pair| - 1].id !in Ids(RenamedAll(pair[..|pair| - 1], uidA, uidB, mapping))
  {
    var front := pair[..|pair| - 1];
    forall r | r in RenamedAll(front, uidA, uidB, mapping)
      ensures r.id != pair[|pair| - 1].id
    {
      var i :| 0 <= i < |front| && RenamedAll(front, uidA, uidB, mapping)[i] == r;
      RenamedAt(front, uidA, uidB, mapping, i);
    }
  }

  // ---- What merging keeps ----

  /** An imported connection behind the i-th replaces it. */
  predicate Superseded(all: seq<ConnectionSpec>, n: nat, i: nat)
    requires i < |all|
  {
    exists j :: i < j < |all| && n <= j && Replaces(all[j], all[i])
  }

  /** Of the first k connections, those that nothing replaces. */
  function Survivors(all: seq<ConnectionSpec>, n: nat, k: nat): seq<ConnectionSpec>
    requires k <= |all|
  {
    if k == 0 then []
    else Survivors(all, n, k - 1) + if Superseded(all, n, k - 1) then [] else [all[k - 1]]
  }

  lemma WithoutSnoc(front: seq<ConnectionSpec>, last: ConnectionSpec, c: ConnectionSpec)
    ensures Without(front + [last], c) == if Replaces(c, last) then Without(front, c) else Without(front, c) + [last]
  {
    assert (front + [last])[..|front|] == front;
  }

  lemma OneMoreSupersedes(all: seq<ConnectionSpec>, c: ConnectionSpec, n: nat, i: nat)
    requires i < |all| && n <= |all|
    ensures Superseded(all + [c], n, i) <==> Superseded(all, n, i) || Replaces(c, all[i])
  {
    hide Replaces;
    var more := all + [c];
    if Superseded(all, n, i) {
      var j :| i < j < |all| && n <= j && Replaces(all[j], all[i]);
      assert Replaces(more[j], more[i]);
    }
    if Replaces(c, all[i]) {
      assert Replaces(more[|all|], more[i]);
    }
    if Superseded(more, n, i) {
      var j :| i < j < |more| && n <= j && Replaces(more[j], more[i]);
      assert j < |all| ==> Replaces(all[j], all[i]);
    }
  }

  lemma {:induction false} SurvivorsWithout(all: seq<ConnectionSpec>, c: ConnectionSpec, n: nat, k: nat)
    requires k <= |all| && n <= |all|
    ensures Without(Survivors(all, n, k), c) == Survivors(all + [c], n, k)
  {
    hide Replaces, Without, Superseded;
    if k > 0 {
      SurvivorsWithout(all, c, n, k - 1);
      OneMoreSupersedes(all, c, n, k - 1);
      if !Superseded(all, n, k - 1) {
        WithoutSnoc(Survivors(all, n, k - 1), all[k - 1], c);
      } else {
        assert Survivors(all, n, k - 1) + [] == Survivors(all, n, k - 1);
      }
      assert Survivors(all + [c], n, k - 1) + [] == Survivors(all + [c], n, k - 1);
    } else {
      assert Without([], c) == [] by { WithoutNothing(c); }
    }
  }

  lemma WithoutNothing(c: ConnectionSpec)
    ensures Without([], c) == []
  {
  }

  /** Merging keeps, in order, exactly the connections that no later imported one
      replaces by its id or by its connected source. */
  lemma {:induction false} MergeKeepsSurvivors(connections: seq<ConnectionSpec>, imported: seq<ConnectionSpec>)
    ensures var all := connections + imported;
            Merge(connections, imported) == Survivors(all, |connections|, |all|)
    decreases |imported|
  {
    hide Replaces, Without;
    var all, n := connections + imported, |connections|;
    if imported == [] {
      NothingImported(connections, n);
      assert all == connections;
    } else {
      var front, c := imported[..|imported| - 1], imported[|imported| - 1];
      var before := connections + front;
      MergeKeepsSurvivors(connections, front);
      SurvivorsWithout(before, c, n, |before|);
      assert all == before + [c];
      assert !Superseded(all, n, |before|);
    }
  }

  lemma {:induction false} NothingSuperseded(all: seq<ConnectionSpec>, n: nat, k: nat)
    requires k <= |all| && forall i :: 0 <= i < k ==> !Superseded(all, n, i)
    ensures Survivors(all, n, k) == all[..k]
  {
    hide Superseded;
    if k > 0 {
      NothingSuperseded(all, n, k - 1);
      assert all[..k] == all[..k - 1] + [all[k - 1]];
    }
  }

  lemma NothingImported(connections: seq<ConnectionSpec>, n: nat)
    requires n == |connections|
    ensures Survivors(connections, n, |connections|) == connections
  {
    NothingSuperseded(connections, n, |connections|);
    assert connections[..|connections|] == connections;
  }

  /** No imported connection has the id or the connected source of a later one. */
  predicate NoClash(imported: seq<ConnectionSpec>) {
    forall i, j :: 0 <= i < j < |imported| ==> !Replaces(imported[j], imported[i])
  }

  lemma {:induction false} SurvivorsAreAtMost(all: seq<ConnectionSpec>, n: nat, m: nat, k: nat)
    requires m <= k <= |all|
    ensures |Survivors(all, n, m)| <= |Survivors(all, n, k)| <= |Survivors(all, n, m)| + (k - m)
    ensures (exists i :: m <= i < k && Superseded(all, n, i)) ==> |Survivors(all, n, k)| < |Survivors(all, n, m)| + (k - m)
    decreases k - m
  {
    hide Superseded;
    if m < k {
      SurvivorsAreAtMost(all, n, m, k - 1);
    }
  }

  lemma {:induction false} AllBehindSurvive(all: seq<ConnectionSpec>, n: nat, m: nat, k: nat)
    requires m <= k <= |all| && forall i :: m <= i < k ==> !Superseded(all, n, i)
    ensures Survivors(all, n, k) == Survivors(all, n, m) + all[m..k]
    decreases k - m
  {
    hide Superseded;
    if m < k {
      AllBehindSurvive(all, n, m, k - 1);
      assert all[m..k] == all[m..k - 1] + [all[k - 1]];
    } else {
      assert Survivors(all, n, m) + [] == Survivors(all, n, m);
    }
  }

  /** Every imported connection survives exactly when no two of them clash. */
  lemma AllImportedSurviveIff(connections: seq<ConnectionSpec>, imported: seq<ConnectionSpec>)
    ensures var all := connections + imported;
            Merge(connections, imported) == Survivors(all, |connections|, |connections|) + imported <==> NoClash(imported)
  {
    hide Replaces, Survivors;
    var all, n := connections + imported, |connections|;
    MergeKeepsSurvivors(connections, imported);
    forall i | n <= i < |all|
      ensures Superseded(all, n, i) <==> exists j :: i - n < j < |imported| && Replaces(imported[j], imported[i - n])
    {
      SupersededImport(connections, imported, i - n);
    }
    if NoClash(imported) {
      AllBehindSurvive(all, n, n, |all|);
      assert all[n..] == imported;
    } else {
      var i, j :| 0 <= i < j < |imported| && Replaces(imported[j], imported[i]);
      assert Superseded(all, n, n + i);
      SurvivorsAreAtMost(all, n, n, |all|);
    }
  }

  lemma SupersededImport(connections: seq<ConnectionSpec>, imported: seq<ConnectionSpec>, i: nat)
    requires i < |imported|
    ensures Superseded(connections + imported, |connections|, |connections| + i) <==>
            exists j :: i < j < |imported| && Replaces(imported[j], imported[i])
  {
    hide Replaces;
    var all, n := connections + imported, |connections|;
    assert all[n + i] == imported[i];
    if Superseded(all, n, n + i) {
      var j :| n + i < j < |all| && n <= j && Replaces(all[j], all[n + i]);
      assert all[j] == imported[j - n];
    }
    if j :| i < j < |imported| && Replaces(imported[j], imported[i]) {
      assert all[n + j] == imported[j];
    }
  }

  /** The whole transfer: what is exported for one pair and imported for another
      is the pair's connections, renamed, in order; and if their sources differ
      and the other pair is two devices with plain ids, all of them survive the
      merge. */
  lemma BundleIsFaithfulRenaming(connections: seq<ConnectionSpec>, uidA: string, uidB: string,
                                 mapping: Mapping, existing: seq<ConnectionSpec>)
    requires uidA != uidB && mapping.uidA != mapping.uidB && '.' !in mapping.uidA && '.' !in mapping.uidB
    requires var pair := OfPair(connections, uidA, uidB);
             && DistinctIds(pair) && (forall c :: c in pair ==> Transferable(c) && c.id !in Ids(existing))
             && forall i, j :: 0 <= i < j < |pair| ==> pair[i].source != pair[j].source
    ensures var pair := OfPair(connections, uidA, uidB);
            var imported := RenamedAll(pair, uidA, uidB, mapping);
            && ImportAll(Exported(pair, uidA, uidB), mapping, Ids(existing)) == Ok(imported)
            && Merge(existing, imported) == Survivors(existing + imported, |existing|, |existing|) + imported
  {
    hide Survivors, Transferable, Merge, ImportAll, Exported, OfPair, JoinsPair, RenamedConnection;
    var pair := OfPair(connections, uidA, uidB);
    var imported := RenamedAll(pair, uidA, uidB, mapping);
    ImportedIsRenamed(pair, uidA, uidB, mapping, Ids(existing));
    forall i, j | 0 <= i < j < |imported|
      ensures !Replaces(imported[j], imported[i])
    {
      RenamedAt(pair, uidA, uidB, mapping, i);
      RenamedAt(pair, uidA, uidB, mapping, j);
      SourcesStayDistinct(pair[i], pair[j], uidA, uidB, mapping);
    }
    AllImportedSurviveIff(existing, imported);
  }

  lemma SourcesStayDistinct(c: ConnectionSpec, d: ConnectionSpec, uidA: string, uidB: string, mapping: Mapping)
    requires JoinsPair(c, uidA, uidB) && JoinsPair(d, uidA, uidB) && c.source != d.source && c.id != d.id
    requires uidA != uidB && mapping.uidA != mapping.uidB && '.' !in mapping.uidA && '.' !in mapping.uidB
    ensures !Replaces(RenamedConnection(d, uidA, uidB, mapping), RenamedConnection(c, uidA, uidB, mapping))
  {
    hide FirstDot;
    RenamedParts(c.source, uidA, uidB, mapping);
    RenamedParts(d.source, uidA, uidB, mapping);
  }

  lemma RenamedParts(endpoint: string, uidA: string, uidB: string, mapping: Mapping)
    requires RoleOf(endpoint, uidA, uidB).Some? && '.' !in mapping.uidA && '.' !in mapping.uidB
    ensures Point(Renamed(endpoint, uidA, uidB, mapping)) == Point(endpoint)
    ensures Module(Renamed(endpoint, uidA, uidB, mapping)) == if Module(endpoint) == uidA then mapping.uidA else mapping.uidB
    ensures endpoint == Module(endpoint) + "." + Point(endpoint)
  {
    DotPosition(if Module(endpoint) == uidA then mapping.uidA else mapping.uidB, Point(endpoint));
  }

  // ---- Both roles on one device ----

  predicate DistinctSourcePoints(pair: seq<ConnectionSpec>) {
    forall i, j :: 0 <= i < j < |pair| ==> Point(pair[i].source) != Point(pair[j].source)
  }

  lemma OnSameDevice(c: ConnectionSpec, uidA: string, uidB: string, mapping: Mapping)
    requires JoinsPair(c, uidA, uidB) && mapping.uidA == mapping.uidB
    requires '.' !in mapping.uidA && mapping.uidA !in RESERVED_MODULES
    ensures RenamedConnection(c, uidA, uidB, mapping).source == Endpoint(mapping.uidA, Point(c.source))
    ensures !IsDisconnected(RenamedConnection(c, uidA, uidB, mapping).source)
  {
    hide FirstDot;
    RenamedParts(c.source, uidA, uidB, mapping);
  }

  lemma SameSourceIffSamePoint(c: ConnectionSpec, d: ConnectionSpec, uidA: string, uidB: string, mapping: Mapping)
    requires JoinsPair(c, uidA, uidB) && JoinsPair(d, uidA, uidB) && c.id != d.id && mapping.uidA == mapping.uidB
    requires '.' !in mapping.uidA && mapping.uidA !in RESERVED_MODULES
    ensures Replaces(RenamedConnection(d, uidA, uidB, mapping), RenamedConnection(c, uidA, uidB, mapping)) <==>
            Point(c.source) == Point(d.source)
  {
    hide FirstDot, IsDisconnected, JoinsPair, Renamed;
    OnSameDevice(c, uidA, uidB, mapping);
    OnSameDevice(d, uidA, uidB, mapping);
    SameEndpoint(mapping.uidA, Point(c.source), Point(d.source));
  }

  /** Nothing keeps both roles from being mapped to the same device. Then all
      imported connections survive the merge if and only if the source points in
      the bundle are pairwise distinct. */
  lemma SameDeviceKeepsAllIff(pair: seq<ConnectionSpec>, uidA: string, uidB: string, mapping: Mapping,
                              existing: seq<ConnectionSpec>)
    requires DistinctIds(pair) && forall c :: c in pair ==> JoinsPair(c, uidA, uidB)
    requires mapping.uidA == mapping.uidB && '.' !in mapping.uidA && mapping.uidA !in RESERVED_MODULES
    ensures var imported := RenamedAll(pair, uidA, uidB, mapping);
            Merge(existing, imported) == Survivors(existing + imported, |existing|, |existing|) + imported <==>
            DistinctSourcePoints(pair)
  {
    hide Survivors, Merge, JoinsPair, NoClash, DistinctSourcePoints;
    AllImportedSurviveIff(existing, RenamedAll(pair, uidA, uidB, mapping));
    ClashIffSamePoint(pair, uidA, uidB, mapping);
  }

  lemma ClashIffSamePoint(pair: seq<ConnectionSpec>, uidA: string, uidB: string, mapping: Mapping)
    requires DistinctIds(pair) && forall c :: c in pair ==> JoinsPair(c, uidA, uidB)
    requires mapping.uidA == mapping.uidB && '.' !in mapping.uidA && mapping.uidA !in RESERVED_MODULES
    ensures NoClash(RenamedAll(pair, uidA, uidB, mapping)) <==> DistinctSourcePoints(pair)
  {
    hide JoinsPair, RenamedConnection, Replaces, RenamedAll, FirstDot;
    var imported := RenamedAll(pair, uidA, uidB, mapping);
    forall i, j | 0 <= i < j < |pair|
      ensures Replaces(imported[j], imported[i]) <==> Point(pair[i].source) == Point(pair[j].source)
    {
      RenamedAt(pair, uidA, uidB, mapping, i);
      RenamedAt(pair, uidA, uidB, mapping, j);
      SameSourceIffSamePoint(pair[i], pair[j], uidA, uidB, mapping);
    }
    if DistinctSourcePoints(pair) {
      assert NoClash(imported);
    } else {
      var i, j :| 0 <= i < j < |pair| && Point(pair[i].source) == Point(pair[j].source);
      assert Replaces(imported[j], imported[i]);
    }
  }

  function Linear(id: string, source: string, target: string): ConnectionSpec {
    ConnectionSpec(id, source, target, RangeMap, 0.0, 1.0, 0.0, 127.0, false, "linear", 1.0, true, None)
  }

  lemma PartsOf(uid: string, point: string, uidA: string, uidB: string)
    requires '.' !in uid && point != "" && uid !in RESERVED_MODULES
    ensures RoleOf(Endpoint(uid, point), uidA, uidB) ==
            if uid == uidA then Some(DEVICE_A) else if uid == uidB then Some(DEVICE_B) else None
  {
    DotPosition(uid, point);
  }

  /** Two connections with different sources between two devices, of which only
      the second is left when both roles are mapped to one device. */
  lemma SameDeviceLosesConnection()
    ensures var c := Linear("1", Endpoint("left", "x"), Endpoint("right", "y"));
            var d := Linear("2", Endpoint("right", "x"), Endpoint("left", "z"));
            var mapping := Mapping("desk", "desk");
            && JoinsPair(c, "left", "right") && JoinsPair(d, "left", "right") && c.source != d.source
            && Merge([], RenamedAll([c, d], "left", "right", mapping)) == [RenamedConnection(d, "left", "right", mapping)]
  {
    hide FirstDot, RoleOf, IsDisconnected, Renamed, Survivors;
    var c := Linear("1", Endpoint("left", "x"), Endpoint("right", "y"));
    var d := Linear("2", Endpoint("right", "x"), Endpoint("left", "z"));
    var mapping := Mapping("desk", "desk");
    PartsOf("left", "x", "left", "right");
    PartsOf("right", "y", "left", "right");
    PartsOf("right", "x", "left", "right");
    PartsOf("left", "z", "left", "right");
    DotPosition("left", "x");
    DotPosition("right", "x");
    SameSourceIffSamePoint(c, d, "left", "right", mapping);
    var first, second := RenamedConnection(c, "left", "right", mapping), RenamedConnection(d, "left", "right", mapping);
    assert [c, d][..1] == [c] && [c][..0] == [];
    assert RenamedAll([c, d], "left", "right", mapping) == [first, second];
    MergeOfTwo(first, second);
  }

  lemma MergeOfTwo(first: ConnectionSpec, second: ConnectionSpec)
    requires Replaces(second, first)
    ensures Merge([], [first, second]) == [second]
  {
    hide Replaces;
    assert [first, second][..1] == [first] && [first][..0] == [];
    assert Merge([], [first]) == [first];
    assert Without([first], second) == [];
  }

  // ---- Generated ids ----

  predicate NoDoubleDash(s: string) {
    forall i :: 0 < i < |s| ==> !(s[i - 1] == '-' && s[i] == '-')
  }

  lemma {:induction false} DashedForm(s: string)
    ensures NoDoubleDash(Dashed(s))
  {
    if s != "" {
      DashedForm(s[..|s| - 1]);
    }
  }

  /** Words of small letters and digits, joined by single dashes. */
  predicate IsSlug(s: string) {
    && (forall c :: c in s ==> IsSlugChar(c) || c == '-')
    && NoDoubleDash(s)
    && (s != "" ==> s[0] != '-' && s[|s| - 1] != '-')
  }

  lemma DashedSnoc(front: string, c: char)
    ensures IsSlugChar(c) ==> Dashed(front + [c]) == Dashed(front) + [c]
    ensures c == '-' && (Dashed(front) == "" || Dashed(front)[|Dashed(front)| - 1] != '-') ==>
              Dashed(front + [c]) == Dashed(front) + [c]
  {
    assert (front + [c])[..|front|] == front;
  }

  lemma {:induction false} DashedOfSlug(s: string)
    requires (forall c :: c in s ==> IsSlugChar(c) || c == '-') && NoDoubleDash(s)
    ensures Dashed(s) == s
  {
    hide Dashed;
    if s == "" {
      assert Dashed("") == "" by { DashedNothing(); }
    } else {
      var front, last := s[..|s| - 1], s[|s| - 1];
      assert last in s && forall c :: c in front ==> c in s;
      DashedOfSlug(front);
      DashedSnoc(front, last);
      assert s == front + [last];
    }
  }

  lemma DashedNothing()
    ensures Dashed("") == ""
  {
  }

  /** A slug is always of this form, and making one of a slug changes nothing. */
  lemma SlugForm(s: string)
    ensures IsSlug(Slug(s)) && Slug(Slug(s)) == Slug(s)
  {
    hide Dashed;
    DashedForm(s);
    SlugChars(s);
    var dashed := Dashed(s);
    var left := if dashed != "" && dashed[0] == '-' then dashed[1..] else dashed;
    assert NoDoubleDash(left);
    DashedOfSlug(Slug(s));
  }

  /** A generated id depends on nothing but the letters and digits of its
      endpoints: it starts with `learn-`, is at most 120 characters long, and is
      cut off only when both slugs together are longer than 110. */
  lemma GeneratedIdForm(source: string, target: string)
    ensures var id, whole := MakeMappingId(source, target), "learn-" + Slug(source) + "-to-" + Slug(target);
            && id <= whole && "learn-" <= id && |id| <= 120
            && (id == whole <==> |Slug(source)| + |Slug(target)| <= 110)
            && IsSlug(Slug(source)) && IsSlug(Slug(target))
            && MakeMappingId(Slug(source), Slug(target)) == id
  {
    hide Slug;
    SlugForm(source);
    SlugForm(target);
  }

  /** The letters and digits of a text in order, the letters small. */
  function LettersOf(s: string): (letters: string) {
    if s == "" then ""
    else
      var before, c := LettersOf(s[..|s| - 1]), s[|s| - 1];
      if 'a' <= c <= 'z' || '0' <= c <= '9' then before + [c]
      else if 'A' <= c <= 'Z' then before + [(c as int + 32) as char]
      else before
  }

  predicate IsWord(s: string) {
    forall c :: c in s ==> 'a' <= c <= 'z' || '0' <= c <= '9' || 'A' <= c <= 'Z'
  }

  predicate IsGap(s: string) {
    forall c :: c in s ==> !('a' <= c <= 'z' || '0' <= c <= '9' || 'A' <= c <= 'Z')
  }

  lemma {:induction false} DashedWord(front: string, word: string)
    requires IsWord(word)
    ensures Dashed(front + word) == Dashed(front) + LettersOf(word)
    ensures |LettersOf(word)| == |word| && forall c :: c in LettersOf(word) ==> c != '-'
    decreases |word|
  {
    if word == "" {
      assert front + word == front;
    } else {
      var before, c := word[..|word| - 1], word[|word| - 1];
      assert c in word && forall d :: d in before ==> d in word;
      DashedWord(front, before);
      assert (front + word)[..|front + word| - 1] == front + before;
    }
  }

  lemma {:induction false} DashedGap(front: string, gap: string)
    requires IsGap(gap) && gap != "" && Dashed(front) != "" && Dashed(front)[|Dashed(front)| - 1] != '-'
    ensures Dashed(front + gap) == Dashed(front) + "-"
    decreases |gap|
  {
    var before, c := gap[..|gap| - 1], gap[|gap| - 1];
    assert c in gap && forall d :: d in before ==> d in gap;
    assert (front + gap)[..|front + gap| - 1] == front + before;
    if before == "" {
      assert front + before == front;
    } else {
      DashedGap(front, before);
    }
  }

  /** Two words, however they are separated, are joined by one dash; the other
      characters around them are dropped. */
  lemma SlugOfWords(first: string, gap: string, second: string)
    requires IsWord(first) && IsWord(second) && IsGap(gap) && first != "" && second != "" && gap != ""
    ensures Slug(first + gap + second) == LettersOf(first) + "-" + LettersOf(second)
  {
    hide Dashed, LettersOf, IsWord, IsGap, Slug;
    var a, b := LettersOf(first), LettersOf(second);
    assert "" + first == first && Dashed("") == "" by { DashedNothing(); }
    DashedWord("", first);
    assert "" + a == a && a[|a| - 1] in a && a[0] in a;
    DashedGap(first, gap);
    DashedWord(first + gap, second);
    assert b[|b| - 1] in b && (a + "-" + b)[|a| + |b|] == b[|b| - 1];
    SlugOfTrimmed(first + gap + second);
  }

  lemma SlugOfTrimmed(s: string)
    requires Dashed(s) != "" && Dashed(s)[0] != '-' && Dashed(s)[|Dashed(s)| - 1] != '-'
    ensures Slug(s) == Dashed(s)
  {
    hide Dashed;
  }

  // ---- What an entry of a bundle means ----

  function Given(value: Option<string>): string {
    if value.Some? then Strip(value.value) else ""
  }

  /** The exception of the first check that fails, or each field with the default
      of a key that is absent. */
  lemma ImportOfEntry(raw: RawConnection, mapping: Mapping, existing: set<string>)
    ensures var r := ImportOne(raw, mapping, existing);
            var roles := {"device_a", "device_b"};
            var modifier := if raw.modifier.Some? then Strip(raw.modifier.value) else "range_map";
            if Given(raw.sourceDevice) !in roles || Given(raw.targetDevice) !in roles then r == Err(UnknownRole)
            else if Given(raw.sourcePoint) == "" || Given(raw.targetPoint) == "" then r == Err(MissingPoint)
            else if modifier !in {"range_map", "passthrough", "factor"} then r == Err(UnsupportedModifier)
            else if Given(raw.scaleCurve) !in {"", "linear", "log_to_linear", "linear_to_log"} then r == Err(UnsupportedCurve)
            else if modifier == "factor" && raw.factor == Some(0.0) then r == Err(ZeroFactor)
            else r.Ok? && ReadsEntry(raw, mapping, existing, r.value)
  {
    hide Strip, MakeMappingId;
    StripOfVisible("linear");
    StripOfVisible("range_map");
    StripEmpty();
  }

  predicate ReadsEntry(raw: RawConnection, mapping: Mapping, existing: set<string>, c: ConnectionSpec) {
    var source := if Given(raw.sourceDevice) == "device_a" then mapping.uidA else mapping.uidB;
    var target := if Given(raw.targetDevice) == "device_a" then mapping.uidA else mapping.uidB;
    && c.source == source + "." + Given(raw.sourcePoint) && c.target == target + "." + Given(raw.targetPoint)
    && c.id == (if Given(raw.id) in existing + {""} then MakeMappingId(c.source, c.target) else Given(raw.id))
    && (raw.modifier.Some? ==> Strip(raw.modifier.value) == ModifierText(c)) && (raw.modifier.None? ==> ModifierText(c) == "range_map")
    && c.inputMin == (if raw.inputMin.Some? then raw.inputMin.value else 0.0)
    && c.inputMax == (if raw.inputMax.Some? then raw.inputMax.value else 1.0)
    && c.outputMin == (if raw.outputMin.Some? then raw.outputMin.value else 0.0)
    && c.outputMax == (if raw.outputMax.Some? then raw.outputMax.value else 127.0)
    && c.invert == (raw.invert == Some(true)) && c.enabled == (raw.enabled != Some(false))
    && c.scaleCurve == (if Given(raw.scaleCurve) == "" then "linear" else Given(raw.scaleCurve))
    && c.factor == (if raw.factor.Some? then raw.factor.value else 1.0) && c.managedBy == None
  }

  function ModifierText(c: ConnectionSpec): string {
    if c.modifier.RangeMap? then "range_map" else if c.modifier.Factor? then "factor" else "passthrough"
  }
}
