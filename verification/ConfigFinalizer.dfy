/** The last step of parsing a configuration: the strict check that raises, the
    lenient one that drops what does not fit, and the registry built from it. */
module ConfigFinalizer {
  import opened Common
  import opened Text
  import opened ConnectionBundle

  /** A device table keeps its devices in order, one for each uid. */
  datatype Device = Device(uid: string, adapter: string, name: string, library: string) {
    function DisplayName(): string {
      if Strip(name) != "" then Strip(name) else uid
    }
  }

  datatype Issue =
    | UnknownAdapter(uid: string, adapter: string)
    | SharedAdapter(adapter: string, first: string, second: string)
    | UnknownDevice(connection: string, endpoint: string)

  // ---- Resolving the device part of an endpoint ----

  predicate StartsWith(s: string, start: string) {
    start <= s
  }

  /** `deskModes` maps a library to the mode of the desk it belongs to. */
  function LibraryShorthand(library: string, deskModes: map<string, string>): string {
    var mode := if Strip(library) in deskModes then deskModes[Strip(library)] else "";
    if mode != "" then mode
    else if StartsWith(library, "behringer_") then library[|"behringer_"|..]
    else if StartsWith(library, "presonus_") then library[|"presonus_"|..]
    else library
  }

  function Filter(devices: seq<Device>, passes: Device -> bool): (found: seq<Device>)
    ensures forall d :: d in found <==> d in devices && passes(d)
  {
    if devices == [] then []
    else
      var before, last := Filter(devices[..|devices| - 1], passes), devices[|devices| - 1];
      if passes(last) then before + [last] else before
  }

  /** The last device bound to an adapter. */
  function BoundTo(devices: seq<Device>, adapter: string): (uid: Option<string>)
    ensures uid.Some? ==> exists d :: d in devices && d.adapter == adapter && d.uid == uid.value
    ensures uid.None? ==> forall d :: d in devices ==> d.adapter != adapter
  {
    if devices == [] then None
    else if devices[|devices| - 1].adapter == adapter then Some(devices[|devices| - 1].uid)
    else BoundTo(devices[..|devices| - 1], adapter)
  }

  /** One of several matches counts only when it is the only one. */
  function OnlyOne(found: seq<Device>): Option<string> {
    if |found| == 1 then Some(found[0].uid) else None
  }

  predicate HasName(d: Device, name: string) {
    d.name == name || d.DisplayName() == name
  }

  predicate HasPrefix(d: Device, name: string) {
    d.uid == name || d.adapter == name || StartsWith(d.uid, name + "_") || StartsWith(d.adapter, name + "_")
  }

  predicate HasLibrary(d: Device, name: string, deskModes: map<string, string>) {
    d.library != "" && LibraryShorthand(d.library, deskModes) == name
  }

  function FirstNamed(devices: seq<Device>, name: string): Option<string> {
    var found := Filter(devices, (d: Device) => HasName(d, name));
    if found == [] then None else Some(found[0].uid)
  }

  function ByPrefix(devices: seq<Device>, name: string): Option<string> {
    OnlyOne(Filter(devices, (d: Device) => HasPrefix(d, name)))
  }

  function ByLibrary(devices: seq<Device>, name: string, deskModes: map<string, string>): Option<string> {
    OnlyOne(Filter(devices, (d: Device) => HasLibrary(d, name, deskModes)))
  }

  function Uids(devices: seq<Device>): set<string> {
    set d | d in devices :: d.uid
  }

  function ResolveDevice(name: string, devices: seq<Device>, deskModes: map<string, string>): Option<string> {
    if name in Uids(devices) then Some(name)
    else if FirstNamed(devices, name).Some? then FirstNamed(devices, name)
    else if BoundTo(devices, name).Some? then BoundTo(devices, name)
    else if ByPrefix(devices, name).Some? then ByPrefix(devices, name)
    else ByLibrary(devices, name, deskModes)
  }

  lemma FilteredIsDevice(devices: seq<Device>, passes: Device -> bool)
    ensures Filter(devices, passes) != [] ==> Filter(devices, passes)[0].uid in Uids(devices)
  {
    hide Filter;
    if Filter(devices, passes) != [] {
      assert Filter(devices, passes)[0] in Filter(devices, passes);
    }
  }

  /** Whatever a name resolves to is a device of the table. */
  lemma ResolvesToDevice(name: string, devices: seq<Device>, deskModes: map<string, string>)
    ensures var uid := ResolveDevice(name, devices, deskModes); uid.Some? ==> uid.value in Uids(devices)
  {
    hide Filter, LibraryShorthand, BoundTo;
    FilteredIsDevice(devices, (d: Device) => HasName(d, name));
    FilteredIsDevice(devices, (d: Device) => HasPrefix(d, name));
    FilteredIsDevice(devices, (d: Device) => HasLibrary(d, name, deskModes));
  }

  /** The mode of the desk, else the library without its maker. */
  lemma ShorthandForm(library: string, rest: string, deskModes: map<string, string>)
    ensures Strip(library) in deskModes && deskModes[Strip(library)] != "" ==>
              LibraryShorthand(library, deskModes) == deskModes[Strip(library)]
    ensures Strip(library) !in deskModes && (library == "behringer_" + rest || library == "presonus_" + rest) ==>
              LibraryShorthand(library, deskModes) == rest
    ensures Strip(library) !in deskModes && !("behringer_" <= library) && !("presonus_" <= library) ==>
              LibraryShorthand(library, deskModes) == library
  {
    hide Strip;
    assert ("behringer_" + rest)[|"behringer_"|..] == rest && ("presonus_" + rest)[|"presonus_"|..] == rest;
    assert "presonus_"[0] != "behringer_"[0];
  }

  // ---- Which rule decides ----

  ghost predicate IsFirst(devices: seq<Device>, passes: Device -> bool, i: nat) {
    i < |devices| && passes(devices[i]) && forall j :: 0 <= j < i ==> !passes(devices[j])
  }

  ghost predicate IsLast(devices: seq<Device>, passes: Device -> bool, i: nat) {
    i < |devices| && passes(devices[i]) && forall j :: i < j < |devices| ==> !passes(devices[j])
  }

  ghost predicate IsOnly(devices: seq<Device>, passes: Device -> bool, i: nat) {
    i < |devices| && passes(devices[i]) && forall j :: 0 <= j < |devices| && passes(devices[j]) ==> j == i
  }

  lemma NoneIsFoundIff(devices: seq<Device>, passes: Device -> bool)
    ensures Filter(devices, passes) == [] <==> forall i :: 0 <= i < |devices| ==> !passes(devices[i])
  {
    hide Filter;
    var found := Filter(devices, passes);
    if found != [] {
      assert found[0] in found;
    }
  }

  lemma {:induction false} FirstIsFound(devices: seq<Device>, passes: Device -> bool, i: nat)
    requires IsFirst(devices, passes, i)
    ensures Filter(devices, passes) != [] && Filter(devices, passes)[0] == devices[i]
  {
    var before := devices[..|devices| - 1];
    if i < |before| {
      FirstIsFound(before, passes, i);
    } else {
      NoneIsFoundIff(before, passes);
    }
  }

  /** A filter finds one device exactly when only one passes. */
  lemma {:induction false} OneIsFoundIff(devices: seq<Device>, passes: Device -> bool)
    ensures |Filter(devices, passes)| == 1 <==> exists i: nat :: IsOnly(devices, passes, i)
    ensures forall i: nat :: IsOnly(devices, passes, i) ==> OnlyOne(Filter(devices, passes)) == Some(devices[i].uid)
  {
    forall i: nat | IsOnly(devices, passes, i)
      ensures |Filter(devices, passes)| == 1 && Filter(devices, passes)[0] == devices[i]
    {
      OnlyIsFound(devices, passes, i);
    }
    if |Filter(devices, passes)| == 1 {
      var i := FoundIsOnly(devices, passes);
    }
  }

  lemma {:induction false} OnlyIsFound(devices: seq<Device>, passes: Device -> bool, i: nat)
    requires IsOnly(devices, passes, i)
    ensures Filter(devices, passes) == [devices[i]]
  {
    var before := devices[..|devices| - 1];
    if i < |before| {
      OnlyIsFound(before, passes, i);
    } else {
      NoneIsFoundIff(before, passes);
    }
  }

  lemma {:induction false} FoundIsOnly(devices: seq<Device>, passes: Device -> bool) returns (i: nat)
    requires |Filter(devices, passes)| == 1
    ensures IsOnly(devices, passes, i)
  {
    var before := devices[..|devices| - 1];
    if passes(devices[|devices| - 1]) {
      i := |before|;
      NoneIsFoundIff(before, passes);
      assert forall j :: 0 <= j < |before| ==> before[j] == devices[j];
    } else {
      i := FoundIsOnly(before, passes);
      assert forall j :: 0 <= j < |before| ==> before[j] == devices[j];
    }
  }

  lemma {:induction false} FoundHasFirst(devices: seq<Device>, passes: Device -> bool) returns (i: nat)
    requires Filter(devices, passes) != []
    ensures IsFirst(devices, passes, i) && Filter(devices, passes)[0] == devices[i]
  {
    var before := devices[..|devices| - 1];
    if Filter(before, passes) != [] {
      i := FoundHasFirst(before, passes);
    } else {
      i := |before|;
      NoneIsFoundIff(before, passes);
      assert forall j :: 0 <= j < |before| ==> before[j] == devices[j];
    }
  }

  lemma {:induction false} BoundHasLast(devices: seq<Device>, adapter: string, passes: Device -> bool) returns (i: nat)
    requires forall d :: passes(d) <==> d.adapter == adapter
    requires BoundTo(devices, adapter).Some?
    ensures IsLast(devices, passes, i) && BoundTo(devices, adapter) == Some(devices[i].uid)
  {
    if devices[|devices| - 1].adapter == adapter {
      i := |devices| - 1;
    } else {
      i := BoundHasLast(devices[..|devices| - 1], adapter, passes);
    }
  }

  /** A name is a uid, else the name of the first device of that name, else the
      adapter of the last device bound to it. If none of these, it must be the
      prefix of exactly one device, or else the shorthand of exactly one library:
      with two candidates or none a rule gives nothing. */
  lemma RulesInOrder(name: string, devices: seq<Device>, deskModes: map<string, string>)
    ensures var r := ResolveDevice(name, devices, deskModes);
            var named := (d: Device) => d.name == name || (if Strip(d.name) != "" then Strip(d.name) else d.uid) == name;
            var bound := (d: Device) => d.adapter == name;
            var prefixed := (d: Device) =>
              d.uid == name || d.adapter == name || name + "_" <= d.uid || name + "_" <= d.adapter;
            var shorthand := (d: Device) => d.library != "" && LibraryShorthand(d.library, deskModes) == name;
            if exists d :: d in devices && d.uid == name then r == Some(name)
            else if exists i: nat :: IsFirst(devices, named, i) then
              exists i: nat :: IsFirst(devices, named, i) && r == Some(devices[i].uid)
            else if exists i: nat :: IsLast(devices, bound, i) then
              exists i: nat :: IsLast(devices, bound, i) && r == Some(devices[i].uid)
            else if exists i: nat :: IsOnly(devices, prefixed, i) then
              exists i: nat :: IsOnly(devices, prefixed, i) && r == Some(devices[i].uid)
            else if exists i: nat :: IsOnly(devices, shorthand, i) then
              exists i: nat :: IsOnly(devices, shorthand, i) && r == Some(devices[i].uid)
            else r == None
  {
    hide Filter, BoundTo, Strip, LibraryShorthand, OnlyOne;
    var named := (d: Device) => d.name == name || (if Strip(d.name) != "" then Strip(d.name) else d.uid) == name;
    var bound := (d: Device) => d.adapter == name;
    NamedFirst(name, devices, named);
    if BoundTo(devices, name).Some? {
      var i := BoundHasLast(devices, name, bound);
    }
    OnlyMatches(devices, (d: Device) => HasPrefix(d, name), (d: Device) =>
      d.uid == name || d.adapter == name || name + "_" <= d.uid || name + "_" <= d.adapter);
    OnlyMatches(devices, (d: Device) => HasLibrary(d, name, deskModes), (d: Device) =>
      d.library != "" && LibraryShorthand(d.library, deskModes) == name);
  }

  lemma NamedFirst(name: string, devices: seq<Device>, named: Device -> bool)
    requires forall d :: named(d) <==> HasName(d, name)
    ensures if FirstNamed(devices, name).Some? then
              exists i: nat :: IsFirst(devices, named, i) && FirstNamed(devices, name) == Some(devices[i].uid)
            else forall i: nat :: !IsFirst(devices, named, i)
  {
    hide Filter, HasName;
    var passes := (d: Device) => HasName(d, name);
    if Filter(devices, passes) != [] {
      var i := FoundHasFirst(devices, passes);
      assert IsFirst(devices, named, i);
    } else {
      NoneIsFoundIff(devices, passes);
    }
  }

  lemma OnlyMatches(devices: seq<Device>, passes: Device -> bool, same: Device -> bool)
    requires forall d :: passes(d) <==> same(d)
    ensures var r := OnlyOne(Filter(devices, passes));
            if r.Some? then exists i: nat :: IsOnly(devices, same, i) && r == Some(devices[i].uid)
            else forall i: nat :: !IsOnly(devices, same, i)
  {
    hide Filter;
    OneIsFoundIff(devices, passes);
    forall i: nat
      ensures IsOnly(devices, passes, i) <==> IsOnly(devices, same, i)
    {
    }
  }

  /** `normalize_connection_endpoint` */
  function NormalizeEndpoint(endpoint: string, devices: seq<Device>, deskModes: map<string, string>): string {
    if FirstDot(endpoint) == |endpoint| || Module(endpoint) in RESERVED_MODULES then endpoint
    else
      match ResolveDevice(Module(endpoint), devices, deskModes)
      case None => endpoint
      case Some(uid) => if uid == Module(endpoint) then endpoint else Endpoint(uid, Point(endpoint))
  }

  /** An endpoint of a device that resolves gets the uid of that device; all others,
      and those of the built-in modules, stay. */
  lemma NormalizedForm(name: string, point: string, devices: seq<Device>, deskModes: map<string, string>)
    requires '.' !in name
    ensures NormalizeEndpoint(name, devices, deskModes) == name
    ensures var endpoint := name + "." + point;
            var uid := ResolveDevice(name, devices, deskModes);
            NormalizeEndpoint(endpoint, devices, deskModes) == (
              if name in {"clock", "gamepi", "mapping", "nicht_verbunden", "rotary_display", "song"} || uid.None? then endpoint
              else uid.value + "." + point)
  {
    hide FirstDot, ResolveDevice;
    NoDot(name);
    DotPosition(name, point);
  }

  /** Normalizing twice is normalizing once, as long as no uid contains a dot. */
  lemma NormalizingIsIdempotent(endpoint: string, devices: seq<Device>, deskModes: map<string, string>)
    requires forall uid :: uid in Uids(devices) ==> '.' !in uid
    ensures var once := NormalizeEndpoint(endpoint, devices, deskModes);
            NormalizeEndpoint(once, devices, deskModes) == once
  {
    hide FirstDot, Uids, FirstNamed, BoundTo, ByPrefix, ByLibrary;
    var once := NormalizeEndpoint(endpoint, devices, deskModes);
    ResolvesToDevice(Module(endpoint), devices, deskModes);
    if once != endpoint {
      DotPosition(ResolveDevice(Module(endpoint), devices, deskModes).value, Point(endpoint));
    }
  }

  // ---- The strict check ----

  predicate DistinctAdapters(devices: seq<Device>) {
    forall i, j :: 0 <= i < j < |devices| ==> devices[i].adapter != devices[j].adapter
  }

  predicate EndpointFits(endpoint: string, devices: seq<Device>, deskModes: map<string, string>) {
    Module(endpoint) in RESERVED_MODULES || ResolveDevice(Module(endpoint), devices, deskModes).Some?
  }

  /** An endpoint, with or without a point, fits exactly when its first part is a
      built-in module or resolves to a device. */
  lemma EndpointFitsIff(name: string, point: string, devices: seq<Device>, deskModes: map<string, string>)
    requires '.' !in name
    ensures EndpointFits(name + "." + point, devices, deskModes) <==> EndpointFits(name, devices, deskModes)
    ensures EndpointFits(name, devices, deskModes) <==>
            || name in {"clock", "gamepi", "mapping", "nicht_verbunden", "rotary_display", "song"}
            || ResolveDevice(name, devices, deskModes).Some?
  {
    hide FirstDot, ResolveDevice;
    NoDot(name);
    DotPosition(name, point);
  }

  predicate ConnectionFits(c: ConnectionSpec, devices: seq<Device>, deskModes: map<string, string>) {
    EndpointFits(c.source, devices, deskModes) && EndpointFits(c.target, devices, deskModes)
  }

  predicate IsStrictlyValid(devices: seq<Device>, connections: seq<ConnectionSpec>, deskModes: map<string, string>) {
    DistinctAdapters(devices) && forall c :: c in connections ==> ConnectionFits(c, devices, deskModes)
  }

  /** A binding table holds exactly the adapters of the devices seen so far. */
  ghost predicate Binds(bindings: map<string, string>, devices: seq<Device>) {
    && (forall a :: a in bindings <==> exists d :: d in devices && d.adapter == a)
    && (forall d :: d in devices ==> d.adapter in bindings && bindings[d.adapter] == d.uid)
  }

  method ValidateDevicesAndConnections(devices: seq<Device>, connections: seq<ConnectionSpec>, deskModes: map<string, string>)
    returns (r: Result<(), Issue>)
    ensures r.Ok? <==> IsStrictlyValid(devices, connections, deskModes)
  {
    hide EndpointFits, Binds;
    var bound := BindAdapters(devices);
    if bound.error.Some? {
      return Err(bound.error.value);
    }
    for i := 0 to |connections|
      invariant forall c :: c in connections[..i] ==> ConnectionFits(c, devices, deskModes)
    {
      var c := connections[i];
      for k := 0 to 2
        invariant k > 0 ==> EndpointFits(c.source, devices, deskModes)
        invariant k > 1 ==> EndpointFits(c.target, devices, deskModes)
      {
        var endpoint := if k == 0 then c.source else c.target;
        if !EndpointFits(endpoint, devices, deskModes) {
          assert c in connections && !ConnectionFits(c, devices, deskModes);
          return Err(UnknownDevice(c.id, endpoint));
        }
      }
    }
    r := Ok(());
  }

  datatype Bound = Bound(bindings: map<string, string>, error: Option<Issue>)

  /** The loop over the devices that the validator and the registry share. */
  method BindAdapters(devices: seq<Device>) returns (bound: Bound)
    ensures bound.error.None? <==> DistinctAdapters(devices)
    ensures bound.error.None? ==> Binds(bound.bindings, devices)
    ensures bound.error.Some? ==>
              exists n :: 0 <= n < |devices| && DistinctAdapters(devices[..n]) && Binds(bound.bindings, devices[..n])
                && devices[n].adapter in bound.bindings
                && bound.error.value == SharedAdapter(devices[n].adapter, bound.bindings[devices[n].adapter], devices[n].uid)
  {
    hide DistinctAdapters, Binds, AdapterTaken;
    var bindings: map<string, string> := map[];
    NothingBound();
    assert DistinctAdapters([]) by { NothingShared(); }
    for i := 0 to |devices|
      invariant DistinctAdapters(devices[..i])
      invariant Binds(bindings, devices[..i])
    {
      var device := devices[i];
      assert devices[..i + 1] == devices[..i] + [device];
      DistinctSnoc(devices[..i], device);
      BindingIsBound(bindings, devices[..i], device.adapter);
      BoundIffTaken(devices[..i], device.adapter);
      if device.adapter in bindings {
        SharedByEarlier(bindings, devices, i);
        return Bound(bindings, Some(SharedAdapter(device.adapter, bindings[device.adapter], device.uid)));
      }
      BindsMore(bindings, devices[..i], device);
      bindings := bindings[device.adapter := device.uid];
    }
    assert devices[..|devices|] == devices;
    bound := Bound(bindings, None);
  }

  lemma NothingShared()
    ensures DistinctAdapters([])
  {
  }

  lemma SharedByEarlier(bindings: map<string, string>, devices: seq<Device>, i: nat)
    requires i < |devices| && Binds(bindings, devices[..i]) && devices[i].adapter in bindings
    ensures !DistinctAdapters(devices)
  {
    var d :| d in devices[..i] && d.adapter == devices[i].adapter;
    var k :| 0 <= k < i && devices[..i][k] == d;
    assert devices[k].adapter == devices[i].adapter;
  }

  // ---- The lenient check ----

  predicate AdapterTaken(adapter: string, devices: seq<Device>) {
    exists d :: d in devices && d.adapter == adapter
  }

  /** The first device of each configured adapter. */
  function AcceptedDevices(devices: seq<Device>, adapters: set<string>): seq<Device> {
    if devices == [] then []
    else
      var front, last := devices[..|devices| - 1], devices[|devices| - 1];
      var before := AcceptedDevices(front, adapters);
      if last.adapter in adapters && !AdapterTaken(last.adapter, front) then before + [last] else before
  }

  function AcceptedConnections(connections: seq<ConnectionSpec>, devices: seq<Device>, deskModes: map<string, string>)
    : (accepted: seq<ConnectionSpec>)
    ensures |accepted| <= |connections|
    ensures forall c :: c in accepted <==> c in connections && ConnectionFits(c, devices, deskModes)
  {
    if connections == [] then []
    else
      var before := AcceptedConnections(connections[..|connections| - 1], devices, deskModes);
      var last := connections[|connections| - 1];
      if ConnectionFits(last, devices, deskModes) then before + [last] else before
  }

  lemma {:induction false} AcceptedTakesSame(devices: seq<Device>, adapters: set<string>, adapter: string)
    ensures AdapterTaken(adapter, AcceptedDevices(devices, adapters)) <==>
            adapter in adapters && AdapterTaken(adapter, devices)
    ensures |AcceptedDevices(devices, adapters)| <= |devices|
  {
    if devices != [] {
      var front, last := devices[..|devices| - 1], devices[|devices| - 1];
      var before := AcceptedDevices(front, adapters);
      AcceptedTakesSame(front, adapters, adapter);
      assert devices == front + [last];
      TakenBySnoc(front, last, adapter);
      TakenBySnoc(before, last, adapter);
    }
  }

  lemma TakenBySnoc(front: seq<Device>, last: Device, adapter: string)
    ensures AdapterTaken(adapter, front + [last]) <==> AdapterTaken(adapter, front) || last.adapter == adapter
  {
    if last.adapter == adapter {
      assert last in front + [last];
    }
    if AdapterTaken(adapter, front) {
      var d :| d in front && d.adapter == adapter;
      assert d in front + [last];
    }
  }

  /** What is reported of the devices: each one that is dropped, with the device
      that was there first. */
  function DeviceIssues(devices: seq<Device>, adapters: set<string>): seq<Issue> {
    if devices == [] then []
    else
      var front, last := devices[..|devices| - 1], devices[|devices| - 1];
      var before := DeviceIssues(front, adapters);
      if last.adapter !in adapters then before + [UnknownAdapter(last.uid, last.adapter)]
      else
        match BoundTo(AcceptedDevices(front, adapters), last.adapter)
        case Some(first) => before + [SharedAdapter(last.adapter, first, last.uid)]
        case None => before
  }

  /** And of the connections: the first endpoint that does not fit. */
  function ConnectionIssues(connections: seq<ConnectionSpec>, devices: seq<Device>, deskModes: map<string, string>): seq<Issue> {
    if connections == [] then []
    else
      var before := ConnectionIssues(connections[..|connections| - 1], devices, deskModes);
      var last := connections[|connections| - 1];
      if ConnectionFits(last, devices, deskModes) then before
      else before + [UnknownDevice(last.id, if EndpointFits(last.source, devices, deskModes) then last.target else last.source)]
  }

  /** Every dropped device and every dropped connection is reported once. */
  lemma {:induction false} DroppedDevicesAreReported(devices: seq<Device>, adapters: set<string>)
    ensures |DeviceIssues(devices, adapters)| == |devices| - |AcceptedDevices(devices, adapters)|
  {
    hide BoundTo, AdapterTaken;
    if devices != [] {
      var front, last := devices[..|devices| - 1], devices[|devices| - 1];
      DroppedDevicesAreReported(front, adapters);
      AcceptedTakesSame(front, adapters, last.adapter);
      BoundIffTaken(AcceptedDevices(front, adapters), last.adapter);
    }
  }

  lemma BoundIffTaken(devices: seq<Device>, adapter: string)
    ensures BoundTo(devices, adapter).Some? <==> AdapterTaken(adapter, devices)
  {
  }

  lemma {:induction false} DroppedConnectionsAreReported(connections: seq<ConnectionSpec>, devices: seq<Device>,
                                                         deskModes: map<string, string>)
    ensures |ConnectionIssues(connections, devices, deskModes)|
         == |connections| - |AcceptedConnections(connections, devices, deskModes)|
  {
    hide ConnectionFits, EndpointFits;
    if connections != [] {
      DroppedConnectionsAreReported(connections[..|connections| - 1], devices, deskModes);
    }
  }

  method AcceptDevices(devices: seq<Device>, adapters: set<string>) returns (accepted: seq<Device>, issues: seq<Issue>)
    ensures accepted == AcceptedDevices(devices, adapters)
    ensures issues == DeviceIssues(devices, adapters)
  {
    hide AdapterTaken, Binds, BoundTo;
    accepted, issues := [], [];
    var bindings: map<string, string> := map[];
    NothingBound();
    for i := 0 to |devices|
      invariant accepted == AcceptedDevices(devices[..i], adapters)
      invariant issues == DeviceIssues(devices[..i], adapters)
      invariant Binds(bindings, accepted)
    {
      var device := devices[i];
      assert devices[..i + 1][..i] == devices[..i];
      BindingIsBound(bindings, accepted, device.adapter);
      BoundIffTaken(accepted, device.adapter);
      AcceptedTakesSame(devices[..i], adapters, device.adapter);
      if device.adapter !in adapters {
        issues := issues + [UnknownAdapter(device.uid, device.adapter)];
        continue;
      }
      if device.adapter in bindings {
        issues := issues + [SharedAdapter(device.adapter, bindings[device.adapter], device.uid)];
        continue;
      }
      BindsMore(bindings, accepted, device);
      bindings := bindings[device.adapter := device.uid];
      accepted := accepted + [device];
    }
    assert devices[..|devices|] == devices;
  }

  method AcceptConnections(connections: seq<ConnectionSpec>, devices: seq<Device>, deskModes: map<string, string>)
    returns (accepted: seq<ConnectionSpec>, issues: seq<Issue>)
    ensures accepted == AcceptedConnections(connections, devices, deskModes)
    ensures issues == ConnectionIssues(connections, devices, deskModes)
  {
    hide EndpointFits;
    accepted, issues := [], [];
    for i := 0 to |connections|
      invariant accepted == AcceptedConnections(connections[..i], devices, deskModes)
      invariant issues == ConnectionIssues(connections[..i], devices, deskModes)
    {
      var c := connections[i];
      assert connections[..i + 1][..i] == connections[..i];
      var invalidEndpoint := false;
      for k := 0 to 2
        invariant !invalidEndpoint
        invariant k > 0 ==> EndpointFits(c.source, devices, deskModes)
        invariant k > 1 ==> EndpointFits(c.target, devices, deskModes)
        invariant issues == ConnectionIssues(connections[..i], devices, deskModes)
      {
        var endpoint := if k == 0 then c.source else c.target;
        if !EndpointFits(endpoint, devices, deskModes) {
          issues := issues + [UnknownDevice(c.id, endpoint)];
          invalidEndpoint := true;
          break;
        }
      }
      if !invalidEndpoint {
        accepted := accepted + [c];
      }
    }
    assert connections[..|connections|] == connections;
  }

  /** `_finalize_devices_and_connections` with a list of issues. */
  method FinalizeLeniently(devices: seq<Device>, adapters: set<string>, connections: seq<ConnectionSpec>,
                           deskModes: map<string, string>)
    returns (acceptedDevices: seq<Device>, acceptedConnections: seq<ConnectionSpec>, issues: seq<Issue>)
    ensures acceptedDevices == AcceptedDevices(devices, adapters)
    ensures acceptedConnections == AcceptedConnections(connections, acceptedDevices, deskModes)
    ensures issues == DeviceIssues(devices, adapters) + ConnectionIssues(connections, acceptedDevices, deskModes)
    ensures |issues| == |devices| - |acceptedDevices| + (|connections| - |acceptedConnections|)
  {
    var deviceIssues, connectionIssues;
    acceptedDevices, deviceIssues := AcceptDevices(devices, adapters);
    acceptedConnections, connectionIssues := AcceptConnections(connections, acceptedDevices, deskModes);
    issues := deviceIssues + connectionIssues;
    DroppedDevicesAreReported(devices, adapters);
    DroppedConnectionsAreReported(connections, acceptedDevices, deskModes);
  }

  lemma NothingBound()
    ensures Binds(map[], [])
  {
  }

  lemma BindingIsBound(bindings: map<string, string>, devices: seq<Device>, adapter: string)
    requires Binds(bindings, devices)
    ensures BoundTo(devices, adapter) == if adapter in bindings then Some(bindings[adapter]) else None
  {
  }

  lemma BindsMore(bindings: map<string, string>, devices: seq<Device>, d: Device)
    requires Binds(bindings, devices) && d.adapter !in bindings
    ensures Binds(bindings[d.adapter := d.uid], devices + [d])
  {
  }

  // ---- Lenient and strict agree ----

  lemma {:induction false} AcceptedAreDistinct(devices: seq<Device>, adapters: set<string>)
    ensures DistinctAdapters(AcceptedDevices(devices, adapters))
    ensures forall d :: d in AcceptedDevices(devices, adapters) ==> d in devices && d.adapter in adapters
  {
    if devices != [] {
      var front, last := devices[..|devices| - 1], devices[|devices| - 1];
      AcceptedAreDistinct(front, adapters);
      assert devices == front + [last];
      var before := AcceptedDevices(front, adapters);
      assert forall i :: 0 <= i < |before| ==> before[i] in before;
    }
  }

  /** What the lenient check lets through always passes the strict one, and every
      device of it has a configured adapter. */
  lemma LenientResultIsValid(devices: seq<Device>, adapters: set<string>, connections: seq<ConnectionSpec>,
                             deskModes: map<string, string>)
    ensures var accepted := AcceptedDevices(devices, adapters);
            && IsStrictlyValid(accepted, AcceptedConnections(connections, accepted, deskModes), deskModes)
            && forall d :: d in accepted ==> d in devices && d.adapter in adapters
  {
    hide ConnectionFits, AcceptedDevices;
    AcceptedAreDistinct(devices, adapters);
  }

  predicate KnowsAdapters(devices: seq<Device>, adapters: set<string>) {
    forall d :: d in devices ==> d.adapter in adapters
  }

  lemma {:induction false} AcceptedDevicesLength(devices: seq<Device>, adapters: set<string>)
    ensures |AcceptedDevices(devices, adapters)| <= |devices|
    ensures |AcceptedDevices(devices, adapters)| == |devices| <==> AcceptedDevices(devices, adapters) == devices
    ensures AcceptedDevices(devices, adapters) == devices <==> DistinctAdapters(devices) && KnowsAdapters(devices, adapters)
  {
    if devices != [] {
      var front, last := devices[..|devices| - 1], devices[|devices| - 1];
      AcceptedDevicesLength(front, adapters);
      assert devices == front + [last];
      DistinctSnoc(front, last);
      assert KnowsAdapters(devices, adapters) <==> KnowsAdapters(front, adapters) && last.adapter in adapters by {
        KnowsSnoc(front, last, adapters);
      }
    }
  }

  lemma DistinctSnoc(front: seq<Device>, last: Device)
    ensures DistinctAdapters(front + [last]) <==> DistinctAdapters(front) && !AdapterTaken(last.adapter, front)
  {
    var all := front + [last];
    assert forall i :: 0 <= i < |front| ==> all[i] == front[i];
    if AdapterTaken(last.adapter, front) {
      var d :| d in front && d.adapter == last.adapter;
      var i :| 0 <= i < |front| && front[i] == d;
      assert all[i].adapter == all[|front|].adapter;
    }
    if DistinctAdapters(front) && !AdapterTaken(last.adapter, front) {
      assert forall i :: 0 <= i < |front| ==> front[i] in front;
    }
    if DistinctAdapters(all) {
      assert forall i, j :: 0 <= i < j < |front| ==> all[i].adapter != all[j].adapter;
    }
  }

  lemma KnowsSnoc(front: seq<Device>, last: Device, adapters: set<string>)
    ensures KnowsAdapters(front + [last], adapters) <==> KnowsAdapters(front, adapters) && last.adapter in adapters
  {
    assert last in front + [last];
    assert forall d :: d in front ==> d in front + [last];
  }

  lemma {:induction false} AcceptedConnectionsLength(connections: seq<ConnectionSpec>, devices: seq<Device>,
                                                     deskModes: map<string, string>)
    ensures |AcceptedConnections(connections, devices, deskModes)| == |connections| <==>
            AcceptedConnections(connections, devices, deskModes) == connections
    ensures AcceptedConnections(connections, devices, deskModes) == connections <==>
            forall c :: c in connections ==> ConnectionFits(c, devices, deskModes)
  {
    hide ConnectionFits;
    if connections != [] {
      AcceptedConnectionsLength(connections[..|connections| - 1], devices, deskModes);
    }
  }

  /** The lenient check changes nothing, and reports nothing, exactly when the
      strict check passes and all adapters are configured: the strict one does
      not look at that. */
  lemma UnchangedIffStrictlyValid(devices: seq<Device>, adapters: set<string>, connections: seq<ConnectionSpec>,
                                  deskModes: map<string, string>)
    ensures var accepted := AcceptedDevices(devices, adapters);
            var kept := AcceptedConnections(connections, accepted, deskModes);
            var issues := |devices| - |accepted| + (|connections| - |kept|);
            && (accepted == devices && kept == connections <==>
                  IsStrictlyValid(devices, connections, deskModes) && KnowsAdapters(devices, adapters))
            && (issues == 0 <==> accepted == devices && kept == connections)
  {
    hide ConnectionFits, AcceptedDevices, AcceptedConnections, DistinctAdapters, KnowsAdapters;
    var accepted := AcceptedDevices(devices, adapters);
    AcceptedDevicesLength(devices, adapters);
    AcceptedConnectionsLength(connections, accepted, deskModes);
  }

  /** Finalizing a finalized configuration changes nothing. */
  lemma FinalizingIsIdempotent(devices: seq<Device>, adapters: set<string>, connections: seq<ConnectionSpec>,
                               deskModes: map<string, string>)
    ensures var accepted := AcceptedDevices(devices, adapters);
            var kept := AcceptedConnections(connections, accepted, deskModes);
            AcceptedDevices(accepted, adapters) == accepted && AcceptedConnections(kept, accepted, deskModes) == kept
  {
    hide ConnectionFits, AcceptedDevices, AcceptedConnections, DistinctAdapters;
    var accepted := AcceptedDevices(devices, adapters);
    LenientResultIsValid(devices, adapters, connections, deskModes);
    UnchangedIffStrictlyValid(accepted, adapters, AcceptedConnections(connections, accepted, deskModes), deskModes);
  }

  // ---- The registry ----

  class DeviceRegistry {
    var devices: seq<Device>
    var adapterToDevice: map<string, string>

    /** Every adapter leads to its device, and to no other. */
    ghost predicate Valid()
      reads this
    {
      DistinctAdapters(devices) && Binds(adapterToDevice, devices)
    }

    /** An empty registry; `Reload` fills it. */
    constructor ()
      ensures Valid() && devices == []
    {
      devices, adapterToDevice := [], map[];
    }

    /** `__init__` and `reload_from_config`: raises exactly when two devices share
        an adapter. The devices are replaced before that is checked, so a failed
        reload leaves a registry that knows the adapters of the first ones only. */
    method Reload(newDevices: seq<Device>) returns (r: Result<(), Issue>)
      modifies this
      ensures devices == newDevices
      ensures r.Ok? <==> DistinctAdapters(newDevices)
      ensures r.Ok? ==> Valid()
      ensures r.Err? ==> exists n :: 0 <= n < |devices| && Binds(adapterToDevice, devices[..n])
                           && devices[n].adapter in adapterToDevice
    {
      devices := newDevices;
      var bound := BindAdapters(newDevices);
      adapterToDevice := bound.bindings;
      r := if bound.error.Some? then Err(bound.error.value) else Ok(());
    }

    method DeviceForAdapter(adapter: string) returns (found: Option<Device>)
      requires Valid() && DistinctUids(devices)
      ensures found.Some? <==> AdapterTaken(adapter, devices)
      ensures found.Some? ==> found.value in devices && found.value.adapter == adapter
    {
      if adapter !in adapterToDevice {
        return None;
      }
      found := DeviceWithUid(devices, adapterToDevice[adapter]);
      OwnerIsFound(adapterToDevice, devices, adapter);
    }
  }

  /** `dict.get` */
  function DeviceWithUid(devices: seq<Device>, uid: string): (found: Option<Device>)
    ensures found.Some? ==> found.value in devices && found.value.uid == uid
    ensures found.None? ==> forall d :: d in devices ==> d.uid != uid
  {
    if devices == [] then None
    else if devices[|devices| - 1].uid == uid then Some(devices[|devices| - 1])
    else DeviceWithUid(devices[..|devices| - 1], uid)
  }

  predicate DistinctUids(devices: seq<Device>) {
    forall i, j :: 0 <= i < j < |devices| ==> devices[i].uid != devices[j].uid
  }

  lemma OwnerIsFound(bindings: map<string, string>, devices: seq<Device>, adapter: string)
    requires Binds(bindings, devices) && DistinctUids(devices) && adapter in bindings
    ensures var found := DeviceWithUid(devices, bindings[adapter]);
            found.Some? && found.value in devices && found.value.adapter == adapter
  {
    hide DeviceWithUid;
    var d :| d in devices && d.adapter == adapter;
    assert bindings[adapter] == d.uid;
  }

  /** A configuration that the lenient check let through never makes the registry
      raise: every one of its devices is found by its adapter. */
  method RegistryAcceptsFinalized(devices: seq<Device>, adapters: set<string>, connections: seq<ConnectionSpec>,
                                  deskModes: map<string, string>, registry: DeviceRegistry)
    returns (r: Result<(), Issue>)
    modifies registry
    ensures r.Ok? && registry.Valid() && registry.devices == AcceptedDevices(devices, adapters)
  {
    var acceptedDevices, _, _ := FinalizeLeniently(devices, adapters, connections, deskModes);
    AcceptedAreDistinct(devices, adapters);
    r := registry.Reload(acceptedDevices);
  }
}
