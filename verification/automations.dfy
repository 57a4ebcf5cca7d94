/** The configuration resolver: a pure transform from the parsed configuration
    mapping into a device registry and a list of automations, each a schedule
    plus the devices it drives and the state each must reach. */
module Automations {
  import opened Wrappers
  import opened Text

  // ---------------------------------------------------------------------
  // Resolved records
  // ---------------------------------------------------------------------

  datatype DeviceType = Shade | Switch

  datatype StateKind = Open | Closed | On | Off | AtValue

  datatype Anchor = Sunrise | Sunset

  /** A target state; `setValue` is the percentage for `AtValue`. */
  datatype DeviceState = DeviceState(kind: StateKind, setValue: Option<int>)

  /** Magnitude of an offset from a solar event, and the event. */
  datatype SunOffset = SunOffset(hours: int, minutes: int, anchor: Anchor)

  datatype Schedule = Schedule(cron: string, sunOffset: Option<SunOffset>)

  datatype Device = Device(name: string, deviceType: DeviceType, tags: seq<string>)

  /** In tag mode without a uniform setting the state is absent (`None`). */
  datatype DeviceWithState = DeviceWithState(device: Device, state: Option<DeviceState>)

  datatype Automation = Automation(name: string, deviceList: seq<DeviceWithState>, schedule: Schedule)

  // ---------------------------------------------------------------------
  // Raw configuration, as the YAML loader hands it over. Keys the resolver
  // reads with `d[key]` are `Option`s too: their absence raises.
  // ---------------------------------------------------------------------

  datatype RawDevice = RawDevice(name: Option<string>, deviceType: Option<string>, locationTags: Option<seq<string>>)

  datatype RawOffset = RawOffset(hours: Option<int>, minutes: Option<int>)

  datatype RawSchedule = RawSchedule(cron: Option<string>, sunset: Option<RawOffset>, sunrise: Option<RawOffset>)

  /** The `setting` value: a string, an `int` proper, or anything else
      (a bool, a float, null, a list), which the source ignores. */
  datatype RawSetting = Str(s: string) | Int(i: int) | Other

  datatype RawListEntry = RawListEntry(name: Option<string>, value: Option<int>)

  /** The `devices` sub-object of an automation. */
  datatype RawSelector = RawSelector(deviceList: Option<seq<RawListEntry>>, tags: Option<seq<string>>)

  datatype RawAutomation = RawAutomation(
    name: Option<string>,
    setting: Option<RawSetting>,
    devices: Option<RawSelector>,
    schedule: Option<RawSchedule>)

  datatype RawConfig = RawConfig(devices: Option<seq<RawDevice>>, automations: Option<seq<RawAutomation>>)

  /** What the source raises, by cause. */
  datatype ConfigError =
    | MissingDevices                    // no `devices` key at the top level
    | MissingAutomations                // no `automations` key at the top level
    | MissingKey(key: string)           // KeyError on a required key
    | UnknownDeviceType(raw: string)
    | UnknownDeviceState(raw: string)
    | UnknownDevice(name: string)       // KeyError on the registry
    | UnknownSelector                   // neither `device_list` nor `tags`

  // ---------------------------------------------------------------------
  // Enumerations decoded case-insensitively
  // ---------------------------------------------------------------------

  const StateNames: set<string> := {"OPEN", "CLOSED", "ON", "OFF", "AT_VALUE"}

  const TypeNames: set<string> := {"SHADE", "SWITCH"}

  /** The name the source stores for a state kind. */
  function StateName(k: StateKind): (r: string)
    ensures r in StateNames
  {
    match k
    case Open => "OPEN"
    case Closed => "CLOSED"
    case On => "ON"
    case Off => "OFF"
    case AtValue => "AT_VALUE"
  }

  /** The name the source stores for a device type. */
  function TypeName(t: DeviceType): (r: string)
    ensures r in TypeNames
  {
    match t
    case Shade => "SHADE"
    case Switch => "SWITCH"
  }

  /** `_getTypeFromStr`: accepted iff the upper-cased input is a state name,
      and then it is the upper-cased input. */
  function DecodeState(raw: string): (r: Result<StateKind, ConfigError>)
    ensures r.Success? <==> Upper(raw) in StateNames
    ensures r.Success? ==> StateName(r.value) == Upper(raw)
    ensures r.Failure? ==> r.error == UnknownDeviceState(raw)
  {
    var u := Upper(raw);
    if u == "OPEN" then Success(Open)
    else if u == "CLOSED" then Success(Closed)
    else if u == "ON" then Success(On)
    else if u == "OFF" then Success(Off)
    else if u == "AT_VALUE" then Success(AtValue)
    else Failure(UnknownDeviceState(raw))
  }

  /** `_get_type`: accepted iff the upper-cased input is a type name, and
      then it is the upper-cased input. */
  function DecodeType(raw: string): (r: Result<DeviceType, ConfigError>)
    ensures r.Success? <==> Upper(raw) in TypeNames
    ensures r.Success? ==> TypeName(r.value) == Upper(raw)
    ensures r.Failure? ==> r.error == UnknownDeviceType(raw)
  {
    var u := Upper(raw);
    if u == "SHADE" then Success(Shade)
    else if u == "SWITCH" then Success(Switch)
    else Failure(UnknownDeviceType(raw))
  }

  // ---------------------------------------------------------------------
  // Device registry
  // ---------------------------------------------------------------------

  /** A Python dict from name to device: `order` is the insertion order of
      the keys, `byName` the current binding of each. */
  datatype Registry = Registry(order: seq<string>, byName: map<string, Device>) {

    ghost predicate Valid() {
      && (forall k, l :: 0 <= k < l < |order| ==> order[k] != order[l])
      && (forall n :: n in byName <==> n in order)
      && (forall n :: n in byName ==> byName[n].name == n)
    }
  }

  /** One raw device entry: its type is read (and decoded) first, then the
      optional tags, then its name. */
  function ParseDevice(raw: RawDevice): (r: Result<Device, ConfigError>)
    ensures raw.deviceType.None? ==> r == Failure(MissingKey("type"))
    ensures raw.deviceType.Some? && Upper(raw.deviceType.value) !in TypeNames
            ==> r == Failure(UnknownDeviceType(raw.deviceType.value))
    ensures raw.deviceType.Some? && Upper(raw.deviceType.value) in TypeNames && raw.name.None?
            ==> r == Failure(MissingKey("name"))
    ensures r.Success? <==> raw.deviceType.Some? && Upper(raw.deviceType.value) in TypeNames && raw.name.Some?
    ensures r.Success? ==> r.value.name == raw.name.value
    ensures r.Success? ==> TypeName(r.value.deviceType) == Upper(raw.deviceType.value)
    ensures r.Success? && raw.locationTags.Some? ==> r.value.tags == raw.locationTags.value
    ensures r.Success? && raw.locationTags.None? ==> r.value.tags == []
  {
    if raw.deviceType.None? then Failure(MissingKey("type"))
    else
      var t :- DecodeType(raw.deviceType.value);
      var tags := raw.locationTags.GetOr([]);
      if raw.name.None? then Failure(MissingKey("name"))
      else Success(Device(raw.name.value, t, tags))
  }

  /** The names of a device sequence, in order. */
  function Names(ds: seq<Device>): (r: seq<string>)
    ensures |r| == |ds|
    ensures forall i :: 0 <= i < |ds| ==> r[i] == ds[i].name
  {
    seq(|ds|, i requires 0 <= i < |ds| => ds[i].name)
  }

  /** `ds[i]` is the last device of `ds` carrying its name. */
  ghost predicate LastNamed(ds: seq<Device>, i: int) {
    0 <= i < |ds| && forall j :: i < j < |ds| ==> ds[j].name != ds[i].name
  }

  /** Position of the first occurrence of `x` in `s`. */
  function FirstIndex<T(==)>(s: seq<T>, x: T): (i: nat)
    requires x in s
    ensures i < |s| && s[i] == x
    ensures forall j :: 0 <= j < i ==> s[j] != x
  {
    if s[0] == x then 0 else 1 + FirstIndex(s[1..], x)
  }

  lemma FirstIndexSnoc<T>(s: seq<T>, y: T, x: T)
    requires x in s
    ensures x in s + [y] && FirstIndex(s + [y], x) == FirstIndex(s, x)
  {
    var i := FirstIndex(s, x);
    var k := FirstIndex(s + [y], x);
    assert (s + [y])[i] == x;
  }

  lemma FirstIndexNew<T>(s: seq<T>, y: T)
    requires y !in s
    ensures y in s + [y] && FirstIndex(s + [y], y) == |s|
  {
    assert (s + [y])[|s|] == y;
  }

  /** Assigning `d` under its name in a Python dict: the name is bound to `d`,
      every other binding is unchanged, and a name already present keeps its
      position while a new one goes last. */
  function Bind(reg: Registry, d: Device): (r: Registry)
    ensures reg.Valid() ==> r.Valid()
    ensures forall n :: n in r.byName <==> n in reg.byName || n == d.name
    ensures r.byName[d.name] == d
    ensures forall n :: n in reg.byName && n != d.name ==> r.byName[n] == reg.byName[n]
    ensures d.name in reg.byName ==> r.order == reg.order
    ensures d.name !in reg.byName ==> r.order == reg.order + [d.name]
  {
    Registry(if d.name in reg.byName then reg.order else reg.order + [d.name], reg.byName[d.name := d])
  }

  /** The keys are the names bound so far. */
  ghost predicate KeysAre(r: Registry, ds: seq<Device>) {
    forall n :: n in r.byName <==> n in Names(ds)
  }

  /** Every name is bound to its last definition. */
  ghost predicate LastDefinitionWins(r: Registry, ds: seq<Device>) {
    forall i :: LastNamed(ds, i) ==> ds[i].name in r.byName && r.byName[ds[i].name] == ds[i]
  }

  /** Keys are listed in order of first occurrence. */
  ghost predicate FirstOccurrenceOrder(r: Registry, ds: seq<Device>) {
    forall k, l :: 0 <= k < l < |r.order| ==>
      r.order[k] in Names(ds) && r.order[l] in Names(ds) &&
      FirstIndex(Names(ds), r.order[k]) < FirstIndex(Names(ds), r.order[l])
  }

  lemma NamesSnoc(ds: seq<Device>, d: Device)
    ensures Names(ds + [d]) == Names(ds) + [d.name]
  {
  }

  lemma BindKeepsKeys(prev: Registry, init: seq<Device>, d: Device)
    requires KeysAre(prev, init)
    ensures KeysAre(Bind(prev, d), init + [d])
  {
    NamesSnoc(init, d);
  }

  lemma BindKeepsLastDefinition(prev: Registry, init: seq<Device>, d: Device)
    requires LastDefinitionWins(prev, init)
    ensures LastDefinitionWins(Bind(prev, d), init + [d])
  {
    var ds := init + [d];
    var r := Bind(prev, d);
    forall i | LastNamed(ds, i)
      ensures ds[i].name in r.byName && r.byName[ds[i].name] == ds[i]
    {
      if i < |init| {
        assert ds[i] == init[i];
        forall j | i < j < |init| ensures init[j].name != init[i].name {
          assert ds[j] == init[j];
        }
        assert LastNamed(init, i);
        assert ds[|init|] == d;
      }
    }
  }

  lemma BindKeepsOrder(prev: Registry, init: seq<Device>, d: Device)
    requires prev.Valid() && KeysAre(prev, init) && FirstOccurrenceOrder(prev, init)
    ensures FirstOccurrenceOrder(Bind(prev, d), init + [d])
  {
    var ds := init + [d];
    var r := Bind(prev, d);
    var names := Names(init);
    NamesSnoc(init, d);
    forall k, l | 0 <= k < l < |r.order|
      ensures r.order[k] in Names(ds) && r.order[l] in Names(ds)
      ensures FirstIndex(Names(ds), r.order[k]) < FirstIndex(Names(ds), r.order[l])
    {
      assert r.order[k] == prev.order[k];
      FirstIndexSnoc(names, d.name, prev.order[k]);
      if l < |prev.order| {
        assert r.order[l] == prev.order[l];
        FirstIndexSnoc(names, d.name, prev.order[l]);
      } else {
        assert r.order[l] == d.name && d.name !in names;
        FirstIndexNew(names, d.name);
      }
    }
  }

  /** `r` is the registry the source's loop builds from `ds`. */
  ghost predicate Indexes(r: Registry, ds: seq<Device>) {
    r.Valid() && KeysAre(r, ds) && LastDefinitionWins(r, ds) && FirstOccurrenceOrder(r, ds)
  }

  lemma BindStep(prev: Registry, ds: seq<Device>)
    requires |ds| > 0 && Indexes(prev, ds[..|ds| - 1])
    ensures Indexes(Bind(prev, ds[|ds| - 1]), ds)
  {
    var init := ds[..|ds| - 1];
    var d := ds[|ds| - 1];
    assert ds == init + [d];
    BindKeepsKeys(prev, init, d);
    BindKeepsLastDefinition(prev, init, d);
    BindKeepsOrder(prev, init, d);
  }

  /** The loop of `_get_devices` over already parsed entries. */
  function Index(ds: seq<Device>): (r: Registry)
    ensures r.Valid()
    ensures Indexes(r, ds)
  {
    if ds == [] then Registry([], map[])
    else
      var prev := Index(ds[..|ds| - 1]);
      BindStep(prev, ds);
      Bind(prev, ds[|ds| - 1])
  }

  /** `_get_devices`: fails without a `devices` key; otherwise parses every
      entry, failing on the first bad one, and indexes the devices by name. */
  function GetDevices(config: RawConfig): (r: Result<Registry, ConfigError>)
    ensures config.devices.None? ==> r == Failure(MissingDevices)
    ensures config.devices.Some? ==>
              (r.Success? <==> forall i :: 0 <= i < |config.devices.value| ==> ParseDevice(config.devices.value[i]).Success?)
    ensures config.devices.Some? && r.Failure? ==>
              exists i :: FirstFailure(config.devices.value, ParseDevice, i) && r.error == ParseDevice(config.devices.value[i]).error
    ensures r.Success? ==> r.value.Valid()
  {
    if config.devices.None? then Failure(MissingDevices)
    else
      var ds :- MapUntilFailure(config.devices.value, ParseDevice);
      Success(Index(ds))
  }

  /** A successful registry is the index of the parsed entries. This only
      unfolds `GetDevices`; it names the parsed list for the lemmas below. */
  lemma GetDevicesIsIndex(config: RawConfig)
    requires config.devices.Some? && GetDevices(config).Success?
    ensures MapUntilFailure(config.devices.value, ParseDevice).Success?
    ensures GetDevices(config).value == Index(MapUntilFailure(config.devices.value, ParseDevice).value)
  {
  }

  /** A parsed device carries the name of its raw entry. */
  lemma ParsedNameAt(raws: seq<RawDevice>, i: int)
    requires MapUntilFailure(raws, ParseDevice).Success?
    requires 0 <= i < |raws|
    ensures raws[i].name == Some(Names(MapUntilFailure(raws, ParseDevice).value)[i])
  {
  }

  /** A name occurs among the parsed devices iff some raw entry carries it. */
  lemma ParsedNamesAreRawNames(raws: seq<RawDevice>, n: string)
    requires MapUntilFailure(raws, ParseDevice).Success?
    ensures n in Names(MapUntilFailure(raws, ParseDevice).value) <==>
              exists i :: 0 <= i < |raws| && raws[i].name == Some(n)
  {
    var names := Names(MapUntilFailure(raws, ParseDevice).value);
    if n in names {
      var i :| 0 <= i < |names| && names[i] == n;
      ParsedNameAt(raws, i);
    }
    if i :| 0 <= i < |raws| && raws[i].name == Some(n) {
      ParsedNameAt(raws, i);
      assert names[i] == n;
    }
  }

  /** The registry's keys are exactly the names of the raw entries. */
  lemma GetDevicesKeys(config: RawConfig, n: string)
    requires config.devices.Some? && GetDevices(config).Success?
    ensures n in GetDevices(config).value.byName <==>
              exists i :: 0 <= i < |config.devices.value| && config.devices.value[i].name == Some(n)
  {
    GetDevicesIsIndex(config);
    ParsedNamesAreRawNames(config.devices.value, n);
  }

  /** Last-definition-wins: a successful registry binds every name to the
      device parsed from the LAST raw entry carrying that name. */
  lemma GetDevicesLastWins(config: RawConfig, i: int)
    requires config.devices.Some? && GetDevices(config).Success?
    requires 0 <= i < |config.devices.value|
    requires forall j :: i < j < |config.devices.value| ==> config.devices.value[j].name != config.devices.value[i].name
    ensures config.devices.value[i].name.Some?
    ensures GetDevices(config).value.byName[config.devices.value[i].name.value] == ParseDevice(config.devices.value[i]).value
  {
    var raws := config.devices.value;
    var ds := MapUntilFailure(raws, ParseDevice).value;
    assert LastNamed(ds, i);
  }

  /** A successful registry lists its names in order of first occurrence in
      the raw device list: for keys k before l, the first entry named
      order[l] comes after some entry named order[k]. */
  lemma GetDevicesFirstOccurrenceOrder(config: RawConfig, k: int, l: int)
    requires config.devices.Some? && GetDevices(config).Success?
    requires 0 <= k < l < |GetDevices(config).value.order|
    ensures
      var raws := config.devices.value;
      var order := GetDevices(config).value.order;
      exists a, b :: 0 <= a < b < |raws| && raws[a].name == Some(order[k]) && raws[b].name == Some(order[l])
        && forall j :: 0 <= j < b ==> raws[j].name != Some(order[l])
  {
    var raws := config.devices.value;
    var ds := MapUntilFailure(raws, ParseDevice).value;
    var reg := Index(ds);
    var a := FirstIndex(Names(ds), reg.order[k]);
    var b := FirstIndex(Names(ds), reg.order[l]);
    assert raws[a].name == Some(reg.order[k]);
    assert raws[b].name == Some(reg.order[l]);
    forall j | 0 <= j < b ensures raws[j].name != Some(reg.order[l]) {
      assert Names(ds)[j] == raws[j].name.value;
    }
  }

  // ---------------------------------------------------------------------
  // Schedules
  // ---------------------------------------------------------------------

  /** The offset a raw `sunset`/`sunrise` entry declares; missing parts are 0. */
  function OffsetOf(raw: RawOffset, anchor: Anchor): (r: SunOffset)
    ensures r.anchor == anchor
    ensures raw.hours.Some? ==> r.hours == raw.hours.value
    ensures raw.hours.None? ==> r.hours == 0
    ensures raw.minutes.Some? ==> r.minutes == raw.minutes.value
    ensures raw.minutes.None? ==> r.minutes == 0
  {
    SunOffset(raw.hours.GetOr(0), raw.minutes.GetOr(0), anchor)
  }

  /** `_read_schedule`: copies `cron`; a `sunset` entry wins over a
      `sunrise` entry; with neither there is no offset. */
  function ReadSchedule(raw: RawSchedule): (r: Result<Schedule, ConfigError>)
    ensures r.Success? <==> raw.cron.Some?
    ensures r.Failure? ==> r.error == MissingKey("cron")
    ensures r.Success? ==> r.value.cron == raw.cron.value
    ensures r.Success? ==> (r.value.sunOffset.None? <==> raw.sunset.None? && raw.sunrise.None?)
    ensures r.Success? && raw.sunset.Some? ==> r.value.sunOffset == Some(OffsetOf(raw.sunset.value, Sunset))
    ensures r.Success? && raw.sunset.None? && raw.sunrise.Some? ==> r.value.sunOffset == Some(OffsetOf(raw.sunrise.value, Sunrise))
  {
    if raw.cron.None? then Failure(MissingKey("cron"))
    else
      var cron := raw.cron.value;
      if raw.sunset.Some? then Success(Schedule(cron, Some(OffsetOf(raw.sunset.value, Sunset))))
      else if raw.sunrise.Some? then Success(Schedule(cron, Some(OffsetOf(raw.sunrise.value, Sunrise))))
      else Success(Schedule(cron, None))
  }

  // ---------------------------------------------------------------------
  // Automations
  // ---------------------------------------------------------------------

  /** The uniform state decoded from `setting`: a string names a state (no
      value), an `int` proper is an `AtValue` percentage, and an absent or
      otherwise typed setting gives none. */
  function UniformState(setting: Option<RawSetting>): (r: Result<Option<DeviceState>, ConfigError>)
    ensures setting.None? || setting == Some(Other) ==> r == Success(None)
    ensures setting.Some? && setting.value.Int? ==> r == Success(Some(DeviceState(AtValue, Some(setting.value.i))))
    ensures setting.Some? && setting.value.Str? ==> (r.Success? <==> Upper(setting.value.s) in StateNames)
    ensures setting.Some? && setting.value.Str? && r.Success? ==>
              r.value.Some? && StateName(r.value.value.kind) == Upper(setting.value.s) && r.value.value.setValue.None?
    ensures r.Failure? ==> setting.Some? && setting.value.Str? && r.error == UnknownDeviceState(setting.value.s)
    ensures r.Success? && r.value.Some? && r.value.value.setValue.Some? ==> r.value.value.kind == AtValue
  {
    match setting
    case None => Success(None)
    case Some(Str(s)) =>
      var k :- DecodeState(s);
      Success(Some(DeviceState(k, None)))
    case Some(Int(i)) => Success(Some(DeviceState(AtValue, Some(i))))
    case Some(Other) => Success(None)
  }

  /** One `device_list` element: its name is read first, then (only when
      there is no uniform state) its `value`, then the registry lookup. */
  function ResolveEntry(e: RawListEntry, uniform: Option<DeviceState>, reg: Registry): (r: Result<DeviceWithState, ConfigError>)
    ensures e.name.None? ==> r == Failure(MissingKey("name"))
    ensures e.name.Some? && uniform.None? && e.value.None? ==> r == Failure(MissingKey("value"))
    ensures e.name.Some? && (uniform.Some? || e.value.Some?) && e.name.value !in reg.byName
            ==> r == Failure(UnknownDevice(e.name.value))
    ensures r.Success? <==> e.name.Some? && (uniform.Some? || e.value.Some?) && e.name.value in reg.byName
    ensures r.Success? ==> r.value.device == reg.byName[e.name.value]
    ensures r.Success? && uniform.Some? ==> r.value.state == uniform
    ensures r.Success? && uniform.None? ==> r.value.state == Some(DeviceState(AtValue, e.value))
  {
    if e.name.None? then Failure(MissingKey("name"))
    else if uniform.None? && e.value.None? then Failure(MissingKey("value"))
    else
      var state := if uniform.Some? then uniform.value else DeviceState(AtValue, e.value);
      if e.name.value !in reg.byName then Failure(UnknownDevice(e.name.value))
      else Success(DeviceWithState(reg.byName[e.name.value], Some(state)))
  }

  /** Explicit-list mode: one resolved entry per `device_list` element, in
      order, or the error of the first element that fails. */
  function ResolveList(entries: seq<RawListEntry>, uniform: Option<DeviceState>, reg: Registry): (r: Result<seq<DeviceWithState>, ConfigError>)
    ensures r.Success? <==> forall i :: 0 <= i < |entries| ==> ResolveEntry(entries[i], uniform, reg).Success?
    ensures r.Success? ==> |r.value| == |entries|
    ensures r.Success? ==> forall i :: 0 <= i < |entries| ==>
              && entries[i].name.value in reg.byName
              && r.value[i].device == reg.byName[entries[i].name.value]
              && r.value[i].state == Some(if uniform.Some? then uniform.value else DeviceState(AtValue, entries[i].value))
    ensures r.Failure? ==> exists i :: (0 <= i < |entries| && ResolveEntry(entries[i], uniform, reg) == Failure(r.error)
              && forall j :: 0 <= j < i ==> ResolveEntry(entries[j], uniform, reg).Success?)
  {
    var f := (e: RawListEntry) => ResolveEntry(e, uniform, reg);
    var r := MapUntilFailure(entries, f);
    assert forall i :: 0 <= i < |entries| ==> f(entries[i]) == ResolveEntry(entries[i], uniform, reg);
    r
  }

  /** The automation's tags that are also device tags, in the automation's order. */
  function SharedTags(tags: seq<string>, deviceTags: seq<string>): (r: seq<string>)
    ensures |r| <= |tags|
    ensures forall t :: t in r <==> t in tags && t in deviceTags
  {
    if tags == [] then []
    else
      var rest := SharedTags(tags[1..], deviceTags);
      assert forall t :: t in tags <==> t == tags[0] || t in tags[1..];
      if tags[0] in deviceTags then [tags[0]] + rest else rest
  }

  /** The tag-mode test: the comprehension of shared tags is non-empty. */
  predicate Matches(tags: seq<string>, d: Device) {
    |SharedTags(tags, d.tags)| > 0
  }

  /** The devices of a resolved device list, in order. */
  function DevicesOf(ws: seq<DeviceWithState>): (r: seq<Device>)
    ensures |r| == |ws|
    ensures forall k :: 0 <= k < |ws| ==> r[k] == ws[k].device
  {
    seq(|ws|, k requires 0 <= k < |ws| => ws[k].device)
  }

  /** `dev` is bound under one of `names`. */
  ghost predicate BoundIn(dev: Device, names: seq<string>, byName: map<string, Device>) {
    exists n :: n in names && n in byName && byName[n] == dev
  }

  lemma BoundInTail(dev: Device, names: seq<string>, byName: map<string, Device>)
    requires |names| > 0 && BoundIn(dev, names[1..], byName)
    ensures BoundIn(dev, names, byName)
  {
    var n :| n in names[1..] && n in byName && byName[n] == dev;
    assert n in names;
  }

  /** Every entry of `r` is a device bound under one of `names` that
      matches `tags`, with the uniform state. */
  ghost predicate SelectedSound(r: seq<DeviceWithState>, names: seq<string>, byName: map<string, Device>,
                                tags: seq<string>, uniform: Option<DeviceState>) {
    forall k :: 0 <= k < |r| ==> r[k].state == uniform && BoundIn(r[k].device, names, byName) && Matches(tags, r[k].device)
  }

  /** Every device bound under one of `names` that matches `tags` is in `r`. */
  ghost predicate SelectedComplete(r: seq<DeviceWithState>, names: seq<string>, byName: map<string, Device>, tags: seq<string>) {
    forall n :: n in names && n in byName && Matches(tags, byName[n]) ==> byName[n] in DevicesOf(r)
  }

  lemma SelectConsStep(names: seq<string>, byName: map<string, Device>, tags: seq<string>, uniform: Option<DeviceState>,
                       rest: seq<DeviceWithState>)
    requires |names| > 0
    requires SelectedSound(rest, names[1..], byName, tags, uniform)
    requires SelectedComplete(rest, names[1..], byName, tags)
    ensures names[0] in byName && Matches(tags, byName[names[0]]) ==>
              var r := [DeviceWithState(byName[names[0]], uniform)] + rest;
              SelectedSound(r, names, byName, tags, uniform) && SelectedComplete(r, names, byName, tags)
    ensures !(names[0] in byName && Matches(tags, byName[names[0]])) ==>
              SelectedSound(rest, names, byName, tags, uniform) && SelectedComplete(rest, names, byName, tags)
  {
    forall k | 0 <= k < |rest| ensures BoundIn(rest[k].device, names, byName) {
      BoundInTail(rest[k].device, names, byName);
    }
    forall n | n in names ensures n == names[0] || n in names[1..] {
      var i :| 0 <= i < |names| && names[i] == n;
      if i > 0 {
        assert names[1..][i - 1] == n;
      }
    }
    if names[0] in byName && Matches(tags, byName[names[0]]) {
      var d := byName[names[0]];
      var r := [DeviceWithState(d, uniform)] + rest;
      assert DevicesOf(r) == [d] + DevicesOf(rest);
      assert forall k :: 1 <= k < |r| ==> r[k] == rest[k - 1];
      assert BoundIn(d, names, byName) by {
        assert names[0] in names;
      }
    }
  }

  /** `a` is bound under an earlier position of `names` than `b`. */
  ghost predicate BoundBefore(a: Device, b: Device, names: seq<string>, byName: map<string, Device>) {
    exists i, j :: && 0 <= i < j < |names| && names[i] in byName && names[j] in byName
                   && byName[names[i]] == a && byName[names[j]] == b
  }

  /** The entries of `r` follow the positions of `names` they are bound under. */
  ghost predicate SelectedInOrder(r: seq<DeviceWithState>, names: seq<string>, byName: map<string, Device>) {
    forall k, l :: 0 <= k < l < |r| ==> BoundBefore(r[k].device, r[l].device, names, byName)
  }

  lemma BoundBeforeTail(a: Device, b: Device, names: seq<string>, byName: map<string, Device>)
    requires |names| > 0 && BoundBefore(a, b, names[1..], byName)
    ensures BoundBefore(a, b, names, byName)
  {
    var i, j :| && 0 <= i < j < |names[1..]| && names[1..][i] in byName && names[1..][j] in byName
                && byName[names[1..][i]] == a && byName[names[1..][j]] == b;
    assert names[i + 1] == names[1..][i] && names[j + 1] == names[1..][j];
  }

  lemma BoundBeforeHead(b: Device, names: seq<string>, byName: map<string, Device>)
    requires |names| > 0 && names[0] in byName && BoundIn(b, names[1..], byName)
    ensures BoundBefore(byName[names[0]], b, names, byName)
  {
    var n :| n in names[1..] && n in byName && byName[n] == b;
    var j :| 0 <= j < |names[1..]| && names[1..][j] == n;
    assert names[j + 1] == n;
  }

  /** Selecting or skipping the head name keeps the selection in walk order. */
  lemma SelectOrderStep(names: seq<string>, byName: map<string, Device>, tags: seq<string>, uniform: Option<DeviceState>,
                        rest: seq<DeviceWithState>)
    requires |names| > 0
    requires SelectedSound(rest, names[1..], byName, tags, uniform)
    requires SelectedInOrder(rest, names[1..], byName)
    ensures SelectedInOrder(rest, names, byName)
    ensures names[0] in byName ==> SelectedInOrder([DeviceWithState(byName[names[0]], uniform)] + rest, names, byName)
  {
    forall k, l | 0 <= k < l < |rest| ensures BoundBefore(rest[k].device, rest[l].device, names, byName) {
      BoundBeforeTail(rest[k].device, rest[l].device, names, byName);
    }
    if names[0] in byName {
      var r := [DeviceWithState(byName[names[0]], uniform)] + rest;
      forall k, l | 0 <= k < l < |r| ensures BoundBefore(r[k].device, r[l].device, names, byName) {
        assert r[l] == rest[l - 1];
        if k == 0 {
          BoundBeforeHead(rest[l - 1].device, names, byName);
        } else {
          assert r[k] == rest[k - 1];
        }
      }
    }
  }

  /** Tag mode over the names `names`, in that order; a name without a
      binding (which an indexed registry never has) is passed over. */
  function SelectFrom(names: seq<string>, byName: map<string, Device>, tags: seq<string>, uniform: Option<DeviceState>): (r: seq<DeviceWithState>)
    ensures |r| <= |names|
    ensures SelectedSound(r, names, byName, tags, uniform)
    ensures SelectedComplete(r, names, byName, tags)
    ensures SelectedInOrder(r, names, byName)
  {
    if names == [] then []
    else
      var rest := SelectFrom(names[1..], byName, tags, uniform);
      SelectConsStep(names, byName, tags, uniform, rest);
      SelectOrderStep(names, byName, tags, uniform, rest);
      if names[0] in byName && Matches(tags, byName[names[0]]) then
        [DeviceWithState(byName[names[0]], uniform)] + rest
      else rest
  }

  /** Tag mode: the registered devices sharing a tag with `tags`, in
      registry order, all given the uniform state (which may be absent). */
  function SelectByTags(reg: Registry, tags: seq<string>, uniform: Option<DeviceState>): (r: seq<DeviceWithState>)
    ensures forall k :: 0 <= k < |r| ==> r[k].state == uniform && Matches(tags, r[k].device)
    ensures reg.Valid() ==> forall k :: 0 <= k < |r| ==>
              r[k].device.name in reg.byName && reg.byName[r[k].device.name] == r[k].device
    ensures reg.Valid() ==> forall n :: n in reg.byName ==> (reg.byName[n] in DevicesOf(r) <==> Matches(tags, reg.byName[n]))
    ensures reg.Valid() ==> forall k, l :: 0 <= k < l < |r| ==> KeyBefore(reg.order, r[k].device.name, r[l].device.name)
  {
    var r := SelectFrom(reg.order, reg.byName, tags, uniform);
    RegistryOrderOfSelection(reg, r);
    r
  }

  /** Key `a` comes strictly before key `b` in the key order `order`. */
  ghost predicate KeyBefore(order: seq<string>, a: string, b: string) {
    a in order && b in order && FirstIndex(order, a) < FirstIndex(order, b)
  }

  /** On a valid registry, devices bound at positions i < j come in that
      key order. */
  lemma BoundBeforeIsKeyBefore(reg: Registry, a: Device, b: Device)
    requires reg.Valid()
    requires BoundBefore(a, b, reg.order, reg.byName)
    ensures KeyBefore(reg.order, a.name, b.name)
  {
    var i, j :| && 0 <= i < j < |reg.order| && reg.order[i] in reg.byName && reg.order[j] in reg.byName
                && reg.byName[reg.order[i]] == a && reg.byName[reg.order[j]] == b;
    assert a.name == reg.order[i] && b.name == reg.order[j];
    assert FirstIndex(reg.order, reg.order[i]) == i;
    assert FirstIndex(reg.order, reg.order[j]) == j;
  }

  /** On a valid registry, a selection in walk order lists each device once,
      strictly in the registry's key order. */
  lemma RegistryOrderOfSelection(reg: Registry, r: seq<DeviceWithState>)
    requires SelectedInOrder(r, reg.order, reg.byName)
    ensures reg.Valid() ==> forall k, l :: 0 <= k < l < |r| ==> KeyBefore(reg.order, r[k].device.name, r[l].device.name)
  {
    if reg.Valid() {
      forall k, l | 0 <= k < l < |r| ensures KeyBefore(reg.order, r[k].device.name, r[l].device.name) {
        BoundBeforeIsKeyBefore(reg, r[k].device, r[l].device);
      }
    }
  }

  /** The uniform setting decodes and the device selection resolves. */
  predicate SelectionSucceeds(raw: RawAutomation, reg: Registry)
    requires raw.devices.Some?
  {
    && UniformState(raw.setting).Success?
    && var selector := raw.devices.value;
       if selector.deviceList.Some? then ResolveList(selector.deviceList.value, UniformState(raw.setting).value, reg).Success?
       else selector.tags.Some?
  }

  /** `_get_automations`, one entry: name, then `devices`, then the uniform
      setting, then the device selection (an explicit list wins over tags),
      then the schedule. */
  function ResolveAutomation(raw: RawAutomation, reg: Registry): (r: Result<Automation, ConfigError>)
    ensures raw.name.None? ==> r == Failure(MissingKey("name"))
    ensures raw.name.Some? && raw.devices.None? ==> r == Failure(MissingKey("devices"))
    ensures raw.name.Some? && raw.devices.Some? && UniformState(raw.setting).Failure? ==> r == Failure(UniformState(raw.setting).error)
    ensures raw.name.Some? && raw.devices.Some? && UniformState(raw.setting).Success?
            && raw.devices.value.deviceList.None? && raw.devices.value.tags.None?
            ==> r == Failure(UnknownSelector)
    ensures raw.name.Some? && raw.devices.Some? && UniformState(raw.setting).Success?
            && raw.devices.value.deviceList.Some?
            && ResolveList(raw.devices.value.deviceList.value, UniformState(raw.setting).value, reg).Failure?
            ==> r == Failure(ResolveList(raw.devices.value.deviceList.value, UniformState(raw.setting).value, reg).error)
    ensures raw.name.Some? && raw.devices.Some? && SelectionSucceeds(raw, reg) && raw.schedule.None?
            ==> r == Failure(MissingKey("schedule"))
    ensures raw.name.Some? && raw.devices.Some? && SelectionSucceeds(raw, reg)
            && raw.schedule.Some? && raw.schedule.value.cron.None?
            ==> r == Failure(MissingKey("cron"))
    ensures r.Success? <==> && raw.name.Some? && raw.devices.Some? && SelectionSucceeds(raw, reg)
                            && raw.schedule.Some? && raw.schedule.value.cron.Some?
    ensures r.Success? ==> raw.name.Some? && r.value.name == raw.name.value
    ensures r.Success? ==> raw.schedule.Some? && ReadSchedule(raw.schedule.value) == Success(r.value.schedule)
    ensures r.Success? ==> raw.devices.Some? && UniformState(raw.setting).Success?
    ensures r.Success? && raw.devices.value.deviceList.Some? ==>
              ResolveList(raw.devices.value.deviceList.value, UniformState(raw.setting).value, reg) == Success(r.value.deviceList)
    ensures r.Success? && raw.devices.value.deviceList.None? ==>
              raw.devices.value.tags.Some? &&
              r.value.deviceList == SelectByTags(reg, raw.devices.value.tags.value, UniformState(raw.setting).value)
  {
    if raw.name.None? then Failure(MissingKey("name"))
    else if raw.devices.None? then Failure(MissingKey("devices"))
    else
      var selector := raw.devices.value;
      var uniform :- UniformState(raw.setting);
      var devices :-
        if selector.deviceList.Some? then ResolveList(selector.deviceList.value, uniform, reg)
        else if selector.tags.Some? then Success(SelectByTags(reg, selector.tags.value, uniform))
        else Failure(UnknownSelector);
      if raw.schedule.None? then Failure(MissingKey("schedule"))
      else
        var schedule :- ReadSchedule(raw.schedule.value);
        Success(Automation(raw.name.value, devices, schedule))
  }

  /** `_get_automations`: fails without an `automations` key; otherwise one
      automation per raw entry, in order, or the first entry's error. */
  function GetAutomations(config: RawConfig, reg: Registry): (r: Result<seq<Automation>, ConfigError>)
    ensures config.automations.None? ==> r == Failure(MissingAutomations)
    ensures config.automations.Some? ==>
              (r.Success? <==> forall i :: 0 <= i < |config.automations.value| ==> ResolveAutomation(config.automations.value[i], reg).Success?)
    ensures r.Success? ==> |r.value| == |config.automations.value|
    ensures r.Success? ==> forall i :: 0 <= i < |r.value| ==>
              Success(r.value[i]) == ResolveAutomation(config.automations.value[i], reg)
    ensures r.Success? ==> forall i :: 0 <= i < |r.value| ==>
              Some(r.value[i].name) == config.automations.value[i].name
    ensures r.Success? ==> forall i :: 0 <= i < |r.value| ==>
              config.automations.value[i].schedule.Some? &&
              ReadSchedule(config.automations.value[i].schedule.value) == Success(r.value[i].schedule)
    ensures config.automations.Some? && r.Failure? ==>
              exists i :: (&& 0 <= i < |config.automations.value|
                           && ResolveAutomation(config.automations.value[i], reg) == Failure(r.error)
                           && forall j :: 0 <= j < i ==> ResolveAutomation(config.automations.value[j], reg).Success?)
  {
    if config.automations.None? then Failure(MissingAutomations)
    else
      var raws := config.automations.value;
      var f := (a: RawAutomation) => ResolveAutomation(a, reg);
      var r := MapUntilFailure(raws, f);
      assert forall i :: 0 <= i < |raws| ==> f(raws[i]) == ResolveAutomation(raws[i], reg);
      r
  }

  /** `get_automations` without the file and YAML reading: the registry is
      built first, so a device error wins over any automation error; a
      missing `automations` key is only noticed once every device parses. */
  function LoadAutomations(config: RawConfig): (r: Result<seq<Automation>, ConfigError>)
    ensures config.devices.None? ==> r == Failure(MissingDevices)
    ensures config.devices.Some? && !(forall i :: 0 <= i < |config.devices.value| ==> ParseDevice(config.devices.value[i]).Success?)
            ==> r.Failure? && exists i :: FirstFailure(config.devices.value, ParseDevice, i) && r.error == ParseDevice(config.devices.value[i]).error
    ensures config.devices.Some? && config.automations.None? &&
            (forall i :: 0 <= i < |config.devices.value| ==> ParseDevice(config.devices.value[i]).Success?)
            ==> r == Failure(MissingAutomations)
    ensures r.Success? ==> config.devices.Some? && forall i :: 0 <= i < |config.devices.value| ==> ParseDevice(config.devices.value[i]).Success?
    ensures r.Success? ==> config.automations.Some? && |r.value| == |config.automations.value|
    ensures r.Success? ==> forall i :: 0 <= i < |r.value| ==> Some(r.value[i].name) == config.automations.value[i].name
    ensures r.Success? ==> forall i :: 0 <= i < |r.value| ==>
              config.automations.value[i].schedule.Some? &&
              ReadSchedule(config.automations.value[i].schedule.value) == Success(r.value[i].schedule)
    ensures config.automations.Some? && GetDevices(config).Success? ==>
              (r.Success? <==> forall i :: 0 <= i < |config.automations.value| ==>
                                 ResolveAutomation(config.automations.value[i], GetDevices(config).value).Success?)
    ensures r.Success? ==> forall i :: 0 <= i < |r.value| ==>
              Success(r.value[i]) == ResolveAutomation(config.automations.value[i], GetDevices(config).value)
    ensures config.automations.Some? && GetDevices(config).Success? && r.Failure? ==>
              exists i :: (&& 0 <= i < |config.automations.value|
                           && ResolveAutomation(config.automations.value[i], GetDevices(config).value) == Failure(r.error)
                           && forall j :: 0 <= j < i ==> ResolveAutomation(config.automations.value[j], GetDevices(config).value).Success?)
  {
    var reg :- GetDevices(config);
    GetAutomations(config, reg)
  }

  /** Every device of a resolved automation is the registered device of its
      name, in list mode and in tag mode alike. */
  lemma ResolvedDeviceIsRegistered(raw: RawAutomation, reg: Registry, k: int)
    requires reg.Valid()
    requires ResolveAutomation(raw, reg).Success?
    requires 0 <= k < |ResolveAutomation(raw, reg).value.deviceList|
    ensures var dev := ResolveAutomation(raw, reg).value.deviceList[k].device;
            dev.name in reg.byName && reg.byName[dev.name] == dev
  {
    var uniform := UniformState(raw.setting).value;
    if raw.devices.value.deviceList.Some? {
      var entries := raw.devices.value.deviceList.value;
      assert ResolveEntry(entries[k], uniform, reg).Success?;
    }
  }

  /** `j` is the last raw device entry carrying its name. */
  ghost predicate LastRawNamed(raws: seq<RawDevice>, j: int) {
    0 <= j < |raws| && forall l :: j < l < |raws| ==> raws[l].name != raws[j].name
  }

  /** The last raw entry with the same name as entry `i`. */
  lemma LastRawWithName(raws: seq<RawDevice>, i: int) returns (j: int)
    requires 0 <= i < |raws|
    ensures i <= j && LastRawNamed(raws, j) && raws[j].name == raws[i].name
  {
    j := |raws| - 1;
    while raws[j].name != raws[i].name
      invariant i <= j < |raws|
      invariant forall l :: j < l < |raws| ==> raws[l].name != raws[i].name
      decreases j
    {
      j := j - 1;
    }
  }

  /** End to end: every device of every loaded automation is the device
      parsed from the LAST raw device entry with its name. */
  lemma LoadedDeviceIsLastDefinition(config: RawConfig, i: int, k: int)
    requires LoadAutomations(config).Success?
    requires 0 <= i < |LoadAutomations(config).value|
    requires 0 <= k < |LoadAutomations(config).value[i].deviceList|
    ensures config.devices.Some?
    ensures var dev := LoadAutomations(config).value[i].deviceList[k].device;
            exists j :: LastRawNamed(config.devices.value, j) && config.devices.value[j].name == Some(dev.name)
                        && ParseDevice(config.devices.value[j]) == Success(dev)
  {
    var raws := config.devices.value;
    var reg := GetDevices(config).value;
    var raw := config.automations.value[i];
    assert ResolveAutomation(raw, reg) == Success(LoadAutomations(config).value[i]);
    ResolvedDeviceIsRegistered(raw, reg, k);
    var dev := LoadAutomations(config).value[i].deviceList[k].device;
    GetDevicesKeys(config, dev.name);
    var i0 :| 0 <= i0 < |raws| && raws[i0].name == Some(dev.name);
    var j := LastRawWithName(raws, i0);
    GetDevicesLastWins(config, j);
  }
}
