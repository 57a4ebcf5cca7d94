/** Properties of the configuration resolver that relate several calls:
    case-insensitive decoding, tie-breaks, selection order, and concrete
    configurations showing what the resolver accepts. */
module AutomationProperties {
  import opened Wrappers
  import opened Text
  import opened Automations

  // ---------------------------------------------------------------------
  // Enumerations
  // ---------------------------------------------------------------------

  /** Decoding a state name gives the state back. */
  lemma DecodeStateRoundTrip(k: StateKind)
    ensures DecodeState(StateName(k)) == Success(k)
  {
    assert IsUpperForm(StateName(k));
  }

  /** Decoding a type name gives the type back. */
  lemma DecodeTypeRoundTrip(t: DeviceType)
    ensures DecodeType(TypeName(t)) == Success(t)
  {
    assert IsUpperForm(TypeName(t));
  }

  /** State decoding only sees the upper-cased input. */
  lemma DecodeStateCaseInsensitive(s: string)
    ensures DecodeState(Upper(s)).Success? <==> DecodeState(s).Success?
    ensures DecodeState(s).Success? ==> DecodeState(Upper(s)).value == DecodeState(s).value
  {
    UpperIdempotent(s);
  }

  /** Type decoding only sees the upper-cased input. */
  lemma DecodeTypeCaseInsensitive(s: string)
    ensures DecodeType(Upper(s)).Success? <==> DecodeType(s).Success?
    ensures DecodeType(s).Success? ==> DecodeType(Upper(s)).value == DecodeType(s).value
  {
    UpperIdempotent(s);
  }

  /** Python upper-cases the ligature "ﬀ" to "FF", so "oﬀ" names OFF. */
  lemma LigatureNamesOff()
    ensures DecodeState("o\U{FB00}") == Success(Off)
  {
    assert Upper("o\U{FB00}") == UpperChar('o') + Upper("o\U{FB00}"[1..]);
    assert "o\U{FB00}"[1..] == "\U{FB00}";
    assert Upper("\U{FB00}") == UpperChar('\U{FB00}') + Upper([]);
  }

  // ---------------------------------------------------------------------
  // Schedules
  // ---------------------------------------------------------------------

  /** When `sunset` is present, `sunrise` has no effect at all. */
  lemma SunsetWinsTie(raw: RawSchedule, sunrise: Option<RawOffset>)
    requires raw.sunset.Some?
    ensures ReadSchedule(raw.(sunrise := sunrise)) == ReadSchedule(raw)
    ensures ReadSchedule(raw).Success? ==> ReadSchedule(raw).value.sunOffset.value.anchor == Sunset
  {
  }

  // ---------------------------------------------------------------------
  // Device selection
  // ---------------------------------------------------------------------

  /** The tag test is set intersection: some tag of the automation is a tag
      of the device. */
  lemma MatchesIffSharedTag(tags: seq<string>, d: Device)
    ensures Matches(tags, d) <==> exists t :: t in tags && t in d.tags
  {
    var shared := SharedTags(tags, d.tags);
    if |shared| > 0 {
      assert shared[0] in shared;
    }
  }

  /** An empty tag list on either side selects nothing. */
  lemma EmptyTagsMatchNothing(tags: seq<string>, d: Device)
    requires tags == [] || d.tags == []
    ensures !Matches(tags, d)
  {
    MatchesIffSharedTag(tags, d);
  }

  /** Tag selection distributes over the registry order, so the selected
      devices appear in registry order. */
  lemma {:induction false} SelectFromAppend(a: seq<string>, b: seq<string>, byName: map<string, Device>,
                                            tags: seq<string>, uniform: Option<DeviceState>)
    ensures SelectFrom(a + b, byName, tags, uniform) == SelectFrom(a, byName, tags, uniform) + SelectFrom(b, byName, tags, uniform)
  {
    if a == [] {
      assert a + b == b;
    } else {
      assert (a + b)[0] == a[0];
      assert (a + b)[1..] == a[1..] + b;
      SelectFromAppend(a[1..], b, byName, tags, uniform);
    }
  }

  /** An explicit `device_list` takes priority: `tags` then has no effect. */
  lemma ListWinsOverTags(raw: RawAutomation, tags: Option<seq<string>>, reg: Registry)
    requires raw.devices.Some? && raw.devices.value.deviceList.Some?
    ensures ResolveAutomation(raw.(devices := Some(raw.devices.value.(tags := tags))), reg) == ResolveAutomation(raw, reg)
  {
  }

  /** Without a string setting, every device of an explicit list is driven
      to AT_VALUE and carries a value: the int setting, or its own value. */
  lemma ListModeCarriesValues(setting: Option<RawSetting>, entries: seq<RawListEntry>, reg: Registry)
    requires UniformState(setting).Success?
    requires !(setting.Some? && setting.value.Str?)
    requires ResolveList(entries, UniformState(setting).value, reg).Success?
    ensures forall k :: 0 <= k < |entries| ==>
              var ws := ResolveList(entries, UniformState(setting).value, reg).value[k];
              ws.state.Some? && ws.state.value.kind == AtValue && ws.state.value.setValue.Some?
  {
    var uniform := UniformState(setting).value;
    forall k | 0 <= k < |entries|
      ensures var ws := ResolveList(entries, uniform, reg).value[k];
              ws.state.Some? && ws.state.value.kind == AtValue && ws.state.value.setValue.Some?
    {
      assert ResolveEntry(entries[k], uniform, reg).Success?;
    }
  }

  // ---------------------------------------------------------------------
  // Concrete configurations
  // ---------------------------------------------------------------------

  /** Names already in upper form decode to themselves. */
  lemma UpperNamesDecode()
    ensures DecodeType("SHADE") == Success(Shade)
    ensures DecodeType("SWITCH") == Success(Switch)
    ensures DecodeState("AT_VALUE") == Success(AtValue)
  {
    DecodeTypeRoundTrip(Shade);
    DecodeTypeRoundTrip(Switch);
    DecodeStateRoundTrip(AtValue);
  }

  /** Lower case is accepted: "on" names ON. */
  lemma LowerCaseOnDecodes()
    ensures DecodeState("on") == Success(On)
  {
    assert Upper("on") == UpperChar('o') + Upper("on"[1..]);
    assert "on"[1..] == "n";
    assert Upper("n") == UpperChar('n') + Upper([]);
  }

  /** A registry of one device. */
  lemma IndexSingle(d: Device)
    ensures Index([d]) == Registry([d.name], map[d.name := d])
  {
    assert [d][..0] == [];
  }

  /** Tag selection over a one-device registry. */
  lemma SelectSingle(d: Device, tags: seq<string>, uniform: Option<DeviceState>)
    requires exists t :: t in tags && t in d.tags
    ensures SelectByTags(Registry([d.name], map[d.name := d]), tags, uniform) == [DeviceWithState(d, uniform)]
  {
    MatchesIffSharedTag(tags, d);
    assert [d.name][1..] == [];
  }

  /** A device list whose every entry parses yields the index of the
      parsed devices. */
  lemma GetDevicesParsed(raws: seq<RawDevice>, ds: seq<Device>, automations: Option<seq<RawAutomation>>)
    requires |raws| == |ds|
    requires forall i :: 0 <= i < |raws| ==> ParseDevice(raws[i]) == Success(ds[i])
    ensures GetDevices(RawConfig(Some(raws), automations)) == Success(Index(ds))
  {
    MapAllSucceed(raws, ParseDevice, ds);
  }

  /** Two entries that both parse yield the index of the two devices. */
  lemma GetDevicesPair(r1: RawDevice, r2: RawDevice, d1: Device, d2: Device, automations: Option<seq<RawAutomation>>)
    requires ParseDevice(r1) == Success(d1) && ParseDevice(r2) == Success(d2)
    ensures GetDevices(RawConfig(Some([r1, r2]), automations)) == Success(Index([d1, d2]))
  {
    GetDevicesParsed([r1, r2], [d1, d2], automations);
  }

  /** Automations that all resolve yield exactly their resolutions, in order. */
  lemma GetAutomationsResolved(config: RawConfig, reg: Registry, resolved: seq<Automation>)
    requires config.automations.Some? && |config.automations.value| == |resolved|
    requires forall i :: 0 <= i < |resolved| ==> ResolveAutomation(config.automations.value[i], reg) == Success(resolved[i])
    ensures GetAutomations(config, reg) == Success(resolved)
  {
    assert GetAutomations(config, reg).value == resolved;
  }

  /** A configuration of one device entry and one automation entry, both
      accepted, loads to that one automation. */
  lemma LoadSingle(shade: RawDevice, automation: RawAutomation, device: Device, resolved: Automation)
    requires ParseDevice(shade) == Success(device)
    requires ResolveAutomation(automation, Registry([device.name], map[device.name := device])) == Success(resolved)
    ensures LoadAutomations(RawConfig(Some([shade]), Some([automation]))) == Success([resolved])
  {
    var config := RawConfig(Some([shade]), Some([automation]));
    var reg := Registry([device.name], map[device.name := device]);
    GetDevicesParsed([shade], [device], Some([automation]));
    IndexSingle(device);
    GetAutomationsResolved(config, reg, [resolved]);
  }

  /** Parsing entries whose type is written in upper case. */
  lemma UpperTypedEntriesParse()
    ensures ParseDevice(RawDevice(Some("Dining"), Some("SHADE"), Some(["dining"]))) == Success(Device("Dining", Shade, ["dining"]))
    ensures ParseDevice(RawDevice(Some("Hall"), Some("SHADE"), None)) == Success(Device("Hall", Shade, []))
    ensures ParseDevice(RawDevice(Some("Hall"), Some("SWITCH"), Some(["hall"]))) == Success(Device("Hall", Switch, ["hall"]))
  {
    UpperNamesDecode();
  }

  /** The dining automation resolved against the one-shade registry. */
  lemma DiningAutomation()
    ensures
      var device := Device("Dining", Shade, ["dining"]);
      var automation := RawAutomation(Some("Morning"), Some(Int(66)), Some(RawSelector(None, Some(["dining"]))),
                                      Some(RawSchedule(Some("0 8 * * *"), None, None)));
      ResolveAutomation(automation, Registry(["Dining"], map["Dining" := device])) ==
        Success(Automation("Morning", [DeviceWithState(device, Some(DeviceState(AtValue, Some(66))))], Schedule("0 8 * * *", None)))
  {
    var device := Device("Dining", Shade, ["dining"]);
    var state := Some(DeviceState(AtValue, Some(66)));
    assert "dining" in ["dining"] && "dining" in device.tags;
    SelectSingle(device, ["dining"], state);
  }

  /** One shade tagged "dining", one automation over the tag with setting
      66: a single automation driving that shade to AT_VALUE 66. */
  lemma DiningRoomScenario()
    ensures
      var shade := RawDevice(Some("Dining"), Some("SHADE"), Some(["dining"]));
      var automation := RawAutomation(Some("Morning"), Some(Int(66)), Some(RawSelector(None, Some(["dining"]))),
                                      Some(RawSchedule(Some("0 8 * * *"), None, None)));
      var config := RawConfig(Some([shade]), Some([automation]));
      LoadAutomations(config) == Success([Automation("Morning",
        [DeviceWithState(Device("Dining", Shade, ["dining"]), Some(DeviceState(AtValue, Some(66))))],
        Schedule("0 8 * * *", None))])
  {
    var device := Device("Dining", Shade, ["dining"]);
    var automation := RawAutomation(Some("Morning"), Some(Int(66)), Some(RawSelector(None, Some(["dining"]))),
                                    Some(RawSchedule(Some("0 8 * * *"), None, None)));
    UpperTypedEntriesParse();
    DiningAutomation();
    LoadSingle(RawDevice(Some("Dining"), Some("SHADE"), Some(["dining"])), automation, device,
               Automation("Morning", [DeviceWithState(device, Some(DeviceState(AtValue, Some(66))))], Schedule("0 8 * * *", None)));
  }

  /** The string setting "AT_VALUE" is accepted and yields AT_VALUE with no
      value at all. */
  lemma AtValueStringCarriesNoValue()
    ensures UniformState(Some(Str("AT_VALUE"))) == Success(Some(DeviceState(AtValue, None)))
  {
    UpperNamesDecode();
  }

  /** Tag mode without a setting is accepted and leaves every selected
      device without a state. */
  lemma TagModeWithoutSettingLeavesNoState(raw: RawAutomation, reg: Registry)
    requires raw.setting.None? || raw.setting == Some(Other)
    requires raw.devices.Some? && raw.devices.value.deviceList.None?
    requires ResolveAutomation(raw, reg).Success?
    ensures forall k :: 0 <= k < |ResolveAutomation(raw, reg).value.deviceList| ==>
              ResolveAutomation(raw, reg).value.deviceList[k].state.None?
  {
  }

  /** A second device with the same name replaces the first in place. */
  lemma IndexSameNameTwice(d1: Device, d2: Device)
    requires d1.name == d2.name
    ensures Index([d1, d2]) == Registry([d1.name], map[d1.name := d2])
  {
    IndexSingle(d1);
    assert [d1, d2][..1] == [d1];
  }

  /** Two entries with the same name are accepted: the registry keeps one
      key, bound to the second definition. */
  lemma DuplicateDeviceNameAccepted()
    ensures
      var first := RawDevice(Some("Hall"), Some("SHADE"), None);
      var second := RawDevice(Some("Hall"), Some("SWITCH"), Some(["hall"]));
      GetDevices(RawConfig(Some([first, second]), None)) ==
        Success(Registry(["Hall"], map["Hall" := Device("Hall", Switch, ["hall"])]))
  {
    var first := RawDevice(Some("Hall"), Some("SHADE"), None);
    var second := RawDevice(Some("Hall"), Some("SWITCH"), Some(["hall"]));
    var d1 := Device("Hall", Shade, []);
    var d2 := Device("Hall", Switch, ["hall"]);
    UpperTypedEntriesParse();
    GetDevicesPair(first, second, d1, d2, None);
    IndexSameNameTwice(d1, d2);
  }
}
