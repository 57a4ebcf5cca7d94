# simple_home configuration resolver and shade command selection, in Dafny

This project models the core of a small home-automation system. Declarative
*automations* drive shades and switches to target states on a schedule.
The model covers two parts:

- **The configuration resolver** (`automations.py`). It takes the parsed
  configuration mapping and builds a device registry (name → device, with
  type and location tags). It then turns every raw automation into an
  `Automation` record: a name, a list of (device, target state) pairs and a
  schedule (a cron string plus an optional sunrise/sunset offset). Devices
  are selected either by an explicit `device_list` or by tag intersection.
  An optional uniform `setting` applies to every selected device.
- **Shade lookup and command selection** (`temporal_workflow.py`, lines
  27-32 and the list built at line 55). `get_shades` maps the bridge's
  enumerated devices from name to device id and computes the requested
  names it did not find. `set_shade_levels` builds one set-value command
  per requested (name, value) whose name was found. The model treats
  logging as a no-op and states what these lines compute as evidently
  intended; as written, the surrounding code never gets that far (see
  "## Left out").

Files:

- `wrappers.dfy` (module `Wrappers`): `Option`, `Result`, and
  `MapUntilFailure`. That function is a loop whose body may raise: it
  returns either every result in order or the first error.
- `text.dfy` (module `Text`): Python's `str.upper()`, as far as it decides
  whether a string upper-cases to one of the accepted ASCII names.
- `automations.dfy` (module `Automations`): raw configuration datatypes, the
  resolved records, and the resolver functions with their contracts.
- `automation_properties.dfy` (module `AutomationProperties`): lemmas that
  relate several calls. They cover case-insensitivity, tie-breaks, selection
  order, and concrete configurations.
- `shade_commands.dfy` (module `ShadeCommands`): `get_shades` and the
  command list of `set_shade_levels`.

Modelling choices:

- A key the source reads with `d[key]` is an `Option` in the raw datatypes.
  A missing key gives `MissingKey(key)`, the source's `KeyError`. Errors
  appear in the order the source evaluates its expressions. For example, a
  device entry's `type` is read before its `name`, and a list entry's
  `value` is read only when there is no uniform setting.
- The source keeps decoded enumerations as upper-cased strings. The model
  decodes them to datatypes. `StateName`/`TypeName` give back the string,
  and the contracts say that this string equals the upper-cased input.
- The registry is a Python dict: `order` holds the key insertion order and
  `byName` the bindings. A repeated device name keeps the position of its
  first occurrence and takes its last definition. Tag mode walks the
  registry in that order.
- `setting` is `Str | Int | Other`. The source tests `type(x) == int`
  strictly, so a bool or a float is `Other` and gives no uniform state.

Behaviour of the code worth knowing, with the members that state it:

- No duplicate-name check: a second device entry with a name already seen
  replaces the first under the same key (automations.py:74,
  `DuplicateDeviceNameAccepted`). Automations are not checked for
  duplicate names either (automations.py:95-122).
- Tag mode without a setting leaves the state of every selected device
  `None` (automations.py:99-100, 113, `TagModeWithoutSettingLeavesNoState`).
- The string setting `"at_value"`, in any case, gives AT_VALUE with
  `set_value` `None` (automations.py:102, `AtValueStringCarriesNoValue`).
  A value travels only with AT_VALUE (automations.py:102-104,
  `UniformState`). With an int setting or per-device values, every list
  entry carries a value (automations.py:104, 109, `ListModeCarriesValues`).
- A setting that is neither a string nor an int proper (a float, a bool) is
  ignored: `overall_value` stays `None` (automations.py:99-104, `UniformState`).

## Model

| member | source | states |
|---|---|---|
| `Automations.DecodeState` | automations.py:21-24 | succeeds iff the upper-cased input is one of OPEN, CLOSED, ON, OFF, AT_VALUE; the decoded kind's name is then the upper-cased input; otherwise the error names the raw input |
| `Automations.DecodeType` | automations.py:60-63 | succeeds iff the upper-cased input is SHADE or SWITCH; the decoded type's name is then the upper-cased input; otherwise the error names the raw input |
| `AutomationProperties.DecodeStateRoundTrip` | automations.py:21-24 | decoding the stored name of any state kind gives that kind back |
| `AutomationProperties.DecodeTypeRoundTrip` | automations.py:60-63 | decoding the stored name of any device type gives that type back |
| `AutomationProperties.DecodeStateCaseInsensitive` | automations.py:22-23 | state decoding gives the same outcome on an input and on its upper-cased form |
| `AutomationProperties.DecodeTypeCaseInsensitive` | automations.py:61-62 | type decoding gives the same outcome on an input and on its upper-cased form |
| `AutomationProperties.LigatureNamesOff` | automations.py:22-23 | "o" followed by the ligature "ﬀ" upper-cases to "OFF" and is accepted as OFF |
| `AutomationProperties.UpperNamesDecode` | automations.py:60-63 | "SHADE" and "SWITCH" decode to their types, and "AT_VALUE" decodes to AT_VALUE |
| `AutomationProperties.LowerCaseOnDecodes` | automations.py:21-24 | the lower-case "on" is accepted as ON |
| `Text.Upper` | automations.py:22 | the result is at least as long as the input and contains no ASCII lower-case letter; a string already in upper form is unchanged |
| `Text.UpperIdempotent` | automations.py:22 | upper-casing twice equals upper-casing once |
| `Text.UpperAppend` | automations.py:22 | upper-casing distributes over concatenation |
| `Text.UpperPlain` | automations.py:22 | without the special non-ASCII characters, upper-casing is character by character and keeps the length |
| `Wrappers.MapUntilFailure` | automations.py:95-124 | succeeds iff every element succeeds, and then returns one result per element in order; otherwise it returns the error of the first failing element |
| `Wrappers.MapAllSucceed` | automations.py:95-124 | when every element succeeds with a known result, the traversal returns exactly those results in order |
| `Automations.ParseDevice` | automations.py:70-74 | a missing `type` fails first, then an unknown type, then a missing `name`; on success the device has that name, the decoded type, and `location_tags` or an empty list |
| `Automations.Bind` | automations.py:74 | binding a name keeps the registry valid, binds the name to the device and leaves every other binding alone; a known name keeps its position and a new name goes last |
| `Automations.Index` | automations.py:69-75 | the registry is valid, its keys are exactly the devices' names, each name is bound to its last definition, and keys follow first-occurrence order |
| `Automations.GetDevices` | automations.py:65-75 | fails when `devices` is absent; otherwise succeeds iff every entry parses, else returns the first bad entry's error; a successful registry is valid |
| `Automations.GetDevicesIsIndex` | automations.py:69-75 | a successful registry is the index of the parsed entries, in list order |
| `Automations.ParsedNamesAreRawNames` | automations.py:70-74 | a name occurs among the parsed devices iff some raw entry carries it |
| `AutomationProperties.GetDevicesParsed` | automations.py:65-75 | when every entry parses to a known device, the registry is the index of those devices |
| `AutomationProperties.GetDevicesPair` | automations.py:65-75 | two entries that both parse give the index of the two devices |
| `AutomationProperties.UpperTypedEntriesParse` | automations.py:70-74 | entries typed "SHADE" or "SWITCH" parse to devices with that type, their name, and their tags or none |
| `AutomationProperties.IndexSingle` | automations.py:69-75 | one device gives a registry with its name as the only key |
| `AutomationProperties.IndexSameNameTwice` | automations.py:74 | a second device with the same name replaces the first under the same single key |
| `Automations.GetDevicesKeys` | automations.py:70-74 | a name is a registry key iff some raw entry carries it |
| `Automations.GetDevicesLastWins` | automations.py:74 | a name is bound to the device parsed from the last raw entry with that name |
| `Automations.GetDevicesFirstOccurrenceOrder` | automations.py:69-74 | keys are listed in the order of their first appearance in the raw device list |
| `AutomationProperties.DuplicateDeviceNameAccepted` | automations.py:70-74 | two entries with the same name give one key, in its first position, bound to the second definition |
| `Automations.OffsetOf` | automations.py:80-85 | a sun offset takes the given hours and minutes, 0 for each missing one, and the given anchor |
| `Automations.ReadSchedule` | automations.py:77-87 | fails iff `cron` is missing; copies `cron` unchanged; has an offset iff `sunset` or `sunrise` is present; uses `sunset` when present, else `sunrise` |
| `AutomationProperties.SunsetWinsTie` | automations.py:79-86 | with `sunset` present, changing or removing `sunrise` does not change the schedule, and the anchor is SUNSET |
| `Automations.UniformState` | automations.py:99-104 | no setting or an otherwise-typed one gives no uniform state; an int gives AT_VALUE with that value; a string succeeds iff it names a state, with no value; a value only ever comes with AT_VALUE |
| `AutomationProperties.AtValueStringCarriesNoValue` | automations.py:101-102 | the string setting "AT_VALUE" yields AT_VALUE without a value |
| `Automations.ResolveEntry` | automations.py:107-110 | a missing name fails first; with no uniform state a missing `value` fails next; then an unregistered name fails; on success the entry carries the registered device and takes the uniform state if there is one, else AT_VALUE with its own value |
| `Automations.ResolveList` | automations.py:105-110 | succeeds iff every entry resolves, giving one entry per list element in order, each with its registered device and its state; otherwise the first failing entry's error |
| `AutomationProperties.ListModeCarriesValues` | automations.py:99-110 | without a string setting, every resolved list entry is AT_VALUE with a value present |
| `Automations.SharedTags` | automations.py:113 | a tag is in the comprehension iff it is in the automation's tags and in the device's tags |
| `AutomationProperties.MatchesIffSharedTag` | automations.py:113 | a device is selected by tags iff some automation tag is one of its tags |
| `AutomationProperties.EmptyTagsMatchNothing` | automations.py:113 | an empty tag list on either side selects nothing |
| `Automations.SelectFrom` | automations.py:113 | every selected device is bound under a walked name, matches the tags, and gets the uniform state; every walked, bound, matching device is selected; the selected devices follow the positions of the walked names they are bound under |
| `Automations.SelectByTags` | automations.py:111-113 | for a valid registry, a registered device is selected iff it shares a tag; each selected device is the registered one; every selected device gets the same, possibly absent, uniform state; each selected device appears once, strictly in the registry's key order |
| `Automations.RegistryOrderOfSelection` | automations.py:113 | on a valid registry, a selection in walk order has strictly increasing key positions, so no device appears twice |
| `AutomationProperties.SelectSingle` | automations.py:113 | over a one-device registry, a device sharing a tag is the whole selection, with the uniform state |
| `AutomationProperties.SelectFromAppend` | automations.py:113 | selection distributes over concatenation of the walked names, so selected devices follow registry order |
| `Automations.ResolveAutomation` | automations.py:95-122 | errors come in source order: name, `devices`, setting, selection (no selector fails), `schedule`, then `cron` (a `MissingKey("cron")`); success iff all of them pass; the result keeps the name, uses the list when present, else tag selection, and the schedule read from `schedule` |
| `AutomationProperties.ListWinsOverTags` | automations.py:105-115 | with `device_list` present, the `tags` key has no effect on the result |
| `AutomationProperties.TagModeWithoutSettingLeavesNoState` | automations.py:99-113 | in tag mode with no usable setting, every selected device has no state |
| `Automations.GetAutomations` | automations.py:89-124 | fails when `automations` is absent; otherwise succeeds iff every entry resolves, giving one automation per entry in order with the same name and its schedule; else the first failing entry's error |
| `AutomationProperties.GetAutomationsResolved` | automations.py:89-124 | when every entry resolves to a known automation, the result is exactly those automations in order |
| `Automations.LoadAutomations` | automations.py:65-124 | a missing `devices` key fails first; otherwise the first unparsable device entry's error wins over everything else; with every device parsing, a missing `automations` key fails; otherwise it succeeds iff every automation entry resolves against the registry built from the devices, giving each entry's resolution in order (same name, schedule read from its `schedule`), and else fails with the first failing entry's error |
| `Automations.ResolvedDeviceIsRegistered` | automations.py:105-113 | every device of a resolved automation, in list mode or tag mode, is the registry's device for its name |
| `Automations.LoadedDeviceIsLastDefinition` | automations.py:65-124 | every device of every loaded automation is the device parsed from the last raw device entry with its name |
| `AutomationProperties.LoadSingle` | automations.py:65-124 | one parsing device entry and one automation resolving against its one-key registry load to that automation alone |
| `AutomationProperties.DiningAutomation` | automations.py:95-122 | an automation over tag "dining" with setting 66 resolves, against a registry holding one dining shade, to that shade at AT_VALUE 66 with cron "0 8 * * *" and no offset |
| `AutomationProperties.DiningRoomScenario` | automations.py:65-124 | one SHADE tagged "dining" with an automation over that tag and setting 66 gives one automation driving it to AT_VALUE 66 |
| `ShadeCommands.FoundDevices` | temporal_workflow.py:27-30 | the keys are exactly the enumerated names, and each maps to the id of the last enumerated entry with that name |
| `ShadeCommands.NotFound` | temporal_workflow.py:32 | a name is reported iff it is expected and not found |
| `ShadeCommands.NotFoundAppend` | temporal_workflow.py:32 | the not-found list distributes over concatenation, so it keeps the expected order |
| `ShadeCommands.GetShadesReportsInOrder` | temporal_workflow.py:32 | the names `get_shades` reports as missing distribute over concatenation of the expected names, so they keep the expected order |
| `ShadeCommands.GetShades` | temporal_workflow.py:26-38 | the returned map depends only on the enumeration; the reported names are exactly the expected names that are not enumerated |
| `ShadeCommands.Commands` | temporal_workflow.py:55 | each command comes from a request whose name was found and targets its id with the requested value; every such request produces its command |
| `ShadeCommands.CommandsAppend` | temporal_workflow.py:55 | the command list distributes over concatenation, so commands follow request order |
| `ShadeCommands.CommandsSingle` | temporal_workflow.py:55 | one request gives exactly one command with the found id and unchanged value when its name is found, and none otherwise |
| `ShadeCommands.CommandsPartitionRequests` | temporal_workflow.py:53-55 | commands plus not-found names together number exactly the requests |
| `ShadeCommands.SetShadeLevels` | temporal_workflow.py:53-55 | every request whose name is enumerated yields a command to that name's id with its value; every command in the list comes from such a request |
| `ShadeCommands.SetShadeLevelsInOrder` | temporal_workflow.py:53-55 | the command list distributes over concatenation of the requests, so commands follow the request order |
| `ShadeCommands.MissingDeviceIsSkipped` | temporal_workflow.py:52-55 | with requests for A and B and only A enumerated, only A gets a command and B is reported |

## Left out

- File reading, YAML parsing and the `__main__` printing of `automations.py` (lines 126-138). The model starts from the already-parsed mapping (`RawConfig`).
- Values of unexpected shape. The raw datatypes only hold well-typed values: names, types and tags are strings, tag lists are lists, and `hours`, `minutes` and a list entry's `value` are `int` when present. Some ill-typed shapes make the source raise: a non-iterable `devices`, `automations` or `device_list` (automations.py:70, 95, 107), an entry that is not a mapping (automations.py:71, 96, 108), a null `sunset` or `sunrise` entry (automations.py:80, 84), a non-string `type` (automations.py:61), and an unhashable name (automations.py:74, 110). Others the source accepts silently and the model does not represent: a hashable non-string name or tag (automations.py:73-74, 108-110, 113); non-int `hours`, `minutes` or `value`, stored unchanged (automations.py:80-81, 84-85, 109); a string `location_tags`, which turns the tag test at line 113 into a substring test; and a string `tags`, iterated character by character (automations.py:113).
- Error messages: `ConfigError` records the cause of the exception, not its text or Python exception class.
- Text.Upper: maps ASCII letters plus the ten non-ASCII characters whose Python upper case is pure ASCII. Every other character is kept as it is. The upper-cased text therefore differs from Python's for other lower-case letters (`é`, for one). Whether a name is accepted never differs, because those characters upper-case to non-ASCII text.
- The bridge connection (`initialize`) and the actual `set_value` calls. `set_shade_levels` is modelled as the list of commands it builds at line 55. The bridge's enumeration is an input.
- `ShadeCommands.GetShades`, `ShadeCommands.SetShadeLevels`: as written, neither completes. `logger` is not defined at module scope, so `get_shades` raises `NameError` at temporal_workflow.py:36 on every call (at line 34 first when names are missing), and `set_shade_levels` therefore raises at line 53. Line 56 also calls the coroutine function `await_all` without `await`, so the `set_value` coroutines built at line 55 never run. The model covers lines 27-32 and the list built at line 55 as intended, with logging as a no-op.
- `close_shades` and `open_shades`: they unpack plain strings as pairs and use the undefined `device_value_list`, so they have no coherent behaviour to state.
- `await_all` in both files: sequential awaiting of coroutines, which is concurrency plumbing. The copy in `temporal_workflow.py` also uses an undefined `tasks`.
- Logging, including the not-found warning. The warning's content would be `NotFound`.
- The Temporal workflows, the worker and `temporal_run.py` (workflow submission over the network). `temporal_run.py` imports `RunShadeAutomation` from `temporal_workflow.py` (line 4), which does not define it (its only workflows are `MorningDiningRoom`, `EveningDiningRoomFullUp` and `EveningDiningRoomFullDown`), so that import fails as written.
- `location.py` (astral sun calculations with floats) and `script.py` (a bridge connectivity test). No offset time arithmetic exists in the resolver: a schedule only records the magnitude and the anchor.
