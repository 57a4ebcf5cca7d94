/** Resolving requested shade names against the bridge's enumeration and
    choosing the set-value commands to build (`get_shades` and the command
    list of `set_shade_levels`). */
module ShadeCommands {

  /** One entry of the bridge's "cover" enumeration, reduced to the two
      fields the lookup reads. */
  datatype BridgeDevice = BridgeDevice(name: string, deviceId: string)

  /** A requested level for the device called `name`. */
  datatype Request = Request(name: string, value: int)

  /** A request to the bridge to move the device with id `deviceId` to level `value`. */
  datatype SetValue = SetValue(deviceId: string, value: int)

  /** What `get_shades` computes: the name to id map it returns and the
      requested names it warns about. */
  datatype Lookup = Lookup(found: map<string, string>, notFound: seq<string>)

  /** The enumeration's names, in order. */
  function EnumeratedNames(devices: seq<BridgeDevice>): seq<string> {
    seq(|devices|, i requires 0 <= i < |devices| => devices[i].name)
  }

  /** `devices[i]` is the last enumerated device with its name. */
  ghost predicate LastEnumerated(devices: seq<BridgeDevice>, i: int) {
    0 <= i < |devices| && forall j :: i < j < |devices| ==> devices[j].name != devices[i].name
  }

  /** Every enumerated name is bound to the id of its last entry. */
  ghost predicate LastIdWins(m: map<string, string>, devices: seq<BridgeDevice>) {
    forall i :: LastEnumerated(devices, i) ==> devices[i].name in m && m[devices[i].name] == devices[i].deviceId
  }

  lemma EnumeratedNamesSnoc(devices: seq<BridgeDevice>, d: BridgeDevice)
    ensures EnumeratedNames(devices + [d]) == EnumeratedNames(devices) + [d.name]
  {
  }

  /** Binding the last entry's name keeps the last-entry-wins property. */
  lemma BindKeepsLastId(prev: map<string, string>, init: seq<BridgeDevice>, d: BridgeDevice)
    requires LastIdWins(prev, init)
    ensures LastIdWins(prev[d.name := d.deviceId], init + [d])
  {
    var devices := init + [d];
    var m := prev[d.name := d.deviceId];
    forall i | LastEnumerated(devices, i)
      ensures devices[i].name in m && m[devices[i].name] == devices[i].deviceId
    {
      if i < |init| {
        assert devices[i] == init[i];
        forall j | i < j < |init| ensures init[j].name != init[i].name {
          assert devices[j] == init[j];
        }
        assert LastEnumerated(init, i);
        assert devices[|init|] == d;
      }
    }
  }

  /** The lookup map built by walking the enumeration and binding each
      entry's name to its id: every enumerated name is a key, and it maps to
      the id of the last entry with that name. */
  function FoundDevices(devices: seq<BridgeDevice>): (m: map<string, string>)
    ensures forall n :: n in m <==> n in EnumeratedNames(devices)
    ensures LastIdWins(m, devices)
  {
    if devices == [] then map[]
    else
      var init := devices[..|devices| - 1];
      var d := devices[|devices| - 1];
      var prev := FoundDevices(init);
      assert devices == init + [d];
      EnumeratedNamesSnoc(init, d);
      BindKeepsLastId(prev, init, d);
      prev[d.name := d.deviceId]
  }

  /** The expected names that are not keys of the lookup map, in expected order. */
  function NotFound(expected: seq<string>, found: map<string, string>): (r: seq<string>)
    ensures |r| <= |expected|
    ensures forall e :: e in r <==> e in expected && e !in found
  {
    if expected == [] then []
    else
      var rest := NotFound(expected[1..], found);
      assert forall e :: e in expected <==> e == expected[0] || e in expected[1..];
      if expected[0] in found then rest else [expected[0]] + rest
  }

  /** `get_shades`: the returned map is built from the enumeration alone;
      alongside it come the requested names the enumeration lacks. */
  function GetShades(devices: seq<BridgeDevice>, expected: seq<string>): (r: Lookup)
    ensures r.found == FoundDevices(devices)
    ensures forall e :: e in r.notFound <==> e in expected && e !in EnumeratedNames(devices)
  {
    var found := FoundDevices(devices);
    Lookup(found, NotFound(expected, found))
  }

  /** One set-value command per request whose name is a key of the lookup
      map, in request order, addressed to the mapped id with the requested
      level. */
  function Commands(requests: seq<Request>, found: map<string, string>): (r: seq<SetValue>)
    ensures |r| <= |requests|
    ensures forall c :: c in r ==> exists q :: q in requests && q.name in found && c == SetValue(found[q.name], q.value)
    ensures forall q :: q in requests && q.name in found ==> SetValue(found[q.name], q.value) in r
  {
    if requests == [] then []
    else
      var q := requests[0];
      var rest := Commands(requests[1..], found);
      assert forall q' :: q' in requests <==> q' == q || q' in requests[1..];
      if q.name in found then [SetValue(found[q.name], q.value)] + rest else rest
  }

  /** The names of the requests, in order. */
  function RequestedNames(requests: seq<Request>): seq<string> {
    seq(|requests|, i requires 0 <= i < |requests| => requests[i].name)
  }

  /** The command list of `set_shade_levels`, given what the bridge
      enumerates: a request yields a command iff its name is enumerated. */
  function SetShadeLevels(devices: seq<BridgeDevice>, requests: seq<Request>): (r: seq<SetValue>)
    ensures forall q :: q in requests && q.name in EnumeratedNames(devices) ==>
              SetValue(FoundDevices(devices)[q.name], q.value) in r
    ensures forall c :: c in r ==>
              exists q :: (q in requests && q.name in EnumeratedNames(devices) &&
                           c == SetValue(FoundDevices(devices)[q.name], q.value))
  {
    var lookup := GetShades(devices, RequestedNames(requests));
    Commands(requests, lookup.found)
  }

  // ---------------------------------------------------------------------
  // Order and count
  // ---------------------------------------------------------------------

  /** The not-found list is a filter: it distributes over concatenation, so
      it keeps the requested order. */
  lemma {:induction false} NotFoundAppend(a: seq<string>, b: seq<string>, found: map<string, string>)
    ensures NotFound(a + b, found) == NotFound(a, found) + NotFound(b, found)
  {
    if a == [] {
      assert a + b == b;
    } else {
      assert (a + b)[0] == a[0];
      assert (a + b)[1..] == a[1..] + b;
      NotFoundAppend(a[1..], b, found);
    }
  }

  /** The command list is a filter-and-map: it distributes over
      concatenation, so commands follow the request order. */
  lemma {:induction false} CommandsAppend(a: seq<Request>, b: seq<Request>, found: map<string, string>)
    ensures Commands(a + b, found) == Commands(a, found) + Commands(b, found)
  {
    if a == [] {
      assert a + b == b;
    } else {
      assert (a + b)[0] == a[0];
      assert (a + b)[1..] == a[1..] + b;
      CommandsAppend(a[1..], b, found);
    }
  }

  /** `get_shades` reports missing names in the order they were expected:
      the report distributes over concatenation of the expected names. */
  lemma GetShadesReportsInOrder(devices: seq<BridgeDevice>, a: seq<string>, b: seq<string>)
    ensures GetShades(devices, a + b).notFound == GetShades(devices, a).notFound + GetShades(devices, b).notFound
  {
    NotFoundAppend(a, b, FoundDevices(devices));
  }

  /** The commands of `set_shade_levels` follow the request order: the
      command list distributes over concatenation of the requests. */
  lemma SetShadeLevelsInOrder(devices: seq<BridgeDevice>, a: seq<Request>, b: seq<Request>)
    ensures SetShadeLevels(devices, a + b) == SetShadeLevels(devices, a) + SetShadeLevels(devices, b)
  {
    CommandsAppend(a, b, FoundDevices(devices));
  }

  /** One request yields one command exactly when its name was found, and
      that command targets the found id with the value unchanged. */
  lemma CommandsSingle(q: Request, found: map<string, string>)
    ensures q.name in found ==> Commands([q], found) == [SetValue(found[q.name], q.value)]
    ensures q.name !in found ==> Commands([q], found) == []
  {
    assert [q][1..] == [];
  }

  /** Every request is either commanded or reported as not found, never
      both: the two lists together account for all requests. */
  lemma {:induction false} CommandsPartitionRequests(requests: seq<Request>, found: map<string, string>)
    ensures |Commands(requests, found)| + |NotFound(RequestedNames(requests), found)| == |requests|
  {
    if requests != [] {
      assert RequestedNames(requests)[1..] == RequestedNames(requests[1..]);
      CommandsPartitionRequests(requests[1..], found);
    }
  }

  /** A device the bridge does not enumerate is skipped and reported, while
      the enumerated one still receives its command. */
  lemma MissingDeviceIsSkipped()
    ensures
      var devices := [BridgeDevice("A", "2")];
      var requests := [Request("A", 66), Request("B", 66)];
      && SetShadeLevels(devices, requests) == [SetValue("2", 66)]
      && GetShades(devices, RequestedNames(requests)).notFound == ["B"]
  {
    var devices := [BridgeDevice("A", "2")];
    var requests := [Request("A", 66), Request("B", 66)];
    var found := FoundDevices(devices);
    assert devices[..0] == [];
    assert found == map["A" := "2"];
    assert requests[1..] == [Request("B", 66)];
    assert RequestedNames(requests) == ["A", "B"];
    assert ["A", "B"][1..] == ["B"];
    assert ["B"][1..] == [];
  }
}
