/** The device facade: setup probes the unit, checks what it found, derives
    the display type, resolves the attribute map and reads the hardware
    version when the map says it can. The transport and the probe registers
    are not modelled: their results arrive as a `Probes` record and every
    round trip is appended to the `issued` log. */
module AdlarDevice {
  import opened Wrappers
  import opened OrderedDict
  import opened Catalog
  import opened Resolver

  /** The attribute key whose presence allows the hardware version read. */
  const HwVersionKey := "get_controller_hardware_version"

  /** The hardware type that has AIR and GEO variants. */
  const AirGeoCapableType := 44

  /** From this bus version on the CO2 sensor can be probed. */
  const Co2ProbeBusVersion := 10

  /** What the probe registers answer, in the order setup asks. */
  datatype Probes = Probes(
    hubReady: bool,
    machineType: Option<int>,
    busVersion: Option<int>,
    airGeo: int,
    swVersion: string,
    co2Present: bool,
    hwVersion: string)

  /** A transport round trip that setup issues. */
  datatype Request =
    | HubSetup
    | ReadMachineType
    | ReadBusVersion
    | ReadAirGeo
    | ReadSwVersion
    | ReadCo2Present
    | ReadHwVersion
    | HubClose

  /** Why setup raised. The last of these is the missing display name of a
      supported hardware type: a lookup failure that leaves the hub open. */
  datatype SetupError =
    | HubSetupFailed
    | HwTypeMissing
    | HwTypeUnsupported
    | BusVersionMissing
    | DeviceTypeUnknown

  datatype SetupOutcome = Ready | Raised(error: SetupError)

  /** The display type: the base name, with " AIR" for variant 1 and " GEO"
      for variant 2. */
  function DisplayType(base: string, airGeoType: int): (r: string)
    ensures base <= r
    ensures airGeoType == 1 <==> r == base + " AIR"
    ensures airGeoType == 2 <==> r == base + " GEO"
    ensures airGeoType != 1 && airGeoType != 2 <==> r == base
  {
    assert (base + " AIR")[|base|..] == " AIR" && (base + " GEO")[|base|..] == " GEO";
    if airGeoType == 1 then base + " AIR"
    else if airGeoType == 2 then base + " GEO"
    else base
  }

  /** The CO2 flag setup hands to the resolver: the probe's answer when the
      probe is made, false otherwise. */
  function Co2Flag(busVersion: int, airGeoType: int, probeAnswer: bool): (present: bool)
    ensures present ==> probeAnswer
    ensures present ==> busVersion >= Co2ProbeBusVersion || airGeoType != 0
    ensures probeAnswer && (busVersion >= Co2ProbeBusVersion || airGeoType != 0) ==> present
  {
    if busVersion >= Co2ProbeBusVersion || airGeoType != 0 then probeAnswer else false
  }

  /** Without the CO2 probe no rule with `extra_type` is resolved. */
  lemma NoCo2RuleWithoutProbe(c: seq<Rule>, hwType: int, busVersion: int, airGeoType: int, probeAnswer: bool, i: int)
    requires UniqueKeys(c) && 0 <= i < |c|
    requires busVersion < Co2ProbeBusVersion && airGeoType == 0
    requires c[i].extraType.Some?
    ensures c[i].key !in ResolvedKeys(c, Identity(hwType, busVersion, airGeoType, Co2Flag(busVersion, airGeoType, probeAnswer)))
  {
    Co2RuleNeedsSensor(c, Identity(hwType, busVersion, airGeoType, Co2Flag(busVersion, airGeoType, probeAnswer)), i);
  }

  /** `get_assigned`: the keys whose platform is `platform`, in map order. */
  function Assigned(d: Attributes, platform: string): (keys: seq<string>)
    ensures |keys| <= |d|
    ensures forall k :: k in keys <==> exists i :: 0 <= i < |d| && d[i] == Item(k, platform)
  {
    if d == [] then []
    else
      var rest := Assigned(d[1..], platform);
      assert forall i :: 1 <= i < |d| ==> d[i] == d[1..][i - 1];
      (if d[0].value == platform then [d[0].key] else []) + rest
  }

  /** Filtering a concatenation filters each part, in order. */
  lemma {:induction false} AssignedConcat(a: Attributes, b: Attributes, platform: string)
    ensures Assigned(a + b, platform) == Assigned(a, platform) + Assigned(b, platform)
  {
    if a == [] {
      assert a + b == b;
    } else {
      assert (a + b)[0] == a[0] && (a + b)[1..] == a[1..] + b;
      AssignedConcat(a[1..], b, platform);
    }
  }

  /** The catalog keys of the selected rules of platform `platform`, in
      catalog order. */
  function SelectedKeys(c: seq<Rule>, id: Identity, platform: string): seq<string> {
    if c == [] then []
    else (if Selected(c[0], id) && c[0].entityType == platform then [c[0].key] else [])
         + SelectedKeys(c[1..], id, platform)
  }

  lemma {:induction false} AssignedSelection(c: seq<Rule>, id: Identity, platform: string)
    ensures Assigned(Selection(c, id), platform) == SelectedKeys(c, id, platform)
  {
    if c != [] {
      var head := if Selected(c[0], id) then [Item(c[0].key, c[0].entityType)] else [];
      AssignedConcat(head, Selection(c[1..], id), platform);
      AssignedSelection(c[1..], id, platform);
    }
  }

  /** After resolution from an empty map, `get_assigned(platform)` lists the
      selected rules of that platform in catalog order. */
  lemma AssignedFollowsCatalog(c: seq<Rule>, id: Identity, platform: string)
    requires UniqueKeys(c)
    ensures Assigned(Resolve([], c, id), platform) == SelectedKeys(c, id, platform)
  {
    ResolveIsSelection([], c, id);
    assert [] + Selection(c, id) == Selection(c, id);
    AssignedSelection(c, id, platform);
  }

  /** The setup checks all pass up to the bus version. */
  ghost predicate ProbesPass(p: Probes, supportedTypes: set<int>) {
    && p.hubReady
    && p.machineType.Some?
    && p.machineType.value in supportedTypes
    && p.busVersion.Some?
  }

  class Device {
    const deviceName: string
    var deviceType: string
    var swVersion: string
    var hwVersion: string
    var airGeoType: int
    var attributes: Attributes
    /** The hub has been closed. */
    var closed: bool
    /** The transport round trips issued so far, in order. */
    var issued: seq<Request>

    constructor(name: string)
      ensures deviceName == name
      ensures deviceType == "" && swVersion == "" && hwVersion == ""
      ensures airGeoType == 0 && attributes == []
      ensures !closed && issued == []
    {
      deviceName := name;
      deviceType := "";
      swVersion := "";
      hwVersion := "";
      airGeoType := 0;
      attributes := [];
      closed := false;
      issued := [];
    }

    method CloseHub()
      modifies this`closed, this`issued
      ensures closed && issued == old(issued) + [HubClose]
    {
      closed := true;
      issued := issued + [HubClose];
    }

    /** The two loops over the catalog, one per path, inserting into
        `attributes` in place. */
    method ResolveAttributes(catalog: seq<Rule>, id: Identity)
      modifies this`attributes
      ensures attributes == Resolve(old(attributes), catalog, id)
    {
      if id.airGeoType == 0 {
        for i := 0 to |catalog|
          invariant attributes == Resolve(old(attributes), catalog[..i], id)
        {
          assert catalog[..i + 1][..i] == catalog[..i];
          var value := catalog[i];
          if value.minBusVersion.None? {
            continue;
          }
          if id.busVersion >= value.minBusVersion.value && DeviceMatches(value, id.hwType) {
            if value.excludedBusVersions.Some? {
              if id.busVersion in value.excludedBusVersions.value {
                continue;
              }
            }
            if value.extraType.Some? {
              if id.co2Present && value.extraType.value == "co2" {
                attributes := Put(attributes, value.key, value.entityType);
              } else {
                continue;
              }
            }
            if value.maxBusVersion.Some? {
              if id.busVersion >= value.maxBusVersion.value {
                continue;
              }
            }
            attributes := Put(attributes, value.key, value.entityType);
          }
        }
      } else {
        for i := 0 to |catalog|
          invariant attributes == Resolve(old(attributes), catalog[..i], id)
        {
          assert catalog[..i + 1][..i] == catalog[..i];
          var value := catalog[i];
          if value.minHpsBusVersion.None? {
            continue;
          }
          if id.busVersion >= value.minHpsBusVersion.value && DeviceMatches(value, id.hwType) {
            if value.extraType.Some? {
              if id.co2Present && value.extraType.value == "co2" {
                attributes := Put(attributes, value.key, value.entityType);
              } else {
                continue;
              }
            }
            attributes := Put(attributes, value.key, value.entityType);
          }
        }
      }
      assert catalog[..|catalog|] == catalog;
    }

    /** The setup sequence. `supportedTypes` is the set of supported hardware
        types and `deviceTypes` the display name of each hardware type. */
    method Setup(p: Probes, catalog: seq<Rule>, supportedTypes: set<int>, deviceTypes: map<int, string>)
      returns (outcome: SetupOutcome)
      modifies this
      // Each check that fails closes the hub and raises, and nothing is resolved.
      ensures !p.hubReady ==>
        outcome == Raised(HubSetupFailed) && issued == old(issued) + [HubSetup, HubClose]
      ensures p.hubReady && p.machineType.None? ==>
        outcome == Raised(HwTypeMissing) && issued == old(issued) + [HubSetup, ReadMachineType, HubClose]
      ensures p.hubReady && p.machineType.Some? && p.machineType.value !in supportedTypes ==>
        outcome == Raised(HwTypeUnsupported) && issued == old(issued) + [HubSetup, ReadMachineType, HubClose]
      ensures p.hubReady && p.machineType.Some? && p.machineType.value in supportedTypes && p.busVersion.None? ==>
        outcome == Raised(BusVersionMissing)
        && issued == old(issued) + [HubSetup, ReadMachineType, ReadBusVersion, HubClose]
      ensures !ProbesPass(p, supportedTypes) ==>
        && closed
        && attributes == old(attributes) && airGeoType == old(airGeoType)
        && deviceType == old(deviceType) && swVersion == old(swVersion) && hwVersion == old(hwVersion)
      // Past the checks the hub stays open and the rest is `Configure`.
      ensures ProbesPass(p, supportedTypes) ==>
        var hw := p.machineType.value;
        var bus := p.busVersion.value;
        && closed == old(closed)
        && ConfigureDone(hw, bus, p, catalog, deviceTypes, outcome, old(airGeoType), old(deviceType),
                         old(hwVersion), old(attributes), old(issued) + [HubSetup, ReadMachineType, ReadBusVersion])
    {
      issued := issued + [HubSetup];
      if !p.hubReady {
        CloseHub();
        return Raised(HubSetupFailed);
      }

      issued := issued + [ReadMachineType];
      if p.machineType.None? {
        CloseHub();
        return Raised(HwTypeMissing);
      }
      var hwType := p.machineType.value;
      if hwType !in supportedTypes {
        CloseHub();
        return Raised(HwTypeUnsupported);
      }

      issued := issued + [ReadBusVersion];
      if p.busVersion.None? {
        CloseHub();
        return Raised(BusVersionMissing);
      }
      assert ProbesPass(p, supportedTypes);
      ghost var checked := issued;
      assert checked == old(issued) + [HubSetup, ReadMachineType, ReadBusVersion];
      outcome := Configure(hwType, p.busVersion.value, p, catalog, deviceTypes);
    }

    /** What the steps after the checks leave behind, given the state they
        started from. */
    ghost predicate ConfigureDone(hw: int, bus: int, p: Probes, catalog: seq<Rule>, deviceTypes: map<int, string>,
                                  outcome: SetupOutcome, airGeo0: int, deviceType0: string, hwVersion0: string,
                                  attributes0: Attributes, issued0: seq<Request>)
      reads this
    {
      var probeLog := issued0 + (if hw == AirGeoCapableType then [ReadAirGeo] else []) + [ReadSwVersion];
      && airGeoType == (if hw == AirGeoCapableType then p.airGeo else airGeo0)
      && swVersion == p.swVersion
      && (hw !in deviceTypes ==>
            // A supported type without a display name raises with the hub still open.
            && outcome == Raised(DeviceTypeUnknown)
            && attributes == attributes0 && deviceType == deviceType0 && hwVersion == hwVersion0
            && issued == probeLog)
      && (hw in deviceTypes ==>
            var co2Probed := bus >= Co2ProbeBusVersion || airGeoType != 0;
            && outcome == Ready
            && deviceType == DisplayType(deviceTypes[hw], airGeoType)
            && attributes == Resolve(attributes0, catalog, Identity(hw, bus, airGeoType, Co2Flag(bus, airGeoType, p.co2Present)))
            && hwVersion == (if HwVersionKey in Keys(attributes) then p.hwVersion else hwVersion0)
            && issued == probeLog
                         + (if co2Probed then [ReadCo2Present] else [])
                         + (if HwVersionKey in Keys(attributes) then [ReadHwVersion] else []))
    }

    /** The steps after the checks: the variant probe, the software version,
        the display type, the CO2 probe, resolution and the hardware version. */
    method Configure(hwType: int, busVersion: int, p: Probes, catalog: seq<Rule>, deviceTypes: map<int, string>)
      returns (outcome: SetupOutcome)
      modifies this`airGeoType, this`swVersion, this`deviceType, this`attributes, this`hwVersion, this`issued
      ensures ConfigureDone(hwType, busVersion, p, catalog, deviceTypes, outcome, old(airGeoType), old(deviceType),
                            old(hwVersion), old(attributes), old(issued))
    {
      if hwType == AirGeoCapableType {
        issued := issued + [ReadAirGeo];
        airGeoType := p.airGeo;
      }

      issued := issued + [ReadSwVersion];
      swVersion := p.swVersion;
      ghost var probeLog := issued;
      assert probeLog == old(issued) + (if hwType == AirGeoCapableType then [ReadAirGeo] else []) + [ReadSwVersion];
      if hwType !in deviceTypes {
        return Raised(DeviceTypeUnknown);
      }
      if airGeoType == 1 {
        deviceType := deviceTypes[hwType] + " AIR";
      } else if airGeoType == 2 {
        deviceType := deviceTypes[hwType] + " GEO";
      } else {
        deviceType := deviceTypes[hwType];
      }

      var co2Present: bool;
      if busVersion >= Co2ProbeBusVersion || airGeoType != 0 {
        issued := issued + [ReadCo2Present];
        co2Present := p.co2Present;
      } else {
        co2Present := false;
      }
      ghost var co2Log := issued;
      assert co2Log == probeLog + (if busVersion >= Co2ProbeBusVersion || airGeoType != 0 then [ReadCo2Present] else []);

      ResolveAttributes(catalog, Identity(hwType, busVersion, airGeoType, co2Present));

      if HwVersionKey in Keys(attributes) {
        issued := issued + [ReadHwVersion];
        hwVersion := p.hwVersion;
      }
      assert issued == co2Log + (if HwVersionKey in Keys(attributes) then [ReadHwVersion] else []);
      return Ready;
    }

    /** `get_assigned`. */
    function GetAssigned(platform: string): seq<string>
      reads this
    {
      Assigned(attributes, platform)
    }

    function GetDeviceName(): string {
      deviceName
    }

    function GetDeviceType(): string
      reads this
    {
      deviceType
    }

    function GetDeviceHwVersion(): string
      reads this
    {
      hwVersion
    }

    function GetDeviceSwVersion(): string
      reads this
    {
      swVersion
    }

    function GetAttributes(): Attributes
      reads this
    {
      attributes
    }
  }
}
