# Adlar Castra heat-pump integration: capability resolver, in Dafny

This project models the decision logic of the Adlar Castra Modbus integration
for a home-automation host. When a heat-pump controller is set up, the device
facade probes its hardware type, bus version, AIR/GEO variant and CO2 sensor.
It then walks an ordered catalog of rules (the entity map) and decides which
attribute keys the unit supports and which platform (sensor, switch, select)
each key goes to. The model covers that setup sequence, the resolver loops,
`get_assigned`, the config-record migration and the device-registry
descriptor.

Files and modules:

- `wrappers.dfy` (`Wrappers`): the `Option` type.
- `ordered_dict.dfy` (`OrderedDict`): Python's insertion-ordered `dict` as a
  sequence of items. Assigning to a present key replaces its value in place;
  a new key is appended.
- `catalog.dfy` (`Catalog`): the rule record, with its optional fields
  `min_bus_version`, `min_hps_bus_version`, `max_bus_version`,
  `excluded_bus_versions` and `extra_type`, and the device-match check.
- `resolver.dfy` (`Resolver`): `StandardStep` and `VariantStep` follow the two
  loop bodies branch by branch. `Resolve` runs them over the catalog.
  `Selected` is the independent, one-condition-per-rule statement of the same
  decision. The lemmas connect the two and state the properties of the result.
- `device.dfy` (`AdlarDevice`): the `Device` class. Its fields are the ones
  setup assigns. `Setup` and `Configure` are the setup sequence.
  `ResolveAttributes` holds the two loops, inserting into `attributes` in
  place. `Assigned` is `get_assigned`; the read-only properties are functions
  of the class.
- `integration.dfy` (`AdlarIntegration`): `MigrateEntry` upgrades a
  version-1 config entry. `ComposeDeviceInfo` builds the device-registry
  descriptor an entity reports.
- `scenarios.dfy` (`Scenarios`): concrete units, stated as lemmas about the
  resolver and as a verified client of `Setup`.

Points where the code behaves in a way a reader of the rule design might not
expect. The model follows the code in each:

- On the standard path, a rule with `extra_type` that passes the CO2 gate is
  written into the map before `max_bus_version` is checked. If the bus version
  is at or above the maximum, the loop only skips the second, identical write.
  So the maximum never removes a CO2 rule (`Co2RuleIgnoresMaximum`,
  `Co2MaximumExample`).
- The variant path has no exclusion list and no maximum. It also never reads
  `min_bus_version`, and the standard path never reads `min_hps_bus_version`
  (`VariantPathIgnoresStandardFields`, `StandardPathIgnoresVariantField`).
- The display-name lookup `DEVICE_TYPES[hw_type]` sits after the hub checks.
  A supported hardware type without a display name raises a `KeyError`
  (device.py:94, 96 or 98) with the hub still open. It is not a `ValueError`,
  so the setup entry point (`__init__.py:37`) does not turn it into a
  not-ready signal. The model returns `Raised(DeviceTypeUnknown)` and leaves
  `closed` unchanged.
- Setup writes into whatever `attributes` and AIR/GEO flag the device already
  holds. A fresh device starts from an empty map and flag 0, so every
  hardware type other than 44 takes the standard path. The lemmas state the
  resolver's result for an arbitrary starting map where that costs nothing,
  and for the empty map otherwise.

Inputs instead of code: the probe results (`get_machine_type`,
`get_bus_version`, `check_air_geo`, `get_co2_present`, the two version
getters) arrive as one `Probes` record. Each transport round trip setup issues
is appended to the device's `issued` log, so the contracts can say which
probes are made, in what order. The catalog (`ENTITY_MAP`), the display names
(`DEVICE_TYPES`), the set of supported hardware types
(`CTS602_DEVICE_TYPES`) and the integration's domain string are parameters.
device.py uses `CTS602_DEVICE_TYPES` at line 76 without importing or defining
it. As written, that line raises `NameError` for every hardware type that is
not `None`, before `async_close` runs, so the hub stays open. The model
instead takes the set as a parameter and follows the check as evidently
meant: an unsupported type closes the hub and raises.

## Model

| member | source | states |
|---|---|---|
| `OrderedDict.Put` | custom_components/adlar/device.py:122 | dict item assignment: a present key keeps its place and gets the new value, a new key is appended, every other key keeps its value |
| `OrderedDict.PutTwice` | custom_components/adlar/device.py:114-122 | writing the same key and platform twice, as a CO2 rule that passes the maximum is written, equals writing it once |
| `OrderedDict.PutAbsent` | custom_components/adlar/device.py:122 | a key not yet in the map is appended at its end |
| `Resolver.StandardStepSelects` | custom_components/adlar/device.py:104-122 | one standard-path iteration records the rule's key and platform exactly when the rule meets the standard-path condition, and otherwise leaves the map unchanged |
| `Resolver.VariantStepSelects` | custom_components/adlar/device.py:124-136 | one variant-path iteration records the rule exactly when it meets the variant-path condition |
| `Resolver.StepSelects` | custom_components/adlar/device.py:103-136 | the path is chosen by the AIR/GEO flag being 0 or not, and each iteration records the rule exactly when it is selected on that path |
| `Resolver.ResolveOtherKeys` | custom_components/adlar/device.py:104-136 | a key that no catalog rule carries keeps the value it had before the loops |
| `Resolver.ResolveLookup` | custom_components/adlar/device.py:103-136 | after the loops a rule's key maps to the rule's `entity_type` exactly when the rule is selected, and otherwise keeps its earlier value |
| `Resolver.ResolveIsSelection` | custom_components/adlar/device.py:103-136 | from a map sharing no key with the catalog, the loops append exactly the selected rules' items, in catalog order |
| `Resolver.StandardPathNeedsMinimum` | custom_components/adlar/device.py:103-110 | on the standard path a key is resolved only if its rule has `min_bus_version`, the bus version reaches it and the device matches a listed type or "all"; a rule without `min_bus_version` is never resolved |
| `Resolver.ExcludedVersionRemoves` | custom_components/adlar/device.py:111-113 | on the standard path a bus version on the rule's exclusion list keeps the rule out, CO2 rules included |
| `Resolver.Co2RuleNeedsSensor` | custom_components/adlar/device.py:114-135 | on either path a rule with `extra_type` is resolved only if the CO2 sensor is present and the extra type is "co2" |
| `Resolver.Co2RuleIgnoresMaximum` | custom_components/adlar/device.py:114-122 | on the standard path a CO2 rule passing the minimum, device match, exclusion list and CO2 gate is resolved to its platform whatever its `max_bus_version` |
| `Resolver.Co2MaximumExample` | custom_components/adlar/device.py:114-122 | a CO2 rule with maximum 5 is resolved at bus version 12 |
| `Resolver.MaximumIsExclusive` | custom_components/adlar/device.py:119-122 | on the standard path a rule without `extra_type` that passes the other checks is resolved exactly when the bus version is below its maximum |
| `Resolver.VariantPathRule` | custom_components/adlar/device.py:123-136 | on the variant path a rule is resolved exactly when it has `min_hps_bus_version`, the bus version reaches it, the device matches and any `extra_type` passes the CO2 gate; no exclusion or maximum enters |
| `Resolver.ResolvedFromCatalog` | custom_components/adlar/device.py:104-136 | every resolved key is the key of a selected catalog rule and maps to that rule's `entity_type` |
| `Resolver.ResolveKeepsDistinct` | custom_components/adlar/device.py:104-136 | the resolved map never holds a key twice |
| `Resolver.BusVersionMonotone` | custom_components/adlar/device.py:107-122 | on the standard path a resolved rule stays resolved at a higher bus version that is not excluded and, for a rule without `extra_type`, below the maximum |
| `Resolver.VariantPathIgnoresStandardFields` | custom_components/adlar/device.py:123-136 | the variant path's result does not depend on `min_bus_version`, `max_bus_version` or `excluded_bus_versions` |
| `Resolver.StandardPathIgnoresVariantField` | custom_components/adlar/device.py:103-122 | the standard path's result does not depend on `min_hps_bus_version` |
| `AdlarDevice.DisplayType` | custom_components/adlar/device.py:93-98 | the display type starts with the base name and is base + " AIR" exactly for flag 1, base + " GEO" exactly for flag 2, and the base alone otherwise |
| `AdlarDevice.Co2Flag` | custom_components/adlar/device.py:99-102 | the CO2 flag is true only if the probe said so and the bus version is at least 10 or the unit is AIR/GEO; under those conditions it is the probe's answer |
| `AdlarDevice.NoCo2RuleWithoutProbe` | custom_components/adlar/device.py:99-118 | on a standard unit below bus version 10 no rule with `extra_type` is resolved |
| `AdlarDevice.Assigned` | custom_components/adlar/device.py:141-144 | `get_assigned` returns exactly the keys whose platform is the given one, and no more entries than the map has |
| `AdlarDevice.AssignedConcat` | custom_components/adlar/device.py:144 | `get_assigned` keeps map order: filtering a concatenation filters each part in turn |
| `AdlarDevice.AssignedFollowsCatalog` | custom_components/adlar/device.py:141-144 | after resolution from an empty map, `get_assigned(p)` lists the selected rules of platform p in catalog order |
| `AdlarDevice.Device.constructor` | custom_components/adlar/device.py:31-54 | a new device has the given name, empty type and version strings, an empty attribute map, flag 0 and an open hub |
| `AdlarDevice.Device.ResolveAttributes` | custom_components/adlar/device.py:103-136 | the two in-place loops leave `attributes` equal to `Resolve` of the old map, the catalog and the unit |
| `AdlarDevice.Device.Setup` | custom_components/adlar/device.py:56-87 | a failed hub setup, a missing or unsupported hardware type and a missing bus version each raise their own error after closing the hub, in that order of checking, with nothing resolved; past the checks the hub stays open and `Configure` applies |
| `AdlarDevice.Device.Configure` | custom_components/adlar/device.py:88-139 | the AIR/GEO probe only for type 44; the software version always; a type without a display name raises with nothing resolved; otherwise the display type, the CO2 probe only from bus version 10 or for AIR/GEO, the resolved map, and the hardware version read only when its key was resolved, with the exact order of round trips |
| `AdlarIntegration.Migrated` | custom_components/adlar/__init__.py:51-55 | a version-1 record becomes version 2 with `com_type` "tcp" and `board_type` "AURORA" overwritten and every other key kept; other versions are unchanged; the result is never version 1 |
| `AdlarIntegration.MigrateEntry` | custom_components/adlar/__init__.py:47-60 | the entry's version and data become those of the migrated record, and the hook always reports success |
| `AdlarIntegration.ComposeDeviceInfo` | custom_components/adlar/__init__.py:79-95 | one identifier in the domain, formed by the device name followed by the device type; the model is the device type; fixed manufacturer and area |
| `AdlarIntegration.IdentifierSeparatesTypes` | custom_components/adlar/__init__.py:82 | for the same name, two devices share an identifier exactly when they share a device type |
| `AdlarIntegration.AdlarEntity.constructor` | custom_components/adlar/__init__.py:75-77 | an entity holds the device it was made for |
| `Scenarios.SingleRule` | custom_components/adlar/device.py:103-136 | a one-rule catalog resolves to that rule's item when it is selected and to nothing otherwise |
| `Scenarios.VariantUnitGetsVariantRule` | custom_components/adlar/device.py:123-136 | type 44, AIR, bus 12 gets a variant rule with minimum 10 listed for 44 and "all" |
| `Scenarios.BelowMinimumIsSkipped` | custom_components/adlar/device.py:107-110 | bus version 9 misses a minimum of 10 |
| `Scenarios.ExcludedVersionIsSkipped` | custom_components/adlar/device.py:111-113 | an excluded bus version 15 removes an otherwise matching rule |
| `Scenarios.AbsentSensorSkipsCo2Rule` | custom_components/adlar/device.py:114-118 | without the CO2 sensor a CO2 rule is skipped even when all else matches |

`Device.GetAssigned` and the read-only properties (`GetDeviceName`,
`GetDeviceType`, `GetDeviceHwVersion`, `GetDeviceSwVersion`, `GetAttributes`)
read the fields and carry no contract of their own. `GetAssigned` is
`Assigned` of the device's map. `AdlarEntity.GetDeviceInfo` is
`ComposeDeviceInfo` of the device's properties.

## Left out

- The Modbus client configuration and hub construction (device.py:39-52) are not modelled. `async_setup` is the `hubReady` answer, and `async_close` sets the `closed` flag and logs a `HubClose` request.
- The constructor arguments other than the name (`hass`, `com_type`, `host_ip`, `host_port`, `slave_id`) are not kept by the model's `Device`. The source stores them at device.py:30 and 35-38. `slave_id` serves the register reads, which are not modelled. `int(slave_id)` at line 37 raising on a bad id is not modelled.
- The probe functions and the version getters are not shown, so their results are inputs. An exception raised inside a probe (a failed register read) is not modelled.
- The `NameError` that device.py:76 raises as written, because `CTS602_DEVICE_TYPES` is never imported, is not modelled. The model checks membership in the given set instead.
- The contents of `ENTITY_MAP`, `DEVICE_TYPES`, `CTS602_DEVICE_TYPES` and `DOMAIN` are not shown, so they are parameters and the model does not guess them.
- Register values are modelled as integers: hardware type, bus version and the AIR/GEO flag. `supported_devices` is a list of type codes and the wildcard "all". The model makes `supported_devices` and `entity_type` required fields. In the source, a rule missing one of them fails with a `KeyError` only when it gets that far. `supported_devices` is read only once the path's minimum is present and reached, because `and` short-circuits (device.py:107-108, 127-128). `entity_type` is read only when the rule is recorded (116, 122, 133, 136). Before that point such a rule is silently skipped. The `KeyError` of a rule that reaches the read without the field is not modelled.
- Host-framework plumbing is not modelled: `async_setup_entry`, `async_unload_entry`, the `hass.data` registry, platform forwarding, the `ConfigEntryNotReady` wrapping and logging. `async_update_entry` is modelled as storing the new data on the entry.
- Config record values are only text or integers. The key order of the migrated data is not modelled, because the record is a Dafny `map`.
- Async suspension is not modelled: setup is one sequential pipeline.
