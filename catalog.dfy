/** The capability table: an ordered catalog of rule records, one per
    attribute key. The table's contents are not part of this model; a
    catalog is a parameter of everything that reads it. */
module Catalog {
  import opened Wrappers

  /** One element of a rule's `supported_devices` list: a hardware type code
      or the wildcard "all". */
  datatype DeviceTag = Code(code: int) | All

  /** One catalog entry. `key` is the attribute key of the table and
      `entityType` the platform it is exposed under; the optional fields are
      the rule record's optional keys. */
  datatype Rule = Rule(
    key: string,
    entityType: string,
    supportedDevices: seq<DeviceTag>,
    minBusVersion: Option<int>,
    minHpsBusVersion: Option<int>,
    maxBusVersion: Option<int>,
    excludedBusVersions: Option<seq<int>>,
    extraType: Option<string>)

  /** The catalog is a dictionary, so no key occurs twice. */
  ghost predicate UniqueKeys(c: seq<Rule>) {
    forall i, j :: 0 <= i < j < |c| ==> c[i].key != c[j].key
  }

  /** The device-match check: the hardware type is listed, or "all" is. */
  predicate DeviceMatches(r: Rule, hwType: int) {
    Code(hwType) in r.supportedDevices || All in r.supportedDevices
  }

  /** The bus version is on the rule's exclusion list. */
  predicate ExcludedVersion(r: Rule, busVersion: int) {
    r.excludedBusVersions.Some? && busVersion in r.excludedBusVersions.value
  }

  /** The bus version is at or above the rule's exclusive maximum. */
  predicate AtOrAboveMaximum(r: Rule, busVersion: int) {
    r.maxBusVersion.Some? && busVersion >= r.maxBusVersion.value
  }
}
