/** The capability resolver: the two loops over the catalog that decide which
    attribute keys a unit supports and under which platform each is exposed.
    `Step` follows the loop bodies branch by branch; `Selected` states the
    same decision as one condition per rule, and the lemmas connect the two. */
module Resolver {
  import opened Wrappers
  import opened OrderedDict
  import opened Catalog

  /** The resolved attribute map: attribute key to platform, in insertion order. */
  type Attributes = seq<Item<string, string>>

  /** What the resolver is given about the unit. `airGeoType` 0 selects the
      standard path, any other value the variant path. */
  datatype Identity = Identity(hwType: int, busVersion: int, airGeoType: int, co2Present: bool)

  /** The CO2 feature gate: the sensor is present and the rule asks for "co2". */
  predicate Co2Gate(r: Rule, id: Identity) {
    id.co2Present && r.extraType == Some("co2")
  }

  /** One iteration of the standard-path loop. A rule that passes the CO2 gate
      is recorded before the maximum is looked at, so the maximum cannot
      remove it again. */
  function StandardStep(d: Attributes, r: Rule, id: Identity): Attributes {
    if r.minBusVersion.None? then d
    else if !(id.busVersion >= r.minBusVersion.value && DeviceMatches(r, id.hwType)) then d
    else if ExcludedVersion(r, id.busVersion) then d
    else if r.extraType.Some? && !Co2Gate(r, id) then d
    else
      var recorded := if r.extraType.Some? then Put(d, r.key, r.entityType) else d;
      if AtOrAboveMaximum(r, id.busVersion) then recorded
      else Put(recorded, r.key, r.entityType)
  }

  /** One iteration of the variant-path loop: no exclusion list, no maximum. */
  function VariantStep(d: Attributes, r: Rule, id: Identity): Attributes {
    if r.minHpsBusVersion.None? then d
    else if !(id.busVersion >= r.minHpsBusVersion.value && DeviceMatches(r, id.hwType)) then d
    else if r.extraType.Some? && !Co2Gate(r, id) then d
    else
      var recorded := if r.extraType.Some? then Put(d, r.key, r.entityType) else d;
      Put(recorded, r.key, r.entityType)
  }

  function Step(d: Attributes, r: Rule, id: Identity): Attributes {
    if id.airGeoType == 0 then StandardStep(d, r, id) else VariantStep(d, r, id)
  }

  /** Both loops, run over the catalog `c` in order, starting from the map `d`. */
  function Resolve(d: Attributes, c: seq<Rule>, id: Identity): Attributes
    decreases |c|
  {
    if c == [] then d else Step(Resolve(d, c[..|c| - 1], id), c[|c| - 1], id)
  }

  /** The standard-path decision for one rule, as a single condition. */
  predicate StandardSelected(r: Rule, id: Identity) {
    && r.minBusVersion.Some?
    && id.busVersion >= r.minBusVersion.value
    && DeviceMatches(r, id.hwType)
    && !ExcludedVersion(r, id.busVersion)
    && (if r.extraType.Some? then Co2Gate(r, id) else !AtOrAboveMaximum(r, id.busVersion))
  }

  /** The variant-path decision for one rule, as a single condition. */
  predicate VariantSelected(r: Rule, id: Identity) {
    && r.minHpsBusVersion.Some?
    && id.busVersion >= r.minHpsBusVersion.value
    && DeviceMatches(r, id.hwType)
    && (r.extraType.Some? ==> Co2Gate(r, id))
  }

  predicate Selected(r: Rule, id: Identity) {
    if id.airGeoType == 0 then StandardSelected(r, id) else VariantSelected(r, id)
  }

  /** The selected rules' items, in catalog order: the reference the loops are
      measured against. */
  function Selection(c: seq<Rule>, id: Identity): Attributes {
    if c == [] then []
    else (if Selected(c[0], id) then [Item(c[0].key, c[0].entityType)] else []) + Selection(c[1..], id)
  }

  /** Each loop iteration records the rule's key exactly when the rule is selected. */
  lemma StepSelects(d: Attributes, r: Rule, id: Identity)
    ensures Step(d, r, id) == if Selected(r, id) then Put(d, r.key, r.entityType) else d
  {
    if id.airGeoType == 0 {
      StandardStepSelects(d, r, id);
    } else {
      VariantStepSelects(d, r, id);
    }
  }

  lemma StandardStepSelects(d: Attributes, r: Rule, id: Identity)
    ensures StandardStep(d, r, id) == if StandardSelected(r, id) then Put(d, r.key, r.entityType) else d
  {
    if StandardSelected(r, id) && r.extraType.Some? {
      PutTwice(d, r.key, r.entityType);
    }
  }

  lemma VariantStepSelects(d: Attributes, r: Rule, id: Identity)
    ensures VariantStep(d, r, id) == if VariantSelected(r, id) then Put(d, r.key, r.entityType) else d
  {
    if VariantSelected(r, id) && r.extraType.Some? {
      PutTwice(d, r.key, r.entityType);
    }
  }

  /** A key that no rule of the catalog carries keeps the value it had. */
  lemma {:induction false} ResolveOtherKeys(d: Attributes, c: seq<Rule>, id: Identity, k: string)
    requires forall i :: 0 <= i < |c| ==> c[i].key != k
    ensures Get(Resolve(d, c, id), k) == Get(d, k)
    decreases |c|
  {
    if c != [] {
      var n := |c| - 1;
      ResolveOtherKeys(d, c[..n], id, k);
      StepSelects(Resolve(d, c[..n], id), c[n], id);
    }
  }

  /** After both loops, a rule's key maps to its platform exactly when the rule
      is selected; otherwise the key keeps the value it had before. */
  lemma {:induction false} ResolveLookup(d: Attributes, c: seq<Rule>, id: Identity, i: int)
    requires UniqueKeys(c)
    requires 0 <= i < |c|
    ensures Get(Resolve(d, c, id), c[i].key)
         == if Selected(c[i], id) then Some(c[i].entityType) else Get(d, c[i].key)
    decreases |c|
  {
    var n := |c| - 1;
    var before := Resolve(d, c[..n], id);
    StepSelects(before, c[n], id);
    if i == n {
      ResolveOtherKeys(d, c[..n], id, c[i].key);
    } else {
      ResolveLookup(d, c[..n], id, i);
    }
  }

  lemma {:induction false} SelectionSnoc(c: seq<Rule>, r: Rule, id: Identity)
    ensures Selection(c + [r], id)
         == Selection(c, id) + (if Selected(r, id) then [Item(r.key, r.entityType)] else [])
  {
    if c != [] {
      assert (c + [r])[1..] == c[1..] + [r];
      SelectionSnoc(c[1..], r, id);
    } else {
      assert [r][1..] == [];
    }
  }

  /** Starting from a map that shares no key with the catalog, the loops append
      exactly the selected rules, in catalog order. */
  lemma {:induction false} ResolveIsSelection(d: Attributes, c: seq<Rule>, id: Identity)
    requires UniqueKeys(c)
    requires forall i :: 0 <= i < |c| ==> c[i].key !in Keys(d)
    ensures Resolve(d, c, id) == d + Selection(c, id)
    decreases |c|
  {
    if c == [] {
      assert d + [] == d;
    } else {
      var n := |c| - 1;
      var before := Resolve(d, c[..n], id);
      ResolveIsSelection(d, c[..n], id);
      StepSelects(before, c[n], id);
      ResolveOtherKeys(d, c[..n], id, c[n].key);
      if Selected(c[n], id) {
        PutAbsent(before, c[n].key, c[n].entityType);
      }
      assert c == c[..n] + [c[n]];
      SelectionSnoc(c[..n], c[n], id);
    }
  }

  /** The keys resolved from an empty map. */
  function ResolvedKeys(c: seq<Rule>, id: Identity): seq<string> {
    Keys(Resolve([], c, id))
  }

  /** On the standard path a key is resolved only when its rule has a
      `min_bus_version` that the bus version reaches and the device matches;
      a rule without `min_bus_version` is never resolved. */
  lemma StandardPathNeedsMinimum(c: seq<Rule>, id: Identity, i: int)
    requires UniqueKeys(c) && 0 <= i < |c|
    requires id.airGeoType == 0
    ensures c[i].key in ResolvedKeys(c, id) ==>
      && c[i].minBusVersion.Some?
      && id.busVersion >= c[i].minBusVersion.value
      && DeviceMatches(c[i], id.hwType)
    ensures c[i].minBusVersion.None? ==> c[i].key !in ResolvedKeys(c, id)
  {
    ResolveLookup([], c, id, i);
  }

  /** On the standard path a listed excluded bus version removes the rule,
      the CO2-gated ones included. */
  lemma ExcludedVersionRemoves(c: seq<Rule>, id: Identity, i: int)
    requires UniqueKeys(c) && 0 <= i < |c|
    requires id.airGeoType == 0
    requires ExcludedVersion(c[i], id.busVersion)
    ensures c[i].key !in ResolvedKeys(c, id)
  {
    ResolveLookup([], c, id, i);
  }

  /** On either path a rule with `extra_type` is resolved only when the CO2
      sensor is present and the extra type is "co2". */
  lemma Co2RuleNeedsSensor(c: seq<Rule>, id: Identity, i: int)
    requires UniqueKeys(c) && 0 <= i < |c|
    requires c[i].extraType.Some?
    ensures c[i].key in ResolvedKeys(c, id) ==> id.co2Present && c[i].extraType.value == "co2"
  {
    ResolveLookup([], c, id, i);
  }

  /** On the standard path a rule that passes the CO2 gate, the minimum, the
      device match and the exclusion list is resolved whatever its maximum. */
  lemma Co2RuleIgnoresMaximum(c: seq<Rule>, id: Identity, i: int)
    requires UniqueKeys(c) && 0 <= i < |c|
    requires id.airGeoType == 0
    requires c[i].minBusVersion.Some? && id.busVersion >= c[i].minBusVersion.value
    requires DeviceMatches(c[i], id.hwType) && !ExcludedVersion(c[i], id.busVersion)
    requires Co2Gate(c[i], id)
    ensures Get(Resolve([], c, id), c[i].key) == Some(c[i].entityType)
  {
    ResolveLookup([], c, id, i);
  }

  /** A one-rule catalog whose CO2 rule has a maximum at or below the bus
      version: the rule is still resolved. */
  lemma Co2MaximumExample()
    ensures
      var r := Rule("co2_level", "sensor", [All], Some(0), None, Some(5), None, Some("co2"));
      Resolve([], [r], Identity(13, 12, 0, true)) == [Item("co2_level", "sensor")]
  {
    var r := Rule("co2_level", "sensor", [All], Some(0), None, Some(5), None, Some("co2"));
    var id := Identity(13, 12, 0, true);
    assert [r][..0] == [];
    StepSelects([], r, id);
  }

  /** On the standard path a rule without `extra_type` that passes the
      minimum, the device match and the exclusion list is resolved exactly
      when the bus version is below its maximum. */
  lemma MaximumIsExclusive(c: seq<Rule>, id: Identity, i: int)
    requires UniqueKeys(c) && 0 <= i < |c|
    requires id.airGeoType == 0
    requires c[i].extraType.None? && c[i].maxBusVersion.Some?
    requires c[i].minBusVersion.Some? && id.busVersion >= c[i].minBusVersion.value
    requires DeviceMatches(c[i], id.hwType) && !ExcludedVersion(c[i], id.busVersion)
    ensures c[i].key in ResolvedKeys(c, id) <==> id.busVersion < c[i].maxBusVersion.value
  {
    ResolveLookup([], c, id, i);
  }

  /** On the variant path a rule is resolved exactly when it has a
      `min_hps_bus_version` that the bus version reaches, the device matches
      and, for a rule with `extra_type`, the CO2 gate passes. */
  lemma VariantPathRule(c: seq<Rule>, id: Identity, i: int)
    requires UniqueKeys(c) && 0 <= i < |c|
    requires id.airGeoType != 0
    ensures c[i].key in ResolvedKeys(c, id) <==>
      && c[i].minHpsBusVersion.Some?
      && id.busVersion >= c[i].minHpsBusVersion.value
      && DeviceMatches(c[i], id.hwType)
      && (c[i].extraType.Some? ==> Co2Gate(c[i], id))
  {
    ResolveLookup([], c, id, i);
  }

  /** A resolved key belongs to a catalog rule that is selected, and maps to
      that rule's platform. */
  lemma ResolvedFromCatalog(c: seq<Rule>, id: Identity, k: string)
    requires UniqueKeys(c)
    requires k in ResolvedKeys(c, id)
    ensures exists i :: 0 <= i < |c| && c[i].key == k && Selected(c[i], id)
                        && Get(Resolve([], c, id), k) == Some(c[i].entityType)
  {
    if forall i :: 0 <= i < |c| ==> c[i].key != k {
      ResolveOtherKeys([], c, id, k);
      assert false;
    }
    var i :| 0 <= i < |c| && c[i].key == k;
    ResolveLookup([], c, id, i);
  }

  /** No key is resolved twice. */
  lemma {:induction false} ResolveKeepsDistinct(d: Attributes, c: seq<Rule>, id: Identity)
    requires Distinct(Keys(d))
    ensures Distinct(Keys(Resolve(d, c, id)))
    decreases |c|
  {
    if c != [] {
      var n := |c| - 1;
      ResolveKeepsDistinct(d, c[..n], id);
      StepSelects(Resolve(d, c[..n], id), c[n], id);
      PutKeepsDistinct(Resolve(d, c[..n], id), c[n].key, c[n].entityType);
    }
  }

  /** On the standard path, raising the bus version keeps a resolved rule
      resolved as long as the new version is neither excluded nor, for a rule
      without `extra_type`, at or above the maximum. */
  lemma BusVersionMonotone(c: seq<Rule>, hwType: int, b: int, b': int, co2: bool, i: int)
    requires UniqueKeys(c) && 0 <= i < |c|
    requires b <= b'
    requires !ExcludedVersion(c[i], b')
    requires c[i].extraType.None? ==> !AtOrAboveMaximum(c[i], b')
    requires c[i].key in ResolvedKeys(c, Identity(hwType, b, 0, co2))
    ensures c[i].key in ResolvedKeys(c, Identity(hwType, b', 0, co2))
  {
    ResolveLookup([], c, Identity(hwType, b, 0, co2), i);
    ResolveLookup([], c, Identity(hwType, b', 0, co2), i);
  }

  /** The rule with the fields only the standard path reads cleared. */
  function WithoutStandardFields(r: Rule): Rule {
    r.(minBusVersion := None, maxBusVersion := None, excludedBusVersions := None)
  }

  /** The rule with the field only the variant path reads cleared. */
  function WithoutVariantField(r: Rule): Rule {
    r.(minHpsBusVersion := None)
  }

  function StripStandardFields(c: seq<Rule>): (s: seq<Rule>)
    ensures |s| == |c| && forall i :: 0 <= i < |c| ==> s[i] == WithoutStandardFields(c[i])
  {
    if c == [] then [] else [WithoutStandardFields(c[0])] + StripStandardFields(c[1..])
  }

  function StripVariantField(c: seq<Rule>): (s: seq<Rule>)
    ensures |s| == |c| && forall i :: 0 <= i < |c| ==> s[i] == WithoutVariantField(c[i])
  {
    if c == [] then [] else [WithoutVariantField(c[0])] + StripVariantField(c[1..])
  }

  lemma VariantStepIgnoresStandardFields(d: Attributes, r: Rule, id: Identity)
    ensures VariantStep(d, WithoutStandardFields(r), id) == VariantStep(d, r, id)
  {
  }

  lemma StandardStepIgnoresVariantField(d: Attributes, r: Rule, id: Identity)
    ensures StandardStep(d, WithoutVariantField(r), id) == StandardStep(d, r, id)
  {
  }

  /** The variant path never reads `min_bus_version`, `max_bus_version` or
      `excluded_bus_versions`. */
  lemma {:induction false} VariantPathIgnoresStandardFields(d: Attributes, c: seq<Rule>, id: Identity)
    requires id.airGeoType != 0
    ensures Resolve(d, c, id) == Resolve(d, StripStandardFields(c), id)
    decreases |c|
  {
    if c != [] {
      var n := |c| - 1;
      var s := StripStandardFields(c);
      assert s[..n] == StripStandardFields(c[..n]);
      VariantPathIgnoresStandardFields(d, c[..n], id);
      var before := Resolve(d, c[..n], id);
      assert Resolve(d, s, id) == VariantStep(before, s[n], id);
      VariantStepIgnoresStandardFields(before, c[n], id);
    }
  }

  /** The standard path never reads `min_hps_bus_version`. */
  lemma {:induction false} StandardPathIgnoresVariantField(d: Attributes, c: seq<Rule>, id: Identity)
    requires id.airGeoType == 0
    ensures Resolve(d, c, id) == Resolve(d, StripVariantField(c), id)
    decreases |c|
  {
    if c != [] {
      var n := |c| - 1;
      var s := StripVariantField(c);
      assert s[..n] == StripVariantField(c[..n]);
      StandardPathIgnoresVariantField(d, c[..n], id);
      var before := Resolve(d, c[..n], id);
      assert Resolve(d, s, id) == StandardStep(before, s[n], id);
      StandardStepIgnoresVariantField(before, c[n], id);
    }
  }
}
