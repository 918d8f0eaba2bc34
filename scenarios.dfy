/** Concrete units: lemmas about the resolver on one-rule catalogs, and a
    client of the setup sequence whose assertions follow from its contract. */
module Scenarios {
  import opened Wrappers
  import opened OrderedDict
  import opened Catalog
  import opened Resolver
  import opened AdlarDevice

  /** A one-rule catalog resolves to that rule's item or to nothing. */
  lemma {:induction false} SingleRule(r: Rule, id: Identity)
    ensures Resolve([], [r], id) == if Selected(r, id) then [Item(r.key, r.entityType)] else []
  {
    assert [r][..0] == [];
    StepSelects([], r, id);
  }

  /** A variant unit (type 44, AIR, bus 12) gets a variant rule with minimum 10
      listed for type 44 and "all". */
  lemma VariantUnitGetsVariantRule()
    ensures
      var r := Rule("compressor_hours", "sensor", [Code(44), All], None, Some(10), None, None, None);
      Resolve([], [r], Identity(44, 12, 1, false)) == [Item("compressor_hours", "sensor")]
  {
    SingleRule(Rule("compressor_hours", "sensor", [Code(44), All], None, Some(10), None, None, None),
               Identity(44, 12, 1, false));
  }

  /** Bus version 9 is below a minimum of 10. */
  lemma BelowMinimumIsSkipped()
    ensures
      var r := Rule("eco_mode", "switch", [Code(10)], Some(10), None, None, None, None);
      Resolve([], [r], Identity(10, 9, 0, false)) == []
  {
    SingleRule(Rule("eco_mode", "switch", [Code(10)], Some(10), None, None, None, None),
               Identity(10, 9, 0, false));
  }

  /** Bus version 15 on the exclusion list removes an otherwise matching rule. */
  lemma ExcludedVersionIsSkipped()
    ensures
      var r := Rule("eco_mode", "switch", [Code(10)], Some(10), None, None, Some([15]), None);
      Resolve([], [r], Identity(10, 15, 0, false)) == []
  {
    SingleRule(Rule("eco_mode", "switch", [Code(10)], Some(10), None, None, Some([15]), None),
               Identity(10, 15, 0, false));
  }

  /** Without the CO2 sensor a CO2 rule is skipped even when all else matches. */
  lemma AbsentSensorSkipsCo2Rule()
    ensures
      var r := Rule("co2_level", "sensor", [All], Some(0), None, None, None, Some("co2"));
      Resolve([], [r], Identity(10, 12, 0, false)) == []
  {
    SingleRule(Rule("co2_level", "sensor", [All], Some(0), None, None, None, Some("co2")),
               Identity(10, 12, 0, false));
  }

  /** An unsupported hardware type fails setup with the hub closed, and a
      supported standard unit below bus version 10 is not asked for CO2. */
  method SetupClient() {
    var unknown := new Device("pump");
    var p := Probes(true, Some(999), Some(12), 0, "2.1", true, "1.0");
    var outcome := unknown.Setup(p, [], {10, 44}, map[10 := "COMPACT", 44 := "AURORA"]);
    assert outcome == Raised(HwTypeUnsupported);
    assert unknown.closed && unknown.attributes == [];

    var standard := new Device("pump");
    var q := Probes(true, Some(10), Some(9), 2, "2.1", true, "1.0");
    outcome := standard.Setup(q, [], {10, 44}, map[10 := "COMPACT", 44 := "AURORA"]);
    assert outcome == Ready && !standard.closed;
    assert standard.airGeoType == 0 && standard.deviceType == "COMPACT";
    assert ReadAirGeo !in standard.issued && ReadCo2Present !in standard.issued;
  }
}
