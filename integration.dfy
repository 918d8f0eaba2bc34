/** The integration entry points that carry logic of their own: the upgrade
    of a stored config record from version 1 to version 2, and the device
    registry descriptor an entity reports for its device. */
module AdlarIntegration {
  import opened AdlarDevice

  /** A value of a stored config record. */
  datatype Value = Text(text: string) | Number(number: int)

  /** A stored config record: its version and its key/value data. */
  datatype Record = Record(version: int, data: map<string, Value>)

  const ComTypeKey := "com_type"
  const BoardTypeKey := "board_type"

  /** The record after migration. A version-1 record becomes version 2 with
      `com_type` set to "tcp" and `board_type` to "AURORA", whatever they held
      before, and every other key kept; any other version is left alone. */
  function Migrated(r: Record): (m: Record)
    ensures m.version != 1
    ensures r.version == 1 ==> m.version == 2
    ensures r.version == 1 ==> m.data.Keys == r.data.Keys + {ComTypeKey, BoardTypeKey}
    ensures r.version == 1 ==> m.data[ComTypeKey] == Text("tcp") && m.data[BoardTypeKey] == Text("AURORA")
    ensures forall k :: k in r.data && k != ComTypeKey && k != BoardTypeKey ==> k in m.data && m.data[k] == r.data[k]
    ensures r.version != 1 ==> m == r
  {
    if r.version == 1 then Record(2, r.data[ComTypeKey := Text("tcp")][BoardTypeKey := Text("AURORA")]) else r
  }

  /** A config entry as the host holds it. */
  class ConfigEntry {
    var version: int
    var data: map<string, Value>

    constructor(version: int, data: map<string, Value>)
      ensures this.version == version && this.data == data
    {
      this.version := version;
      this.data := data;
    }

    function AsRecord(): Record
      reads this
    {
      Record(version, data)
    }
  }

  /** The migration hook: copy the data, overwrite the two keys, bump the
      version and store the new data on the entry. It always reports success. */
  method MigrateEntry(entry: ConfigEntry) returns (ok: bool)
    modifies entry
    ensures ok
    ensures entry.AsRecord() == Migrated(old(entry.AsRecord()))
  {
    if entry.version == 1 {
      var updated := entry.data;
      updated := updated[ComTypeKey := Text("tcp")];
      updated := updated[BoardTypeKey := Text("AURORA")];
      entry.version := 2;
      entry.data := updated;
    }
    ok := true;
  }

  /** The device registry descriptor. */
  datatype DeviceInfo = DeviceInfo(
    identifiers: set<(string, string)>,
    name: string,
    manufacturer: string,
    model: string,
    swVersion: string,
    hwVersion: string,
    suggestedArea: string)

  /** The descriptor of a device: one identifier in `domain`, made of the
      device name followed by the device type, which is also the model. */
  function ComposeDeviceInfo(domain: string, name: string, deviceType: string, swVersion: string, hwVersion: string)
    : (info: DeviceInfo)
    ensures |info.identifiers| == 1
    ensures forall ident :: ident in info.identifiers ==>
      ident.0 == domain && name <= ident.1 && ident.1[|name|..] == info.model
    ensures info.model == deviceType && info.name == name
    ensures info.swVersion == swVersion && info.hwVersion == hwVersion
    ensures info.manufacturer == "AdlarCastra" && info.suggestedArea == "Groundfloor"
  {
    var uniqueId := name + deviceType;
    assert uniqueId[|name|..] == deviceType;
    DeviceInfo({(domain, uniqueId)}, name, "AdlarCastra", deviceType, swVersion, hwVersion, "Groundfloor")
  }

  /** Two devices of the same name get the same identifier exactly when they
      have the same device type. */
  lemma IdentifierSeparatesTypes(domain: string, name: string, type1: string, type2: string,
                                 sw1: string, hw1: string, sw2: string, hw2: string)
    ensures ComposeDeviceInfo(domain, name, type1, sw1, hw1).identifiers
         == ComposeDeviceInfo(domain, name, type2, sw2, hw2).identifiers
        <==> type1 == type2
  {
    var i1 := ComposeDeviceInfo(domain, name, type1, sw1, hw1);
    var i2 := ComposeDeviceInfo(domain, name, type2, sw2, hw2);
    assert (domain, name + type1) in i1.identifiers;
    if i1.identifiers == i2.identifiers {
      assert (domain, name + type1) in i2.identifiers;
      assert (name + type1)[|name|..] == type1;
      assert (name + type2)[|name|..] == type2;
    }
  }

  /** An entity of the integration and the device it belongs to. */
  class AdlarEntity {
    const device: Device

    constructor(device: Device)
      ensures this.device == device
    {
      this.device := device;
    }

    /** `device_info`. */
    function GetDeviceInfo(domain: string): DeviceInfo
      reads device
    {
      ComposeDeviceInfo(domain, device.GetDeviceName(), device.GetDeviceType(),
                        device.GetDeviceSwVersion(), device.GetDeviceHwVersion())
    }
  }
}
