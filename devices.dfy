/**
 * The app's `Device` record (a Kotlin data class with mutable `connected`, `rssi` and
 * `batteryLevel`), the value it holds at one moment, and the pure operations on lists of those
 * values that the activity performs: insertion deduplicated by address, the battery update of the
 * record whose address matches, the text labels shown while scanning, the "Coolzen" parse of
 * those labels and the name filter of the results screen.
 */
module Devices {
  import opened Wrappers
  import opened Text
  import opened Bluetooth

  /** What one `Device` object holds at one moment. */
  datatype DeviceRecord = DeviceRecord(
    name: Option<string>,
    address: Option<string>,
    connected: bool,
    rssi: int,
    batteryLevel: Option<int>)

  /** A record as `Device(name, address, rssi = rssi)` creates it: not connected, battery unknown. */
  function Discovered(name: Option<string>, address: Option<string>, rssi: int): DeviceRecord
  {
    DeviceRecord(name, address, false, rssi, None)
  }

  /** The mutable `Device` object shared between the device list and the GATT callbacks. */
  class Device {
    const name: Option<string>
    const address: Option<string>
    var connected: bool
    var rssi: int
    var batteryLevel: Option<int>

    constructor (name: Option<string>, address: Option<string>, rssi: int)
      ensures Record() == Discovered(name, address, rssi)
    {
      this.name := name;
      this.address := address;
      this.connected := false;
      this.rssi := rssi;
      this.batteryLevel := None;
    }

    /** The current value of this object. */
    function Record(): DeviceRecord
      reads this
    {
      DeviceRecord(name, address, connected, rssi, batteryLevel)
    }
  }

  /** The values of a list of devices, element by element. */
  function Records(ds: seq<Device>): (rs: seq<DeviceRecord>)
    reads set d | d in ds
    ensures |rs| == |ds|
    ensures forall k :: 0 <= k < |ds| ==> rs[k] == ds[k].Record()
  {
    if ds == [] then [] else [ds[0].Record()] + Records(ds[1..])
  }

  /** Kotlin's `any { it.address == address }`. */
  predicate Known(rs: seq<DeviceRecord>, address: Option<string>)
  {
    exists k :: 0 <= k < |rs| && rs[k].address == address
  }

  /** No two records share an address. */
  predicate UniqueAddresses(rs: seq<DeviceRecord>)
  {
    forall j, k :: 0 <= j < k < |rs| ==> rs[j].address != rs[k].address
  }

  /** No element occurs twice. */
  predicate Distinct<T(==)>(s: seq<T>)
  {
    forall j, k :: 0 <= j < k < |s| ==> s[j] != s[k]
  }

  /** `a` is an initial segment of `b`: every earlier entry keeps its place and value. */
  predicate IsPrefix<T(==)>(a: seq<T>, b: seq<T>)
  {
    |a| <= |b| && b[..|a|] == a
  }

  /**
   * The device list after a sighting: `r` is appended when no record has its address yet, and
   * otherwise the list is left as it is (the earlier record keeps its RSSI).
   */
  function InsertIfAbsent(rs: seq<DeviceRecord>, r: DeviceRecord): (after: seq<DeviceRecord>)
    ensures forall a :: Known(after, a) <==> Known(rs, a) || a == r.address
  {
    if Known(rs, r.address) then rs
    else
      var after := rs + [r];
      assert forall k :: 0 <= k < |rs| ==> after[k] == rs[k];
      assert after[|rs|] == r;
      after
  }

  /** Insertion keeps every existing entry, adds at most one at the end, and that one is `r`. */
  lemma InsertIfAbsentShape(rs: seq<DeviceRecord>, r: DeviceRecord)
    ensures IsPrefix(rs, InsertIfAbsent(rs, r))
    ensures |InsertIfAbsent(rs, r)| == if Known(rs, r.address) then |rs| else |rs| + 1
    ensures !Known(rs, r.address) ==> InsertIfAbsent(rs, r)[|rs|] == r
    ensures Known(InsertIfAbsent(rs, r), r.address)
  {
  }

  /** Insertion never creates a second record for an address. */
  lemma InsertIfAbsentKeepsUnique(rs: seq<DeviceRecord>, r: DeviceRecord)
    requires UniqueAddresses(rs)
    ensures UniqueAddresses(InsertIfAbsent(rs, r))
  {
  }

  /** A second sighting of the same address, whatever its name or RSSI, changes nothing. */
  lemma InsertIfAbsentIdempotent(rs: seq<DeviceRecord>, r: DeviceRecord, again: DeviceRecord)
    requires again.address == r.address
    ensures InsertIfAbsent(InsertIfAbsent(rs, r), again) == InsertIfAbsent(rs, r)
  {
    InsertIfAbsentShape(rs, r);
  }

  /** The device list after a sequence of sightings, each inserted in turn. */
  function AfterSightings(rs: seq<DeviceRecord>, sightings: seq<DeviceRecord>): seq<DeviceRecord>
    decreases |sightings|
  {
    if sightings == [] then rs
    else AfterSightings(InsertIfAbsent(rs, sightings[0]), sightings[1..])
  }

  /**
   * After any sequence of sightings the list holds one record per address: the records that were
   * there stay in place, every sighted address is present, and nothing else is added.
   */
  lemma {:induction false} AfterSightingsRegistry(rs: seq<DeviceRecord>, sightings: seq<DeviceRecord>)
    requires UniqueAddresses(rs)
    ensures UniqueAddresses(AfterSightings(rs, sightings))
    ensures IsPrefix(rs, AfterSightings(rs, sightings))
    ensures forall a :: Known(AfterSightings(rs, sightings), a) <==> Known(rs, a) || Known(sightings, a)
    decreases |sightings|
  {
    if sightings != [] {
      var next := InsertIfAbsent(rs, sightings[0]);
      InsertIfAbsentKeepsUnique(rs, sightings[0]);
      InsertIfAbsentShape(rs, sightings[0]);
      AfterSightingsRegistry(next, sightings[1..]);
      var result := AfterSightings(rs, sightings);
      assert result == AfterSightings(next, sightings[1..]);
      assert IsPrefix(rs, result) by {
        assert result[..|next|] == next;
        assert next[..|rs|] == rs;
        assert result[..|rs|] == result[..|next|][..|rs|];
      }
      forall a ensures Known(next, a) <==> Known(rs, a) || a == sightings[0].address {
        if Known(next, a) && !Known(rs, a) {
          var k :| 0 <= k < |next| && next[k].address == a;
          assert k == |rs|;
        }
        if Known(rs, a) {
          var k :| 0 <= k < |rs| && rs[k].address == a;
          assert next[k] == rs[k];
        }
      }
      forall a ensures Known(sightings, a) <==> a == sightings[0].address || Known(sightings[1..], a) {
        if Known(sightings, a) && a != sightings[0].address {
          var k :| 0 <= k < |sightings| && sightings[k].address == a;
          assert sightings[1..][k - 1].address == a;
        }
        if Known(sightings[1..], a) {
          var k :| 0 <= k < |sightings[1..]| && sightings[1..][k].address == a;
          assert sightings[k + 1].address == a;
        }
      }
    }
  }

  /** Kotlin's `find { it.address == address }`, as a position: the first record with that address. */
  function FirstIndexOf(rs: seq<DeviceRecord>, address: Option<string>): (r: Option<nat>)
    ensures r.Some? ==> r.value < |rs| && rs[r.value].address == address
    ensures r.Some? ==> forall j :: 0 <= j < r.value ==> rs[j].address != address
    ensures r.None? <==> !Known(rs, address)
  {
    if rs == [] then None
    else if rs[0].address == address then Some(0)
    else match FirstIndexOf(rs[1..], address)
      case None => None
      case Some(k) => Some(k + 1)
  }

  /** The device list after a battery reading for `address`: the first record with that address gets `level`. */
  function WithBattery(rs: seq<DeviceRecord>, address: Option<string>, level: Option<int>): (after: seq<DeviceRecord>)
    ensures |after| == |rs|
    ensures forall k :: 0 <= k < |rs| ==> after[k] == rs[k].(batteryLevel := after[k].batteryLevel)
    ensures forall k :: 0 <= k < |rs| && after[k] != rs[k] ==> after[k].batteryLevel == level && rs[k].address == address
    ensures forall k :: 0 <= k < |rs| && rs[k].address == address && (forall j :: 0 <= j < k ==> rs[j].address != address) ==>
      after[k].batteryLevel == level
    ensures forall k :: 0 <= k < |rs| && after[k] != rs[k] ==> forall j :: 0 <= j < k ==> rs[j].address != address
  {
    match FirstIndexOf(rs, address)
    case None => rs
    case Some(k) => rs[k := rs[k].(batteryLevel := level)]
  }

  /**
   * A battery reading touches only the battery level and only of a record with the reading's
   * address; when addresses are unique, that record is the one with the address.
   */
  lemma WithBatteryEffect(rs: seq<DeviceRecord>, address: Option<string>, level: Option<int>)
    ensures |WithBattery(rs, address, level)| == |rs|
    ensures forall k :: 0 <= k < |rs| ==>
      WithBattery(rs, address, level)[k] == rs[k] || WithBattery(rs, address, level)[k] == rs[k].(batteryLevel := level)
    ensures forall k :: 0 <= k < |rs| && rs[k].address != address ==> WithBattery(rs, address, level)[k] == rs[k]
    ensures !Known(rs, address) ==> WithBattery(rs, address, level) == rs
    ensures UniqueAddresses(rs) ==> forall k :: 0 <= k < |rs| && rs[k].address == address ==>
      WithBattery(rs, address, level)[k] == rs[k].(batteryLevel := level)
    ensures UniqueAddresses(rs) ==> UniqueAddresses(WithBattery(rs, address, level))
  {
  }

  /** The name a device label shows for a device without one. */
  const UnknownName: string := "Unknown Device"

  /** The address a BLE label shows for a result without a device address. */
  const PlaceholderAddress: string := "00:01:02:03:04:05"

  /** The name shown in a label. */
  function NameText(name: Option<string>): string
  {
    name.GetOr(UnknownName)
  }

  /** The BLE scan label: `"<name> - <address> - RSSI: <rssi> dBm"`, with `null` for a missing result. */
  function BleLabel(result: Option<ScanResult>): (text: string)
    ensures var name := if result.Some? && result.value.device.Some? then result.value.device.value.name else None;
      |NameText(name)| + |Sep| <= |text| && text[..|NameText(name)| + |Sep|] == NameText(name) + Sep
    ensures |text| >= 4 && text[|text| - 4..] == " dBm"
  {
    var device := if result.Some? then result.value.device else None;
    var name := if device.Some? then device.value.name else None;
    var address := if device.Some? then device.value.address else None;
    var rssiText := if result.Some? then IntToDecimal(result.value.rssi) else "null";
    NameText(name) + Sep + address.GetOr(PlaceholderAddress) + Sep + "RSSI: " + rssiText + " dBm"
  }

  /** A string without spaces cannot hold a separator, neither inside it nor straddling its end. */
  lemma NoSpaceIsClean(a: string)
    requires forall k :: 0 <= k < |a| ==> a[k] != ' '
    ensures Clean(a) && NoSep(a)
  {
    forall j | 0 <= j < |a| ensures !SepAt(a + Sep, j) {
      assert j + |Sep| <= |a + Sep| ==> (a + Sep)[j..j + |Sep|][0] == a[j];
    }
    forall j | 0 <= j <= |a| ensures !SepAt(a, j) {
      assert j + |Sep| <= |a| ==> a[j..j + |Sep|][0] == a[j];
    }
  }

  /** The BLE label of a result with a device, regrouped as name, separator and the rest. */
  lemma BleLabelParts(result: Option<ScanResult>, name: string, address: string, rest: string)
    requires result.Some? && result.value.device.Some?
    requires NameText(result.value.device.value.name) == name
    requires result.value.device.value.address.GetOr(PlaceholderAddress) == address
    requires rest == "RSSI: " + IntToDecimal(result.value.rssi) + " dBm"
    ensures BleLabel(result) == name + Sep + (address + Sep + rest)
  {
  }

  /**
   * Splitting a BLE label gives back the name and the address it was built from as its first two
   * fields, and the RSSI text as its third and last, so long as neither name nor address holds a
   * " - " of its own.
   */
  lemma BleLabelFields(result: Option<ScanResult>, name: string, address: string)
    requires result.Some? && result.value.device.Some?
    requires NameText(result.value.device.value.name) == name
    requires result.value.device.value.address.GetOr(PlaceholderAddress) == address
    requires Clean(name) && Clean(address)
    ensures |Split(BleLabel(result))| >= 2
    ensures Split(BleLabel(result))[0] == name && Split(BleLabel(result))[1] == address
    ensures Split(BleLabel(result)) == [name, address, "RSSI: " + IntToDecimal(result.value.rssi) + " dBm"]
  {
    var rest := "RSSI: " + IntToDecimal(result.value.rssi) + " dBm";
    BleLabelParts(result, name, address, rest);
    SplitAfterClean(name, address + Sep + rest);
    SplitAfterClean(address, rest);
    RssiTextNoSep(result.value.rssi);
    SingleFieldIff(rest);
  }

  /**
   * A BLE label determines its RSSI: two sightings of one device with different RSSI values give
   * different labels, so the `contains` check lists both.
   */
  lemma BleLabelDeterminesRssi(r1: Option<ScanResult>, r2: Option<ScanResult>)
    requires r1.Some? && r2.Some? && r1.value.device == r2.value.device
    requires BleLabel(r1) == BleLabel(r2)
    ensures r1.value.rssi == r2.value.rssi
  {
    var device := r1.value.device;
    var name := if device.Some? then device.value.name else None;
    var address := if device.Some? then device.value.address else None;
    var prefix := NameText(name) + Sep + address.GetOr(PlaceholderAddress) + Sep + "RSSI: ";
    var d1, d2 := IntToDecimal(r1.value.rssi), IntToDecimal(r2.value.rssi);
    assert BleLabel(r1) == prefix + d1 + " dBm";
    assert BleLabel(r2) == prefix + d2 + " dBm";
    assert d1 == BleLabel(r1)[|prefix|..|prefix| + |d1|];
    assert d2 == BleLabel(r2)[|prefix|..|prefix| + |d2|];
    IntToDecimalInjective(r1.value.rssi, r2.value.rssi);
  }

  /** The only device name the app shows and parses. */
  const CoolzenName: string := "Coolzen"

  /** The first `" - "` field of the label is the Coolzen name. */
  predicate IsCoolzenLabel(text: string)
  {
    FirstField(text) == CoolzenName
  }

  /** The error `component2()` throws when a kept label has no second field. */
  datatype ParseError = IndexOutOfBounds

  /** The `map` step: `Device(name, address)` from the first two fields of each label, in order. */
  function ParseLabels(kept: seq<string>): (r: Result<seq<DeviceRecord>, ParseError>)
    ensures r.Ok? <==> forall k :: 0 <= k < |kept| ==> |Split(kept[k])| >= 2
    ensures r.Ok? ==> |r.value| == |kept|
    ensures r.Ok? ==> forall k :: 0 <= k < |kept| ==>
      r.value[k] == Discovered(Some(Split(kept[k])[0]), Some(Split(kept[k])[1]), 0)
  {
    if kept == [] then Ok([])
    else
      var fields := Split(kept[0]);
      if |fields| < 2 then Err(IndexOutOfBounds)
      else match ParseLabels(kept[1..])
        case Err(e) => Err(e)
        case Ok(tail) => Ok([Discovered(Some(fields[0]), Some(fields[1]), 0)] + tail)
  }

  /**
   * The "Coolzen" update of the device list: the labels whose first field is "Coolzen", in order,
   * each turned into a fresh record named "Coolzen" whose address is the label's second field.
   * It throws exactly when the bare label "Coolzen", which has no second field, is among them.
   */
  function CoolzenDevices(labels: seq<string>): (r: Result<seq<DeviceRecord>, ParseError>)
    ensures r.Ok? <==> CoolzenName !in labels
    ensures r.Ok? ==> |r.value| == |Filter(labels, IsCoolzenLabel)|
    ensures r.Ok? ==> forall k :: 0 <= k < |r.value| ==>
      r.value[k] == Discovered(Some(CoolzenName), Some(Split(Filter(labels, IsCoolzenLabel)[k])[1]), 0)
  {
    var kept := Filter(labels, IsCoolzenLabel);
    CoolzenOnlyBareLabelFails(labels);
    ParseLabels(kept)
  }

  /** The bare name is a label of one field. */
  lemma CoolzenSingleField()
    ensures Split(CoolzenName) == [CoolzenName]
  {
    NoSpaceIsClean(CoolzenName);
    SingleFieldIff(CoolzenName);
  }

  /** Among the kept labels, the one without a second field is exactly the bare name. */
  lemma CoolzenOnlyBareLabelFails(labels: seq<string>)
    ensures (forall k :: 0 <= k < |Filter(labels, IsCoolzenLabel)| ==> |Split(Filter(labels, IsCoolzenLabel)[k])| >= 2)
      <==> CoolzenName !in labels
  {
    var kept := Filter(labels, IsCoolzenLabel);
    CoolzenSingleField();
    if CoolzenName in labels {
      var i :| 0 <= i < |labels| && labels[i] == CoolzenName;
      assert IsCoolzenLabel(labels[i]);
      assert CoolzenName in kept;
      var k :| 0 <= k < |kept| && kept[k] == CoolzenName;
      assert |Split(kept[k])| == 1;
    } else {
      forall k | 0 <= k < |kept| ensures |Split(kept[k])| >= 2 {
        SingleFieldIff(kept[k]);
        assert kept[k] in labels;
      }
    }
  }

  /** A single label with "Coolzen" as its first field and a second field becomes one record. */
  lemma CoolzenSingleLabel(text: string)
    requires |Split(text)| >= 2 && Split(text)[0] == CoolzenName
    ensures CoolzenDevices([text]) == Ok([Discovered(Some(CoolzenName), Some(Split(text)[1]), 0)])
  {
    assert IsCoolzenLabel(text);
    assert Filter([text], IsCoolzenLabel) == [text] by {
      assert [text][1..] == [];
    }
    assert text != CoolzenName by {
      CoolzenSingleField();
    }
    var r := CoolzenDevices([text]);
    assert r.Ok? && |r.value| == 1;
    assert r.value[0] == Discovered(Some(CoolzenName), Some(Split(text)[1]), 0);
    assert r.value == [r.value[0]];
  }

  /** A BLE label from a device named "Coolzen" becomes one record with that address, its RSSI dropped. */
  lemma CoolzenFromBleLabel(result: Option<ScanResult>, address: string)
    requires result.Some? && result.value.device.Some?
    requires result.value.device.value.name == Some(CoolzenName)
    requires result.value.device.value.address.GetOr(PlaceholderAddress) == address
    requires Clean(address)
    ensures CoolzenDevices([BleLabel(result)]) == Ok([Discovered(Some(CoolzenName), Some(address), 0)])
  {
    NoSpaceIsClean(CoolzenName);
    BleLabelFields(result, CoolzenName, address);
    CoolzenSingleLabel(BleLabel(result));
  }

  /** The results screen's list: the records named "Coolzen", in order. */
  function ShownDevices(rs: seq<DeviceRecord>): (shown: seq<DeviceRecord>)
    ensures forall k :: 0 <= k < |shown| ==> shown[k].name == Some(CoolzenName) && shown[k] in rs
    ensures forall k :: 0 <= k < |rs| && rs[k].name == Some(CoolzenName) ==> rs[k] in shown
  {
    Filter(rs, (r: DeviceRecord) => r.name == Some(CoolzenName))
  }
}
