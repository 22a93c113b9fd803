/**
 * `DeviceViewModel`: a scan flag, a list of text labels appended to on every BLE result, and the
 * MAC address formatter those labels use.
 */
module ViewModel {
  import opened Wrappers
  import opened Bluetooth
  import Text
  import Devices

  /** What the formatter returns for an address that is missing or not twelve characters long. */
  const ZeroMac: string := "00:00:00:00:00:00"

  /** The characters of `m` in pairs with a colon between consecutive pairs. */
  function Grouped(m: string): string
  {
    if |m| <= 2 then m else m[..2] + ":" + Grouped(m[2..])
  }

  /** The inverse of `Grouped`: every third character, the separator, is dropped. */
  function Ungrouped(r: string): string
  {
    if |r| <= 2 then r else r[..2] + Ungrouped(r[3..])
  }

  /** `r` with every colon removed. */
  function WithoutColons(r: string): string
  {
    if r == [] then [] else (if r[0] == ':' then [] else [r[0]]) + WithoutColons(r[1..])
  }

  /** The address `formatMacAddress` produces: twelve characters in colon-separated pairs, else all zeros. */
  function MacFormat(mac: Option<string>): (r: string)
    ensures |r| == 17
    ensures mac.Some? && |mac.value| == 12 ==> Ungrouped(r) == mac.value
    ensures mac.None? || |mac.value| != 12 ==> r == ZeroMac
  {
    if mac.None? || |mac.value| == 0 || |mac.value| != 12 then ZeroMac
    else
      GroupedAt(mac.value);
      UngroupedGrouped(mac.value);
      Grouped(mac.value)
  }

  /** Position by position, a grouping of an even-length string is its pairs with separators between. */
  lemma {:induction false} GroupedAt(m: string)
    requires |m| >= 2 && |m| % 2 == 0
    ensures |Grouped(m)| == |m| + |m| / 2 - 1
    ensures forall k :: 0 <= k < |Grouped(m)| ==>
      Grouped(m)[k] == if k % 3 == 2 then ':' else m[k - k / 3]
  {
    if |m| > 2 {
      var tail := m[2..];
      GroupedAt(tail);
      var g := Grouped(m);
      assert g == m[..2] + ":" + Grouped(tail);
      forall k | 3 <= k < |g| ensures g[k] == if k % 3 == 2 then ':' else m[k - k / 3] {
        assert g[k] == Grouped(tail)[k - 3];
        assert (k - 3) % 3 == k % 3 && (k - 3) / 3 == k / 3 - 1;
      }
    }
  }

  /** Ungrouping undoes grouping, whatever the characters: nothing is validated or case-changed. */
  lemma {:induction false} UngroupedGrouped(m: string)
    ensures Ungrouped(Grouped(m)) == m
  {
    if |m| > 2 {
      var g := Grouped(m);
      assert g[..2] == m[..2];
      assert g[3..] == Grouped(m[2..]);
      UngroupedGrouped(m[2..]);
      assert m == m[..2] + m[2..];
    }
  }

  /** Removing colons distributes over concatenation. */
  lemma {:induction false} WithoutColonsAppend(a: string, b: string)
    ensures WithoutColons(a + b) == WithoutColons(a) + WithoutColons(b)
  {
    if a == [] {
      assert a + b == b;
    } else {
      assert (a + b)[0] == a[0] && (a + b)[1..] == a[1..] + b;
      WithoutColonsAppend(a[1..], b);
    }
  }

  /** A string without colons is left as it is. */
  lemma {:induction false} WithoutColonsNone(s: string)
    requires ':' !in s
    ensures WithoutColons(s) == s
  {
    if s != [] {
      assert ':' !in s[1..];
      WithoutColonsNone(s[1..]);
      assert s == [s[0]] + s[1..];
    }
  }

  /** Removing the colons also gives the input back, provided the input had no colon of its own. */
  lemma {:induction false} WithoutColonsGrouped(m: string)
    requires ':' !in m
    ensures WithoutColons(Grouped(m)) == m
  {
    if |m| <= 2 {
      WithoutColonsNone(m);
    } else {
      var tail := Grouped(m[2..]);
      assert ':' !in m[..2] && ':' !in m[2..];
      WithoutColonsGrouped(m[2..]);
      WithoutColonsNone(m[..2]);
      WithoutColonsAppend(m[..2] + ":", tail);
      WithoutColonsAppend(m[..2], ":");
      assert WithoutColons(":") == [];
      assert m == m[..2] + m[2..];
    }
  }

  /**
   * Shape of a formatted address: seventeen characters with colons at 2, 5, 8, 11 and 14 and the
   * twelve input characters, verbatim and in order, everywhere else.
   */
  lemma MacFormatShape(m: string)
    requires |m| == 12
    ensures |MacFormat(Some(m))| == 17
    ensures forall k :: 0 <= k < 17 ==> MacFormat(Some(m))[k] == if k % 3 == 2 then ':' else m[k - k / 3]
    ensures Ungrouped(MacFormat(Some(m))) == m
    ensures ':' !in m ==> WithoutColons(MacFormat(Some(m))) == m
  {
    GroupedAt(m);
    UngroupedGrouped(m);
    if ':' !in m {
      WithoutColonsGrouped(m);
    }
  }

  /** The all-zero address comes out exactly for a missing or wrong-length input, or twelve zeros. */
  lemma MacFormatZeroIff(mac: Option<string>)
    ensures MacFormat(mac) == ZeroMac <==>
      mac.None? || |mac.value| != 12 || mac.value == "000000000000"
  {
    if mac.Some? && |mac.value| == 12 {
      UngroupedGrouped(mac.value);
      var z := "000000000000";
      GroupedAt(z);
      assert Grouped(z) == ZeroMac;
      UngroupedGrouped(z);
    }
  }

  /** `formatMacAddress`: a stepped loop appending pairs and colons to a builder. */
  method FormatMacAddress(mac: Option<string>) returns (r: string)
    ensures r == MacFormat(mac)
    ensures mac.Some? && |mac.value| == 12 ==>
      |r| == 17 && forall k :: 0 <= k < 17 ==> r[k] == if k % 3 == 2 then ':' else mac.value[k - k / 3]
  {
    if mac.None? || |mac.value| == 0 || |mac.value| != 12 {
      return ZeroMac;
    }
    var m := mac.value;
    var formatted := "";
    var i := 0;
    while i < 12
      invariant 0 <= i <= 12 && i % 2 == 0
      invariant |formatted| == if i == 12 then 17 else 3 * (i / 2)
      invariant forall k :: 0 <= k < |formatted| ==>
        formatted[k] == if k % 3 == 2 then ':' else m[k - k / 3]
    {
      formatted := formatted + m[i..i + 2];
      if i < 10 {
        formatted := formatted + ":";
      }
      i := i + 2;
    }
    GroupedAt(m);
    assert formatted == Grouped(m);
    r := formatted;
  }

  /** The `DeviceViewModel` object. */
  class DeviceViewModel {
    var isScanning: bool
    /** `context != null`, set by `initBluetoothAdapter`. */
    var hasContext: bool
    /** `bluetoothLeScanner != null`. */
    var hasScanner: bool
    /** The value of `_scannedDevices`. */
    var scannedDevices: seq<string>
    /** The platform calls made so far. */
    var issued: seq<RadioCommand>

    constructor ()
      ensures !isScanning && !hasContext && !hasScanner
      ensures scannedDevices == [] && issued == []
    {
      isScanning := false;
      hasContext := false;
      hasScanner := false;
      scannedDevices := [];
      issued := [];
    }

    /** `initBluetoothAdapter`: records the scanner (present or not) and the context. */
    method InitBluetoothAdapter(scannerPresent: bool)
      modifies this
      ensures hasContext && hasScanner == scannerPresent
      ensures isScanning == old(isScanning) && scannedDevices == old(scannedDevices) && issued == old(issued)
    {
      hasScanner := scannerPresent;
      hasContext := true;
    }

    /**
     * `startScanning`. The flag is raised before anything is checked, so a missing context or a
     * denied scan permission leaves it raised with no scan started; only a `SecurityException`
     * from `startScan` lowers it again. A call while scanning does nothing.
     */
    method StartScanning(scanPermission: bool, securityException: bool)
      modifies this
      ensures old(isScanning) ==> isScanning && issued == old(issued)
      ensures !old(isScanning) && (!hasContext || !scanPermission) ==> isScanning && issued == old(issued)
      ensures !old(isScanning) && hasContext && scanPermission && hasScanner && securityException ==>
        !isScanning && issued == old(issued)
      ensures !old(isScanning) && hasContext && scanPermission && hasScanner && !securityException ==>
        isScanning && issued == old(issued) + [StartBleScan, PostDelayedStop(ScanPeriodMs)]
      ensures !old(isScanning) && hasContext && scanPermission && !hasScanner ==>
        isScanning && issued == old(issued) + [PostDelayedStop(ScanPeriodMs)]
      ensures scannedDevices == old(scannedDevices)
      ensures hasContext == old(hasContext) && hasScanner == old(hasScanner)
    {
      if isScanning {
        return;
      }
      isScanning := true;
      if !hasContext {
        return;
      }
      if !scanPermission {
        return;
      }
      if hasScanner {
        if securityException {
          isScanning := false;
          return;
        }
        issued := issued + [StartBleScan];
      }
      issued := issued + [PostDelayedStop(ScanPeriodMs)];
    }

    /** `addDevice`: the label becomes the new last element; nothing is deduplicated. */
    method AddDevice(deviceInfo: string)
      modifies this`scannedDevices
      ensures scannedDevices == old(scannedDevices) + [deviceInfo]
    {
      scannedDevices := scannedDevices + [deviceInfo];
    }

    /**
     * `stopScanning`. Nothing happens unless scanning; otherwise the flag is lowered first, on
     * every path, and the scan is stopped only with a context, the location permission, a scanner
     * and no `SecurityException`.
     */
    method StopScanning(locationPermission: bool, securityException: bool)
      modifies this`isScanning, this`issued
      ensures !old(isScanning) ==> !isScanning && issued == old(issued)
      ensures old(isScanning) ==> !isScanning
      ensures issued == if old(isScanning) && hasContext && locationPermission && hasScanner && !securityException
        then old(issued) + [StopBleScan] else old(issued)
    {
      if !isScanning {
        return;
      }
      isScanning := false;
      if !hasContext {
        return;
      }
      if locationPermission {
        if hasScanner && !securityException {
          issued := issued + [StopBleScan];
        }
      }
    }

    /** The label a BLE result is listed under: `"<name or Unknown Device> - <formatted address>"`. */
    static function Label(device: RemoteDevice): (r: string)
      ensures |r| == |Devices.NameText(device.name)| + |Text.Sep| + 17
      ensures r[..|Devices.NameText(device.name)|] == Devices.NameText(device.name)
      ensures r[|Devices.NameText(device.name)|..|Devices.NameText(device.name)| + |Text.Sep|] == Text.Sep
      ensures r[|r| - 17..] == MacFormat(device.address)
    {
      Devices.NameText(device.name) + Text.Sep + MacFormat(device.address)
    }

    /**
     * `leScanCallback.onScanResult`: with a device, a context and the connect permission, the
     * device's label is appended; otherwise nothing changes.
     */
    method OnScanResult(result: Option<ScanResult>, connectPermission: bool)
      modifies this`scannedDevices
      ensures scannedDevices ==
        if result.Some? && result.value.device.Some? && hasContext && connectPermission
        then old(scannedDevices) + [Label(result.value.device.value)]
        else old(scannedDevices)
    {
      var device := if result.Some? then result.value.device else None;
      if device.Some? && hasContext {
        if connectPermission {
          var address := FormatMacAddress(device.value.address);
          var deviceInfo := Devices.NameText(device.value.name) + Text.Sep + address;
          assert deviceInfo == Label(device.value);
          AddDevice(deviceInfo);
        }
      }
    }

    /** `onCleared`: the view model stops scanning as it goes away. */
    method OnCleared(locationPermission: bool, securityException: bool)
      modifies this`isScanning, this`issued
      ensures !isScanning
      ensures issued == if old(isScanning) && hasContext && locationPermission && hasScanner && !securityException
        then old(issued) + [StopBleScan] else old(issued)
    {
      StopScanning(locationPermission, securityException);
    }
  }

  /** Two results for one device leave two equal labels: the view model does not deduplicate. */
  method TwoSightingsTwoLabels(device: RemoteDevice, result: ScanResult) returns (labels: seq<string>)
    requires result.device == Some(device)
    ensures labels == [DeviceViewModel.Label(device), DeviceViewModel.Label(device)]
  {
    var vm := new DeviceViewModel();
    vm.InitBluetoothAdapter(true);
    vm.OnScanResult(Some(result), true);
    vm.OnScanResult(Some(result), true);
    labels := vm.scannedDevices;
  }
}
