/**
 * `MainActivity`: the device list behind the results screen, the two label lists shown while
 * scanning, the scan flag, the map of GATT callbacks by address, and the scan, discovery and GATT
 * callbacks that update them. `BluetoothViewModel`, declared in the same file, is the shared view
 * model the classic-discovery receiver writes to.
 */
module Activity {
  import opened Wrappers
  import opened Text
  import opened Bluetooth
  import opened Devices

  /** `BluetoothViewModel`: its list is replaced wholesale by each `updateScannedDevices`. */
  class BluetoothViewModel {
    var scannedDevices: seq<Device>

    constructor ()
      ensures scannedDevices == []
    {
      scannedDevices := [];
    }

    method UpdateScannedDevices(ds: seq<Device>)
      modifies this
      ensures scannedDevices == ds
    {
      scannedDevices := ds;
    }
  }

  class MainActivity {
    /** `bluetoothAdapter != null` and `bluetoothLeScanner != null`, fixed in `onCreate`. */
    const hasAdapter: bool
    const hasScanner: bool
    /** The `BluetoothViewModel` the activity's `ViewModelProvider` hands out. */
    const btViewModel: BluetoothViewModel
    /** The value of `_devices`. */
    var devices: seq<Device>
    var scannedDevices: seq<string>
    var discoverableDevices: seq<string>
    var isScanning: bool
    var connectedDeviceCallbacks: map<string, GattCallback>
    /** The platform calls made so far. */
    var issued: seq<RadioCommand>

    /** Each list entry is its own object, and no label is listed twice. */
    ghost predicate Valid()
      reads this
    {
      Distinct(devices) && Distinct(scannedDevices)
    }

    /** The current values of the device list. */
    function Snapshot(): seq<DeviceRecord>
      reads this, set d | d in devices
    {
      Records(devices)
    }

    /** `onCreate`'s set-up: the adapter, and the scanner only when there is an adapter. */
    constructor (adapterPresent: bool, scannerOnAdapter: bool)
      ensures Valid() && fresh(btViewModel)
      ensures hasAdapter == adapterPresent && hasScanner == (adapterPresent && scannerOnAdapter)
      ensures devices == [] && scannedDevices == [] && discoverableDevices == []
      ensures !isScanning && connectedDeviceCallbacks == map[] && issued == []
    {
      hasAdapter := adapterPresent;
      hasScanner := adapterPresent && scannerOnAdapter;
      btViewModel := new BluetoothViewModel();
      devices := [];
      scannedDevices := [];
      discoverableDevices := [];
      isScanning := false;
      connectedDeviceCallbacks := map[];
      issued := [];
    }

    /** The position of the first device with `address`, as `find`/`any` over the list look for it. */
    method IndexOfAddress(address: Option<string>) returns (r: Option<nat>)
      ensures r == FirstIndexOf(Snapshot(), address)
    {
      var i := 0;
      while i < |devices|
        invariant 0 <= i <= |devices|
        invariant forall j :: 0 <= j < i ==> devices[j].address != address
      {
        if devices[i].address == address {
          return Some(i);
        }
        i := i + 1;
      }
      return None;
    }

    /**
     * The deduplicating insertion of both discovery callbacks: a new `Device` goes at the end when
     * no listed device has its address; the existing objects are kept and untouched.
     */
    method InsertDevice(name: Option<string>, address: Option<string>, rssi: int)
      requires Valid()
      modifies this`devices
      ensures Valid()
      ensures Snapshot() == InsertIfAbsent(old(Snapshot()), Discovered(name, address, rssi))
      ensures IsPrefix(old(devices), devices)
      ensures forall k :: |old(devices)| <= k < |devices| ==> fresh(devices[k])
    {
      ghost var before := devices;
      ghost var snap := Snapshot();
      var at := IndexOfAddress(address);
      if at.None? {
        assert !Known(snap, address);
        var d := new Device(name, address, rssi);
        devices := devices + [d];
        assert devices[..|before|] == before;
        forall k | 0 <= k < |devices|
          ensures Snapshot()[k] == (snap + [Discovered(name, address, rssi)])[k]
        {
          if k < |before| {
            assert devices[k] == before[k];
          }
        }
        assert Snapshot() == snap + [Discovered(name, address, rssi)];
      }
    }

    /**
     * `startScanning`. Without the scan permission only a permission request is made. With it the
     * flag is raised (even when already raised: there is no re-entrancy guard), both label lists
     * are emptied, the scans start and a delayed stop is posted; the device list is not cleared.
     */
    method StartScanning(scanPermission: bool)
      requires Valid()
      modifies this`isScanning, this`scannedDevices, this`discoverableDevices, this`issued
      ensures Valid()
      ensures !scanPermission ==>
        isScanning == old(isScanning) && scannedDevices == old(scannedDevices) &&
        discoverableDevices == old(discoverableDevices) &&
        issued == old(issued) + [RequestPermission(BluetoothScan)]
      ensures scanPermission ==>
        isScanning && scannedDevices == [] && discoverableDevices == [] &&
        issued == old(issued) + (if hasScanner then [StartBleScan] else []) +
          (if hasAdapter then [StartDiscovery] else []) + [RegisterFoundReceiver, PostDelayedStop(ScanPeriodMs)]
    {
      if !scanPermission {
        issued := issued + [RequestPermission(BluetoothScan)];
        return;
      }
      isScanning := true;
      scannedDevices := [];
      discoverableDevices := [];
      if hasScanner {
        issued := issued + [StartBleScan];
      }
      if hasAdapter {
        issued := issued + [StartDiscovery];
      }
      issued := issued + [RegisterFoundReceiver, PostDelayedStop(ScanPeriodMs)];
    }

    /**
     * `stopScanning`. Nothing happens unless scanning; otherwise the flag is lowered on every
     * path, and only with the scan permission are the scans stopped and the receiver unregistered.
     */
    method StopScanning(scanPermission: bool)
      modifies this`isScanning, this`issued
      ensures !isScanning
      ensures issued ==
        if old(isScanning) && scanPermission
        then old(issued) + (if hasScanner then [StopBleScan] else []) +
          (if hasAdapter then [CancelDiscovery] else []) + [UnregisterFoundReceiver]
        else old(issued)
    {
      if isScanning {
        isScanning := false;
        if !scanPermission {
          return;
        }
        if hasScanner {
          issued := issued + [StopBleScan];
        }
        if hasAdapter {
          issued := issued + [CancelDiscovery];
        }
        issued := issued + [UnregisterFoundReceiver];
      }
    }

    /**
     * The delayed task `startScanning` posts: `stopScanning()` and then the class's `updateUI`,
     * whose body is empty, so the task is a stop and nothing more.
     */
    method OnScanPeriodElapsed(scanPermission: bool)
      modifies this`isScanning, this`issued
      ensures !isScanning
      ensures issued ==
        if old(isScanning) && scanPermission
        then old(issued) + (if hasScanner then [StopBleScan] else []) +
          (if hasAdapter then [CancelDiscovery] else []) + [UnregisterFoundReceiver]
        else old(issued)
    {
      StopScanning(scanPermission);
    }

    /**
     * `leScanCallback.onScanResult`. Without the connect permission only a permission request is
     * made. With it the device is inserted by address (RSSI of a missing result read as 0) and its
     * label is appended unless already listed.
     */
    method OnBleScanResult(result: Option<ScanResult>, connectPermission: bool)
      requires Valid()
      modifies this`devices, this`scannedDevices, this`issued
      ensures Valid()
      ensures !connectPermission ==>
        devices == old(devices) && scannedDevices == old(scannedDevices) &&
        issued == old(issued) + [RequestPermission(BluetoothConnect)]
      ensures connectPermission ==>
        var device := if result.Some? then result.value.device else None;
        var name := if device.Some? then device.value.name else None;
        var address := if device.Some? then device.value.address else None;
        var rssi := if result.Some? then result.value.rssi else 0;
        && Snapshot() == InsertIfAbsent(old(Snapshot()), Discovered(name, address, rssi))
        && IsPrefix(old(devices), devices)
        && (forall k :: |old(devices)| <= k < |devices| ==> fresh(devices[k]))
        && scannedDevices == (if BleLabel(result) in old(scannedDevices) then old(scannedDevices)
                              else old(scannedDevices) + [BleLabel(result)])
        && issued == old(issued)
    {
      var device := if result.Some? then result.value.device else None;
      var deviceInfo := BleLabel(result);
      if !connectPermission {
        issued := issued + [RequestPermission(BluetoothConnect)];
        return;
      }
      var name := if device.Some? then device.value.name else None;
      var address := if device.Some? then device.value.address else None;
      InsertDevice(name, address, if result.Some? then result.value.rssi else 0);
      if deviceInfo !in scannedDevices {
        scannedDevices := scannedDevices + [deviceInfo];
      }
    }

    /**
     * `receiver.onReceive` for a classic discovery broadcast. For `ACTION_FOUND` with the connect
     * permission, the shared view model's list becomes just this device and the device is inserted
     * by address with its device class (or 0) in the RSSI field. No label is recorded.
     */
    method OnReceive(action: Option<string>, device: Option<RemoteDevice>, connectPermission: bool)
      requires Valid()
      modifies this`devices, btViewModel
      ensures Valid()
      ensures action != Some(ActionFound) || !connectPermission ==>
        devices == old(devices) && btViewModel.scannedDevices == old(btViewModel.scannedDevices)
      ensures action == Some(ActionFound) && connectPermission ==>
        var name := if device.Some? then device.value.name else None;
        var address := if device.Some? then device.value.address else None;
        var rssi := if device.Some? then device.value.deviceClass.GetOr(0) else 0;
        && Snapshot() == InsertIfAbsent(old(Snapshot()), Discovered(name, address, rssi))
        && IsPrefix(old(devices), devices)
        && (forall k :: |old(devices)| <= k < |devices| ==> fresh(devices[k]))
        && |btViewModel.scannedDevices| == 1 && fresh(btViewModel.scannedDevices[0])
        && btViewModel.scannedDevices[0].Record() == Discovered(name, address, 0)
    {
      if action == Some(ActionFound) {
        if !connectPermission {
          return;
        }
        var name := if device.Some? then device.value.name else None;
        var address := if device.Some? then device.value.address else None;
        var shared := new Device(name, address, 0);
        btViewModel.UpdateScannedDevices([shared]);
        InsertDevice(name, address, if device.Some? then device.value.deviceClass.GetOr(0) else 0);
      }
    }

    /**
     * The connection-state callback `connectToDevice` registers for a device that is not
     * connected: CONNECTED sets the flag, DISCONNECTED clears it, other states leave it.
     */
    method OnConnectionStateChange(device: Device, newState: int)
      modifies device`connected
      ensures device.connected ==
        if newState == StateConnected then true
        else if newState == StateDisconnected then false
        else old(device.connected)
      ensures forall k :: 0 <= k < |devices| ==>
        devices[k].Record() == if devices[k] == device then old(devices[k].Record()).(connected := device.connected)
                               else old(devices[k].Record())
    {
      if newState == StateConnected {
        device.connected := true;
      } else if newState == StateDisconnected {
        device.connected := false;
      }
    }

    /**
     * The callback `connectToDevice` registers when asked about a device that is connected: only
     * DISCONNECTED is acted on, clearing the flag.
     */
    method OnDisconnectStateChange(device: Device, newState: int)
      modifies device`connected
      ensures device.connected == if newState == StateDisconnected then false else old(device.connected)
    {
      if newState == StateDisconnected {
        device.connected := false;
      }
    }

    /** `device?.batteryLevel = level` for the listed device at position `i`. */
    method SetBatteryAt(i: nat, level: Option<int>)
      requires Valid() && i < |devices|
      modifies devices[i]
      ensures Snapshot() == old(Snapshot())[i := old(Snapshot())[i].(batteryLevel := level)]
    {
      ghost var before := Snapshot();
      devices[i].batteryLevel := level;
      forall k | 0 <= k < |devices|
        ensures Snapshot()[k] == before[i := before[i].(batteryLevel := level)][k]
      {
        if k != i {
          assert devices[k] != devices[i];
        }
      }
    }

    /**
     * `onCharacteristicRead`: on success, for the Battery Level characteristic, the first listed
     * device with the GATT device's address gets the value read; otherwise nothing changes.
     */
    method OnCharacteristicRead(gattAddress: Option<string>, uuid: Uuid, level: Option<int>, status: int)
      requires Valid()
      modifies set d | d in devices
      ensures Snapshot() ==
        if status == GattSuccess && uuid == BatteryLevelUuid
        then WithBattery(old(Snapshot()), gattAddress, level)
        else old(Snapshot())
    {
      if status == GattSuccess {
        if uuid == BatteryLevelUuid {
          var at := IndexOfAddress(gattAddress);
          if at.Some? {
            SetBatteryAt(at.value, level);
          }
        }
      }
    }

    /**
     * `disconnectDevice`. A device that is not connected is left alone. Without the connect
     * permission only a permission request is made. Otherwise a GATT callback stored for the
     * address is used to disconnect and close, its entry removed, and the flag cleared.
     */
    method DisconnectDevice(device: Device, connectPermission: bool, gattOpened: bool)
      modifies this`connectedDeviceCallbacks, this`issued, device`connected
      ensures !old(device.connected) ==>
        !device.connected && connectedDeviceCallbacks == old(connectedDeviceCallbacks) && issued == old(issued)
      ensures old(device.connected) && !connectPermission ==>
        device.connected && connectedDeviceCallbacks == old(connectedDeviceCallbacks) &&
        issued == old(issued) + [RequestPermission(BluetoothConnect)]
      ensures old(device.connected) && connectPermission ==>
        var stored := hasAdapter && device.address.Some? && device.address.value in old(connectedDeviceCallbacks);
        && !device.connected
        && connectedDeviceCallbacks ==
             (if stored then old(connectedDeviceCallbacks) - {device.address.value} else old(connectedDeviceCallbacks))
        && issued == old(issued) +
             (if stored then [ConnectGatt(device.address)] +
                (if gattOpened then [GattDisconnect(device.address), GattClose(device.address)] else [])
              else [])
    {
      if device.connected {
        if connectPermission {
          if hasAdapter {
            if device.address.Some? && device.address.value in connectedDeviceCallbacks {
              issued := issued + [ConnectGatt(device.address)];
              if gattOpened {
                issued := issued + [GattDisconnect(device.address), GattClose(device.address)];
              }
              connectedDeviceCallbacks := connectedDeviceCallbacks - {device.address.value};
            }
          }
          device.connected := false;
        } else {
          issued := issued + [RequestPermission(BluetoothConnect)];
        }
      }
    }

    /** One fresh `Device` per record, in order, each holding that record. */
    static method NewDevices(rs: seq<DeviceRecord>) returns (built: seq<Device>)
      requires forall k :: 0 <= k < |rs| ==> !rs[k].connected && rs[k].batteryLevel.None?
      ensures Distinct(built) && Records(built) == rs
      ensures forall k :: 0 <= k < |built| ==> fresh(built[k])
    {
      built := [];
      for i := 0 to |rs|
        invariant |built| == i && Distinct(built)
        invariant forall k :: 0 <= k < i ==> fresh(built[k]) && built[k].Record() == rs[k]
      {
        var d := new Device(rs[i].name, rs[i].address, rs[i].rssi);
        built := built + [d];
      }
    }

    /**
     * The "Coolzen" `updateUI`: when the labels parse, the device list is replaced by fresh devices
     * built from them; when one of the kept labels has no second field the call throws and the list
     * is left as it was.
     */
    method UpdateUI(labels: seq<string>) returns (ok: bool)
      requires Valid()
      modifies this`devices
      ensures Valid()
      ensures ok == CoolzenDevices(labels).Ok?
      ensures ok ==> Snapshot() == CoolzenDevices(labels).value && forall k :: 0 <= k < |devices| ==> fresh(devices[k])
      ensures !ok ==> devices == old(devices)
    {
      var parsed := CoolzenDevices(labels);
      if parsed.Err? {
        return false;
      }
      var built := NewDevices(parsed.value);
      devices := built;
      ok := true;
    }
  }
}
