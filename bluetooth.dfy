/**
 * The boundary to Android's Bluetooth stack, as plain values: what a scan or discovery event
 * carries in, the permissions the app checks, the platform calls it makes (recorded rather than
 * performed) and the platform constants it compares against.
 */
module Bluetooth {
  import opened Wrappers

  /** The runtime permissions the app checks before touching the radio. */
  datatype Permission = BluetoothScan | BluetoothConnect | AccessFineLocation

  /** A platform call the app makes, in the order it makes them. */
  datatype RadioCommand =
    | StartBleScan
    | StopBleScan
    | StartDiscovery
    | CancelDiscovery
    | RegisterFoundReceiver
    | UnregisterFoundReceiver
    | PostDelayedStop(delayMs: nat)
    | RequestPermission(permission: Permission)
    | ConnectGatt(address: Option<string>)
    | GattDisconnect(address: Option<string>)
    | GattClose(address: Option<string>)

  /** A registered `BluetoothGattCallback`, by identity. */
  datatype GattCallback = GattCallback(id: nat)

  /** How long a scan runs before the delayed stop fires, in milliseconds. */
  const ScanPeriodMs: nat := 10000

  /** A 128-bit UUID by its two 64-bit halves; `UUID.equals` compares exactly these. */
  datatype Uuid = Uuid(mostSignificant: bv64, leastSignificant: bv64)

  /** 00002a19-0000-1000-8000-00805f9b34fb, the Battery Level characteristic. */
  const BatteryLevelUuid: Uuid := Uuid(0x0000_2a19_0000_1000, 0x8000_0080_5f9b_34fb)

  /** `BluetoothProfile.STATE_DISCONNECTED` and `STATE_CONNECTED`. */
  const StateDisconnected: int := 0
  const StateConnected: int := 2

  /** `BluetoothGatt.GATT_SUCCESS`. */
  const GattSuccess: int := 0

  /** `BluetoothDevice.ACTION_FOUND`, the broadcast a classic discovery result arrives in. */
  const ActionFound: string := "android.bluetooth.device.action.FOUND"

  /**
   * A remote device as the app reads it: its name, its address, and the device class of its
   * (possibly absent) Bluetooth class.
   */
  datatype RemoteDevice = RemoteDevice(name: Option<string>, address: Option<string>, deviceClass: Option<int>)

  /** A BLE scan result: the device it is about and the signal strength in dBm. */
  datatype ScanResult = ScanResult(device: Option<RemoteDevice>, rssi: int)
}
