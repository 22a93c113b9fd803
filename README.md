# BLE device scanner: scan flags, device list and connection bookkeeping

This project models the state logic of an Android app that scans for Bluetooth Low Energy and
classic Bluetooth devices, lists them, and connects to a chosen one to read its battery level.
The Android platform is abstracted away:

- permission checks are boolean parameters;
- the presence of the adapter, the scanner and the context are flags;
- a `SecurityException` thrown by the scanner is a boolean parameter;
- platform calls (start/stop scan, discovery, receiver registration, the delayed stop, permission
  requests, GATT connect/disconnect/close) are appended to a recorded command log `issued`;
- asynchronous delivery (`postValue`, `runOnUiThread`, `StateFlow`) is an immediate assignment.

Modules:

- `Wrappers`: `Option` (Kotlin nullable) and `Result` (a computation that may throw).
- `Text`: the Kotlin library behaviour the app relies on: `split(" - ")` with its inverse `Join`,
  `filter`, and the decimal form of an `Int` in a string template.
- `Bluetooth`: platform values. These are the permissions, the recorded commands, scan results and
  remote devices, the Battery Level UUID, and the profile/GATT status constants.
- `Devices`: the `Device` record. The Kotlin data class is a Dafny `class`, because its
  `connected` and `batteryLevel` fields are updated in place through aliases. `DeviceRecord` is its
  value at one moment. The module also holds the pure list operations: insertion deduplicated by
  address, the battery update, the BLE label, the "Coolzen" parse and the results-screen filter.
- `ViewModel` (`DeviceViewModel.kt`): `formatMacAddress` as a loop proved against the reference
  function `MacFormat`, plus the `DeviceViewModel` class with its `isScanning` flag and label list.
- `Activity` (`MainActivity.kt`): the `MainActivity` class with the device list, the two label
  lists, the scan flag, the GATT callback map and every callback that updates them. `MainActivity`'s
  invariant `Valid()` says that no device object is listed twice and no scan label appears twice.
  `Activity` also holds the `BluetoothViewModel` class.

Behaviour that the code has, and that a reader might not expect:

- `DeviceViewModel.startScanning` raises `isScanning` before it checks anything. A missing context
  or a denied permission therefore leaves the flag raised, and every later `startScanning` is a
  no-op until `stopScanning` runs.
- `MainActivity.startScanning` has no already-scanning guard. It does not clear the device list;
  it only empties the two label lists.
- Rediscovering an address never refreshes its record: the RSSI stays as first seen.
- Classic discovery never adds to `discoverableDevices`, since that code is commented out, so that
  list is only ever emptied.
- The delayed task posted by `startScanning` calls `stopScanning` and then the class-level
  `updateUI` (MainActivity.kt:428-430), whose body is empty.
- The "Coolzen" `updateUI` (MainActivity.kt:902-916) is a different function, local to
  `DeviceDetailScreen`, and nothing calls it. It replaces the device list with fresh objects, so it can create two
  records with the same address. For that reason address uniqueness is proved of the insertion
  operations and is not a class invariant.
- In that `updateUI`, `val (name, _)` does not read a second field but `val (name, address)` does.
  The function therefore throws exactly when the bare label `"Coolzen"` is among its input
  (`Devices.CoolzenDevices`).
- The round trip "drop the colons and get the input back" holds only when the input has no colon.
  The exact inverse of `formatMacAddress` on twelve characters is `Ungrouped`, which drops the
  characters at positions 2, 5, 8, 11 and 14.

Behaviours a reader might expect that the code does not have: scan session ids, a connection
state machine with tokens, RSSI refresh, battery clamping, an idempotent connect, and clearing
the device list on a new scan. None of these is in the model.

## Model

| member | source | states |
|---|---|---|
| `ViewModel.FormatMacAddress` | DeviceViewModel.kt:125-138 | The result equals `MacFormat(mac)`. For a 12-character input it has 17 characters, with `:` where `k % 3 == 2` and input character `k - k/3` everywhere else. |
| `ViewModel.MacFormat` | DeviceViewModel.kt:125-137 | The result always has 17 characters. For a 12-character input, dropping every third character gives the input back. For a missing input or any other length it is `00:00:00:00:00:00`. |
| `ViewModel.MacFormatShape` | DeviceViewModel.kt:130-137 | For any 12 characters, counted as Unicode scalar values (nothing is validated or case-changed), the output has length 17 and colons at 2, 5, 8, 11 and 14. The input characters appear verbatim and in order, `Ungrouped` gives the input back, and removing colons gives the input back when it had none. |
| `ViewModel.MacFormatZeroIff` | DeviceViewModel.kt:125-128 | The result is `00:00:00:00:00:00` exactly when the input is null, is not 12 characters long, or is twelve zeros. |
| `ViewModel.GroupedAt` | DeviceViewModel.kt:131-136 | Grouping an even-length string in colon-separated pairs puts a colon at every third position and the input characters in order elsewhere. |
| `ViewModel.UngroupedGrouped` | DeviceViewModel.kt:131-136 | Dropping every third character undoes the grouping, for every string. |
| `ViewModel.WithoutColonsGrouped` | DeviceViewModel.kt:131-136 | Removing all colons undoes the grouping when the input contains no colon. |
| `ViewModel.DeviceViewModel.constructor` | DeviceViewModel.kt:22-29 | Starts not scanning, without context or scanner, with no labels. |
| `ViewModel.DeviceViewModel.InitBluetoothAdapter` | DeviceViewModel.kt:36-40 | Records the context and whether there is a scanner; nothing else changes. |
| `ViewModel.DeviceViewModel.StartScanning` | DeviceViewModel.kt:42-67 | A no-op while scanning. Otherwise the flag ends raised when the context is missing or the permission is denied, and no scan starts. A `SecurityException` from `startScan` lowers the flag. Success starts the scan (when there is a scanner) and posts the 10 s stop. |
| `ViewModel.DeviceViewModel.AddDevice` | DeviceViewModel.kt:69-73 | The label becomes the new last element; earlier ones are unchanged and nothing is deduplicated. |
| `ViewModel.DeviceViewModel.StopScanning` | DeviceViewModel.kt:75-94 | A no-op when not scanning. Otherwise the flag ends lowered on every path. The scan is stopped only with a context, the location permission, a scanner and no exception. |
| `ViewModel.DeviceViewModel.OnScanResult` | DeviceViewModel.kt:98-123 | With a device, a context and the connect permission, appends `"<name or Unknown Device> - <formatted address>"`. Otherwise nothing changes. |
| `ViewModel.DeviceViewModel.Label` | DeviceViewModel.kt:111-112 | A label is the device name (or `Unknown Device`), then `" - "`, then the 17-character formatted address as its last 17 characters. Each part is stated position by position. |
| `ViewModel.DeviceViewModel.OnCleared` | DeviceViewModel.kt:140-143 | Ends not scanning, stopping the scan under the same conditions as `stopScanning`. |
| `ViewModel.TwoSightingsTwoLabels` | DeviceViewModel.kt:69-73 | Two results for one device leave two equal labels: the view model keeps duplicates. |
| `Devices.Device.constructor` | MainActivity.kt:75-82 | A new device has the given name, address and RSSI, is not connected and has no battery level. |
| `Devices.InsertIfAbsent` | MainActivity.kt:495-499 | After a sighting, an address is known exactly when it was known before or is the sighted one. |
| `Devices.InsertIfAbsentShape` | MainActivity.kt:495-499 | Insertion keeps every existing entry in place and grows the list by one exactly when the address is new; that one entry is the new record at the end. Afterwards the address is known. |
| `Devices.InsertIfAbsentKeepsUnique` | MainActivity.kt:495-499 | Insertion never creates a second record for an address. |
| `Devices.InsertIfAbsentIdempotent` | MainActivity.kt:495-499 | A second sighting of an address, with any name or RSSI, changes nothing, so the RSSI is not refreshed. |
| `Devices.AfterSightingsRegistry` | MainActivity.kt:495-499 | After any sequence of sightings, addresses stay unique, earlier records stay in place, and the known addresses are exactly the earlier ones plus the sighted ones. |
| `Devices.FirstIndexOf` | MainActivity.kt:751 | `find` by address: the first position whose address matches, or none exactly when no record has it. |
| `Devices.WithBattery` | MainActivity.kt:751-752 | A reading keeps the length, changes no field other than a battery level, and any record it changes has the reading's address and now holds the read level. The first record with the reading's address, the one `find` returns, gets the level, and it is the only record that can change: a later record sharing the address keeps its level. |
| `Devices.WithBatteryEffect` | MainActivity.kt:745-754 | A reading changes only the battery level, and only of a record with the reading's address; with no such record nothing changes. With unique addresses, the record with the address gets the level, and uniqueness is kept. |
| `Devices.BleLabel` | MainActivity.kt:473 | The label starts with the name (or `Unknown Device`) followed by `" - "`, and ends with `" dBm"`. |
| `Devices.BleLabelFields` | MainActivity.kt:473 | Splitting a BLE label on `" - "` gives back its name (or `Unknown Device`) and its address (or `00:01:02:03:04:05`) as the first two fields, when neither holds a `" - "`. The third and last field is `RSSI: <rssi> dBm`. |
| `Devices.BleLabelDeterminesRssi` | MainActivity.kt:473-503 | Two sightings of one device have equal labels only when their RSSI values are equal. So a sighting with a new RSSI is not caught by the `contains` check and is listed again. |
| `Devices.ParseLabels` | MainActivity.kt:906-909 | Succeeds exactly when every label has a second field. It then yields, in order, `Device(first field, second field)` with RSSI 0, not connected, no battery. |
| `Devices.CoolzenDevices` | MainActivity.kt:902-915 | Throws exactly when the bare label `Coolzen` is present. Otherwise it yields one record per label whose first field is `Coolzen`, in order, named `Coolzen` and addressed by the label's second field. |
| `Devices.CoolzenOnlyBareLabelFails` | MainActivity.kt:903-909 | Among the labels the filter keeps, one lacks a second field exactly when `Coolzen` itself is an input label. |
| `Devices.CoolzenSingleLabel` | MainActivity.kt:902-915 | A single label with first field `Coolzen` and a second field yields exactly one record. |
| `Devices.CoolzenFromBleLabel` | MainActivity.kt:902-915 | The BLE label of a device named `Coolzen` parses back to that address, with RSSI dropped to 0 and not connected. |
| `Devices.ShownDevices` | MainActivity.kt:610 | The results screen shows exactly the records named `Coolzen`, all taken from the list. |
| `Text.Split` | MainActivity.kt:904-907 | Splitting on `" - "` always yields at least one field; `JoinSplit`, `SplitFieldsHaveNoSep`, `SplitAfterClean` and `SingleFieldIff` state which fields. |
| `Text.IndexOfSep` | MainActivity.kt:904 | The first occurrence of `" - "` at or after a position, or none exactly when there is none. |
| `Text.JoinSplit` | MainActivity.kt:904 | `split(" - ")` loses nothing: joining the fields with the separator gives the string back. |
| `Text.SplitFieldsHaveNoSep` | MainActivity.kt:904 | No field produced by the split contains the separator. |
| `Text.SplitAfterClean` | MainActivity.kt:907 | A prefix containing no separator of its own comes back as the first field; the rest is split on its own. |
| `Text.SingleFieldIff` | MainActivity.kt:904-907 | A string splits into one field exactly when it has no separator, and that field is then the whole string. |
| `Text.IntToDecimal` | MainActivity.kt:473 | The string-template rendering of the RSSI: a leading `-` exactly for negative values, digits after it, and reading it back gives the number. |
| `Text.RssiTextNoSep` | MainActivity.kt:473 | The `RSSI: <rssi> dBm` text never holds a `" - "`, whatever the number. |
| `Text.Filter` | MainActivity.kt:903-905 | `filter` keeps only elements that satisfy the predicate, keeps every such element, and never grows the list. |
| `Text.FilterAppend` | MainActivity.kt:903-905 | Filtering preserves order: filtering a concatenation concatenates the filtered parts. |
| `Activity.BluetoothViewModel.constructor` | MainActivity.kt:69 | The shared view model starts with an empty device list. |
| `Activity.BluetoothViewModel.UpdateScannedDevices` | MainActivity.kt:72-74 | The list is replaced by the given one. |
| `Activity.MainActivity.constructor` | MainActivity.kt:168-170 | There is a scanner only when there is an adapter. The activity starts with empty lists, not scanning, with no callbacks and no commands issued. |
| `Activity.MainActivity.IndexOfAddress` | MainActivity.kt:751 | The loop returns the first position of the address among the listed devices, as `FirstIndexOf`. |
| `Activity.MainActivity.InsertDevice` | MainActivity.kt:495-499 | The new device list equals `InsertIfAbsent` of the old one. Existing objects are kept in place and any added object is fresh. The invariant is preserved. |
| `Activity.MainActivity.StartScanning` | MainActivity.kt:391-425 | Without the scan permission only a permission request is issued. With it the flag is raised even when already scanning, both label lists are emptied, and the scans, the receiver and the 10 s stop are issued. The device list is kept. |
| `Activity.MainActivity.StopScanning` | MainActivity.kt:433-450 | A no-op when not scanning. Otherwise the flag ends lowered on every path, including the missing-permission early return. Only with the permission are scan, discovery and receiver stopped. |
| `Activity.MainActivity.OnScanPeriodElapsed` | MainActivity.kt:421-430 | The delayed task has the effect of `stopScanning` alone. |
| `Activity.MainActivity.OnBleScanResult` | MainActivity.kt:470-527 | Without the connect permission neither list changes and a permission request is issued. With it the device is inserted by address with `rssi`, and the label is appended unless already listed. |
| `Activity.MainActivity.OnReceive` | MainActivity.kt:531-567 | For `ACTION_FOUND` with the connect permission, the shared view model holds just this device, and the device is inserted by address with its device class (or 0) as RSSI. Otherwise nothing changes. |
| `Activity.MainActivity.OnConnectionStateChange` | MainActivity.kt:796-811 | CONNECTED sets `connected`, DISCONNECTED clears it, and any other state leaves it. Only that one object changes. |
| `Activity.MainActivity.OnDisconnectStateChange` | MainActivity.kt:775-784 | Only DISCONNECTED is acted on; it clears `connected`. |
| `Activity.MainActivity.SetBatteryAt` | MainActivity.kt:752 | Only the listed device at that position gets the new battery level. |
| `Activity.MainActivity.OnCharacteristicRead` | MainActivity.kt:738-759 | On success with the Battery Level UUID, the list becomes `WithBattery` of the old one. A failed status or another UUID changes nothing. |
| `Activity.MainActivity.DisconnectDevice` | MainActivity.kt:923-958 | A device that is not connected is untouched. Without permission only a permission request is issued. Otherwise `connected` is cleared, and a stored callback for the address is used for connect/disconnect/close and then removed from the map. |
| `Activity.MainActivity.NewDevices` | MainActivity.kt:906-909 | One fresh, distinct `Device` per parsed record, in order, holding that record. |
| `Activity.MainActivity.UpdateUI` | MainActivity.kt:902-916 | When the labels parse, the device list is replaced by fresh devices equal to `CoolzenDevices(labels)`. When the parse throws, the list is unchanged. |

## Left out

- `FormatMacAddress`/`MacFormat`: characters are Unicode scalar values, not UTF-16 code units.
  Kotlin's length test and two-character slices count code units, so the two differ on text
  outside the Basic Multilingual Plane. Real addresses are ASCII, where the two agree.
- The user interface is left out: composition, navigation, dialogs, toasts and logging. This
  includes the RSSI percentage shown per device, which is floating-point display arithmetic.
- The permission request flow and its launchers are left out. Each check is a boolean parameter;
  a launched request is only recorded as a command.
- `startScan`, `stopScan`, `startDiscovery`, `cancelDiscovery`, `registerReceiver`,
  `connectGatt`, `disconnect` and `close` are platform calls. They are recorded, never performed.
- `getRemoteDevice` throws for an invalid or null address. That is platform validation the model
  does not see, so a present adapter is taken to yield a device.
- `getIntValue(FORMAT_UINT8, 0)` is a library call. The battery value is an opaque `Option<int>`
  input.
- The 10-second `postDelayed` timer is asynchronous scheduling. It is recorded as
  `PostDelayedStop(10000)`, and its firing is a later `StopScanning`/`OnScanPeriodElapsed` call.
- `connectToDevice`'s own branching is left out, apart from the two callbacks whose flag updates
  are modelled. The callback declared at MainActivity.kt:674 is never registered; only its battery
  read handler is modelled. Its `onServicesDiscovered` read request is left out, as is the
  `DeviceDetailScreen` callback at MainActivity.kt:871-899.
- Nothing ever adds to `connectedDeviceCallbacks`. `DisconnectDevice` still models the lookup and
  removal as written.
- `Parcelable` write/create is platform serialisation and is left out. The two UUID fields of
  `Device` are left out because the code never passes them, so they are always null.
- The classic-discovery label at MainActivity.kt:544 is only logged, because its insertion is
  commented out, so no member models it.
- The navigation lookup of a device by address (MainActivity.kt:154) is UI plumbing. It is left
  out; `IndexOfAddress` is the same search.
