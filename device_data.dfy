/**
 * The canonical records of the Android client (DeviceData.kt): what a device is, its live
 * status, its settings, the command record as the client reads it, and one telemetry
 * sample. Kotlin `Float` values are modelled as `real`, `Long` values as `int`.
 */
module DeviceModel {

  /** Identity and ownership of a device; `pairedTo == ""` means unpaired. */
  datatype DeviceInfo = DeviceInfo(
    macAddress: string,
    firmwareVersion: string,
    hardwareVersion: string,
    lastBoot: int,
    pairedTo: string,
    deviceName: string,
    pairingCode: string,
    pairingCodeExpiry: int)

  function DefaultDeviceInfo(): DeviceInfo {
    DeviceInfo("", "", "", 0, "", "Rice Dryer", "", 0)
  }

  /**
   * The pairing handshake treats a device as free when its owner is empty or the literal
   * text "null" (a value left behind by firmware that serialised a null owner).
   */
  predicate IsUnowned(info: DeviceInfo) {
    info.pairedTo == "" || info.pairedTo == "null"
  }

  /** Live status of a device. */
  datatype DeviceStatus = DeviceStatus(
    temperature: real,
    humidity: real,
    setpointTemp: real,
    setpointHumidity: real,
    dryingActive: bool,
    heaterOn: bool,
    fanOn: bool,
    wifiConnected: bool,
    firebaseConnected: bool,
    lastUpdate: int,
    errorMessage: string)

  /** Setpoints default to the dryer's nominal operating point, everything else to zero. */
  function DefaultDeviceStatus(): DeviceStatus {
    DeviceStatus(0.0, 0.0, 40.0, 20.0, false, false, false, false, false, 0, "")
  }

  /** Operating bounds and unit preference. */
  datatype DeviceSettings = DeviceSettings(
    autoStop: bool,
    maxTemp: real,
    minTemp: real,
    maxHumidity: real,
    minHumidity: real,
    tempUnit: string)

  function DefaultDeviceSettings(): DeviceSettings {
    DeviceSettings(true, 80.0, 30.0, 50.0, 10.0, "C")
  }

  /** The pending command as the client reads it back; note the field is `command`. */
  datatype DeviceCommands = DeviceCommands(
    command: string,
    value: real,
    timestamp: int,
    processed: bool)

  function DefaultDeviceCommands(): DeviceCommands {
    DeviceCommands("", 0.0, 0, false)
  }

  /** One telemetry sample, in the firmware's own field names. */
  datatype SensorReading = SensorReading(
    temperature: real,
    humidity: real,
    setpointTemp: real,
    setpointHumidity: real,
    relay1Status: bool,
    relay2Status: bool,
    dryingActive: bool,
    timestamp: int)
  {
    /** Relay 1 drives the heater. */
    function HeaterOn(): bool {
      relay1Status
    }

    /** Relay 2 drives the fan. */
    function FanOn(): bool {
      relay2Status
    }
  }

  function DefaultSensorReading(): SensorReading {
    SensorReading(0.0, 0.0, 40.0, 20.0, false, false, false, 0)
  }

  /** Everything the client knows about one device. */
  datatype DeviceData = DeviceData(
    deviceId: string,
    deviceInfo: DeviceInfo,
    status: DeviceStatus,
    settings: DeviceSettings,
    commands: DeviceCommands)

  /** A device that has never been written to is unowned. */
  lemma DefaultInfoIsUnowned()
    ensures IsUnowned(DefaultDeviceInfo())
    ensures DefaultDeviceInfo().deviceName == "Rice Dryer"
    ensures DefaultDeviceInfo().pairingCodeExpiry == 0
  {
  }

  /** A sample and a status agree on the nominal setpoints and on the idle state. */
  lemma DefaultReadingMatchesDefaultStatus()
    ensures DefaultSensorReading().setpointTemp == DefaultDeviceStatus().setpointTemp == 40.0
    ensures DefaultSensorReading().setpointHumidity == DefaultDeviceStatus().setpointHumidity == 20.0
    ensures DefaultSensorReading().HeaterOn() == DefaultDeviceStatus().heaterOn == false
    ensures DefaultSensorReading().FanOn() == DefaultDeviceStatus().fanOn == false
  {
  }

  /** The default operating bounds are ordered and contain the default setpoints. */
  lemma DefaultSettingsAreConsistent()
    ensures DefaultDeviceSettings().minTemp <= DefaultDeviceStatus().setpointTemp <= DefaultDeviceSettings().maxTemp
    ensures DefaultDeviceSettings().minHumidity <= DefaultDeviceStatus().setpointHumidity <= DefaultDeviceSettings().maxHumidity
    ensures DefaultDeviceSettings().tempUnit == "C"
  {
  }
}
