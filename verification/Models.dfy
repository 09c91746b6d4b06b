/** The records the gateway hands downstream. */
module Models {
  import opened Basics

  /** The serving cell. */
  datatype Cell = Cell(mcc: int, mnc: int, lac: int, cellId: int)

  datatype Clock = Clock(year: int, month: int, day: int, hour: int, minute: int, second: int)

  datatype LocationEvent = LocationEvent(
    deviceId: string, latitude: real, longitude: real, speedKmh: int, courseDeg: int, gpsFixed: bool,
    satellites: int, fixedAt: Option<Clock>, eventType: string, cell: Option<Cell>, ignition: Option<bool>)

  datatype StatusEvent = StatusEvent(deviceId: string, ignition: bool)
}
