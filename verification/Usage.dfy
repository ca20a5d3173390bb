/** The canonical usage event (internal/usage/usage.go). Times are nanoseconds since
    the start of year 1, where Go's zero time lies, so time 0 is the one IsZero reports. */
module Usage {

  type Time = nat

  /** What a running clock shows: never the zero time. */
  type Clock = t: int | 0 < t witness 1

  const SECOND: nat := 1_000_000_000
  const HOUR: nat := 3600 * SECOND

  datatype Event = Event(
    schemaVersion: string,
    id: string,
    tenant: string,
    metric: string,
    quantity: int,  // in units of 10^-9, the precision Round keeps
    unit: string,
    windowStart: Time,
    windowEnd: Time,
    region: string,
    project: string,
    sku: string,
    resourceID: string,
    dimensions: map<string, string>,
    source: string,
    recordedAt: Time)
}
