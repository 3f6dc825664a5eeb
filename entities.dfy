/**
  The stored records the server works on (one datatype per table row) and the
  reading tuple the probe sends. Column lists follow the entity declarations.
 */
module Entities {
  import opened Wrappers

  /** A point in time; produced by the database's `now()` or by the probe's clock. */
  type Timestamp = string

  /** Where a stored threshold came from: reported by the service, or set by an operator. */
  datatype ThresholdSource = FromService | FromConfiguration

  /** A row of `service_thresholds`: the value range outside [min, max] raises the status. */
  datatype ServiceThreshold = ServiceThreshold(
    probeServiceId: int,
    statusId: int,
    reading: string,
    min: Option<int>,
    max: Option<int>,
    source: ThresholdSource)

  /** A row of `mapped_services`; `currentStatus` is absent for collect-only services. */
  datatype MappedService = MappedService(
    probeServiceId: int,
    name: string,
    description: string,
    statusId: int,
    errorCauseId: Option<int>,
    currentStatus: Option<int>,
    currentStatusFrom: Option<Timestamp>)

  /** A row of `reading_values`. */
  datatype ReadingValue = ReadingValue(datetime: Timestamp, value: int)

  /** A row of `service_status_history`. */
  datatype StatusHistoryEntry = StatusHistoryEntry(mappedServiceId: int, serviceStatusId: Option<int>, timestamp: Timestamp)

  /** A row of `mapped_service_options`. */
  datatype MappedServiceOption = MappedServiceOption(mappedServiceId: int, optionId: int, value: string)

  /** One element of the batch the probe posts to the readings endpoint. */
  datatype ReadingTuple = ReadingTuple(service: int, reading: string, value: int, timestamp: Timestamp)

  /**
    The identifiers the server looks up by name in its constant tables: the
    mapping life-cycle statuses, the "ok" service status and the error causes.
   */
  datatype Consts = Consts(
    active: int,
    suspended: int,
    error: int,
    ok: int,
    missingRequiredOption: int,
    serviceUnavailable: int)
}
