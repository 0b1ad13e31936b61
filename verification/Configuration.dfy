/** The metrics an administrator configures. */
module Configuration {

  type Guid = string

  datatype MetricConfig = MetricConfig(guid: Guid, displayName: string, measurement: string, availableAggFns: seq<string>)
}
