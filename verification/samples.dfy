/** The sample that every stage of the pipeline passes on. */
module Samples {
  import opened Wrappers

  datatype Kind = Gauge | Delta | Cumulative

  type Metadata(==, !new, 0)

  datatype Sample = Sample(
    name: string,
    kind: Kind,
    unit: string,
    volume: real,
    userId: Option<string>,
    projectId: Option<string>,
    resourceId: string,
    timestamp: real,           // in seconds
    metadata: Metadata,
    monotonic: Option<real>)
}
