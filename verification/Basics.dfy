/** Small notions shared by the models. */
module Basics {

  datatype Option<+T> = None | Some(value: T)

  /** A collected measurement; the timestamp is in nanoseconds since the epoch. */
  datatype MetricPoint = MetricPoint(instanceId: string, metric: string, value: real, labels: map<string, string>,
                                     timestamp: int)

  /** Where a trace of steps leads, if each step is possible where it is taken. */
  datatype Outcome<+S> = Impossible | Reached(state: S)

  const SECOND: int := 1_000_000_000  // in nanoseconds

  /** The last n elements, or all of them. */
  function LastN<T>(xs: seq<T>, n: nat): seq<T> { if |xs| <= n then xs else xs[|xs| - n..] }
}
