/** One completed proxy or tunnel request, as the traffic store keeps it
    (internal/traffic/store.go).  Times are integers; 0 is Go's zero time. */
module Traces {

  datatype Trace = Trace(
    id: string, timestamp: int, kind: string, url: string, target: string, region: string, egressGroup: string,
    residential: bool, status: int, latencyMS: int, requestBytes: int, responseBytes: int, error: string)
}
