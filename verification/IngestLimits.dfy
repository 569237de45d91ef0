/** The numeric bounds of the ingest pipeline, and the validation its components rely on. */
module IngestLimits {

  datatype Limits = Limits(
    requestBytes: int,
    batchEvents: int,
    chunkCount: int,
    reassembledBytes: int,
    pendingBytes: int,
    pendingGroups: int,
    queuedBytes: int,
    queuedBatches: int,
    concurrentRequests: int,
    timeout: int)
  {
    predicate Valid() {
      && 1024 <= requestBytes <= 4 * 1024 * 1024
      && 1 <= batchEvents <= 4096
      && 1 <= chunkCount <= 4096
      && requestBytes <= reassembledBytes <= 16 * 1024 * 1024
      && 2 * reassembledBytes <= pendingBytes <= 64 * 1024 * 1024
      && 1 <= pendingGroups <= 64
      && requestBytes <= queuedBytes && reassembledBytes <= queuedBytes <= 64 * 1024 * 1024
      && 1 <= queuedBatches <= 1024
      && 1 <= concurrentRequests <= 256
      && 0 < timeout
    }
  }

  const DEFAULT_LIMITS := Limits(
    512 * 1024, 256, 512, 16 * 1024 * 1024, 32 * 1024 * 1024, 8, 24 * 1024 * 1024, 32, 16, 120)
}
