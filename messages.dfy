/** The records that travel between the job driver, the worker pool and the
    chunk workers: column descriptors, the per-chunk task payload and the
    reply a worker posts back. */
module Messages {
  import opened Js

  /** A column of the requested CSV: header name, generator kind (`type` in the
      request) and its position. */
  datatype Field = Field(name: string, kind: string, order: int)

  /** The `data` of one chunk task, as the planner builds it and the worker reads it. */
  datatype TaskData = TaskData(
    fields: seq<Field>,
    totalRows: int,
    chunkSize: int,
    jobId: string,
    chunkIndex: nat,
    totalChunks: int)

  /** What a worker posts back: `{success: true, chunkIndex, rowsGenerated, filePath}`
      or `{success: false, chunkIndex?, error}` (the pool's own crash report and the
      worker's outer catch carry no chunk index). */
  datatype WorkerResult =
    | Success(chunkIndex: nat, rowsGenerated: int, filePath: string)
    | Failure(failedChunk: Option<nat>, error: string)
}
