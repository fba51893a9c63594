/**
 * The two record shapes of the engine: an assignment observed in this run
 * (as built by a fetcher or a schedule generator) and the task record kept
 * in `tasks.json`, keyed by task id.
 */
module Tasks {
  import opened Clock

  /** An observed assignment; `due` is still a timezone-aware datetime. */
  datatype Observed = Observed(
    id: string,
    title: string,
    course: string,
    due: Instant,
    source: string,
    url: string)

  /** A persisted task record; `due` is the ISO-8601 text that was stored. */
  datatype TaskRecord = TaskRecord(
    id: string,
    title: string,
    course: string,
    due: string,
    source: string,
    url: string,
    completed: bool)

  /** The registry: task id to task record. */
  type Registry = map<string, TaskRecord>
}
