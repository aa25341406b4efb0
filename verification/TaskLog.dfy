/** The parts that the log of a task is made of. */
module TaskLog {
  import opened Wrappers

  datatype TaskLogPart = TaskLogPart(
    id: Option<string>, number: int, taskId: Option<string>, contents: Option<string>, createdAt: Option<int>)
}
