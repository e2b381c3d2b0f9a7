/** The states of tasks, of their minions, of jobs and of job returns. */
module TaskStatuses {

  /** TaskMinionStatus in saltbox_core/tasks/schemas/tasks_minion.py */
  datatype Status = Pending | Blocked | Unreachable | Busy | InWork | Success | Failed

  /** TaskStatus in saltbox_core/tasks/schemas/tasks_status.py */
  datatype TaskStatus = Created | WaitMinions | Running | Stopping | Stopped | Finished

  /** JobStatus in saltbox_core/jobs/schemas/job_schemas.py */
  datatype JobStatus = JobStarting | JobRunning | JobFinished | JobLaunchError

  /** JobReturnStatus in saltbox_core/jobs/schemas/job_return_schemas.py */
  datatype ReturnStatus = ReturnWaiting | ReturnSuccess | ReturnFailed | ReturnTimeout | ReturnIgnored
}
