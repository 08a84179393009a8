/** The records that travel through the replicated log. */
module Types {

  datatype Option<+T> = None | Some(value: T)

  /** A commit that took effect; one that did not; one that did but was reported as failed. */
  datatype Outcome = Committed | Lost | Unreported

  datatype JobType = Unico | Recurrente | OtherType(name: string)

  datatype Job = Job(
    id: string,
    jobType: JobType,
    timestamp: Option<int>,
    cronExpr: string,
    lastDate: Option<int>,
    createdAt: int,
    webhookUrl: string,
    payload: map<string, string>)

  datatype SlotData = SlotData(key: int, minTime: int, maxTime: int, jobIds: seq<string>)

  datatype JobStatus = Pending | InProgress | Completed | Failed | Cancelled | Timeout | OtherStatus(name: string)

  datatype Attempt = Attempt(
    attemptNum: int,
    startTime: int,
    endTime: int,
    nodeId: string,
    status: JobStatus,
    httpStatus: int,
    responseTime: int,
    errorMessage: string,
    errorType: string)

  datatype ExecState = ExecState(
    jobId: string,
    status: JobStatus,
    attemptCount: int,
    createdAt: int,
    firstAttemptAt: int,
    lastAttemptAt: int,
    completedAt: int,
    cancelledAt: int,
    cancellationReason: string,
    executingNodeId: string,
    attempts: seq<Attempt>)

  datatype StatusCommand = StatusCommand(
    jobId: string,
    status: JobStatus,
    nodeId: string,
    attempt: Option<Attempt>,
    timestamp: int,
    cancellationReason: string)

  /** A slot key as it arrives in the text field of a command. */
  datatype SlotRef = NoId | BadId | SlotId(key: int)

  datatype Command =
    | CreateJob(job: Option<Job>)
    | DeleteJob(id: string)
    | CreateSlot(slot: Option<SlotData>)
    | DeleteSlot(slotId: SlotRef)
    | ArchiveSlot(coldSlot: Option<SlotData>)
    | UnarchiveSlot(slotId: SlotRef)
    | UpdateJobStatus(status: Option<StatusCommand>)
    | RecordAttempt(status: Option<StatusCommand>)
    | PruneAttempts(status: Option<StatusCommand>, attempts: seq<Attempt>)
    | UpdateMemoryUsage(delta: int)
    | UpdateJobCount(delta: int)
    | OtherCommand(name: string)

  datatype Error =
    | MissingField
    | InvalidSlotKey
    | ColdStoreNotEnabled
    | ColdStoreFailed
    | StateNotFound
    | UnknownStatus
    | InvalidTransition
    | UnknownCommand

  /** What applying a command answers. */
  datatype Response =
    | Nothing
    | JobStored(job: Job)
    | SlotStored(slot: SlotData)
    | Counter(value: int)
    | Rejected(error: Error)
}
