/** The state shared by the command queues and the upgrade scheduler: commands and results,
    upgrade progress, reported statuses and the batch job.  Times are seconds. */
module Management {

  import opened Basics

  const COMMAND_TTL := 900
  const BATCH_TIMEOUT := 300
  const STALE_TIMEOUT := 15
  const QUEUE_MAX := 16
  const HISTORY_MAX := 20

  datatype Payload = NoPayload | Artifact(version: string, valid: bool) | Mode(desired: string) | Other(text: string)

  /** `signedBy` is the hash of the token whose key signed exactly the other fields. */
  datatype Command = Command(id: string, action: string, payload: Payload, createdAt: int, expiresAt: int,
                             signedBy: string)

  datatype Result = Result(commandId: string, action: string, success: bool, message: string, completedAt: int,
                           signedBy: string)

  /** The phases a progress report may name. */
  datatype Phase =
    Dispatching | Downloading | Verifying | Installing | Restarting | Reconnecting | Success | Failed | RolledBack

  predicate Terminal(phase: Phase) {
    phase in {Success, Failed, RolledBack}
  }

  datatype Component = HelperPart | CorePart

  datatype Progress = Progress(component: Component, phase: Phase, target: string, message: string, startedAt: int,
                               updatedAt: int)

  datatype Status = Status(reportedAt: Option<int>, helperInstalled: bool, helperVersion: string, coreVersion: string,
                           architecture: string, capabilities: set<string>, machineId: string, update: Option<Progress>)

  const NO_STATUS := Status(None, false, "", "", "", {}, "", None)

  datatype Identity = Identity(uuid: string, tokenHash: string, pendingHash: string, pendingExpires: int,
                               machineId: string)

  datatype RepairStatus = DriftDetected | Repairing | Recovered | WaitingOfficial | Degraded

  /** Who asked for the desired mode: the official record, or an administrator here. */
  datatype Source = Formal | CustomExplicit

  /** The core mode wanted for a server, and how its repair is going. */
  datatype Intent = Intent(desired: string, pending: bool, source: Source, machineId: string, repair: RepairStatus,
                           waitingSince: Option<int>, attempts: nat, lastRepairAt: int, lastError: string,
                           nextRepairAt: Option<int>,
                           lastObserved: string, driftAt: Option<int>, changedFrom: string, changedAt: int,
                           unconfirmed: bool)

  /** A row of a batch either waits, never runs, or is in an upgrade phase. */
  datatype RowPhase = Queued | Skipped | Cancelled | At(phase: Phase)

  datatype Row = Row(server: string, phase: RowPhase, reason: string, commandId: string, startedAt: int,
                     finishedAt: int, version: string)

  datatype JobPhase = Active | Succeeded | Unsuccessful

  datatype Job = Job(id: string, phase: JobPhase, startedAt: int, updatedAt: int, finishedAt: int, stopped: bool,
                     rows: seq<Row>)

  predicate Running(row: Row) {
    row.phase.At? && !Terminal(row.phase.phase)
  }

  predicate Waiting(row: Row) {
    row.phase == Queued
  }

  function QueueOf(queues: map<string, seq<Command>>, server: string): seq<Command> {
    if server in queues then queues[server] else []
  }

  function StatusOf(statuses: map<string, Status>, server: string): Status {
    if server in statuses then statuses[server] else NO_STATUS
  }

  function ResultsOf(results: map<string, seq<Result>>, server: string): seq<Result> {
    if server in results then results[server] else []
  }

  predicate IsUpdate(action: string) {
    action in {"helper.update", "core.update", "core.install"}
  }

  predicate UpdateQueued(queue: seq<Command>, now: int) {
    exists c :: c in queue && IsUpdate(c.action) && now < c.expiresAt
  }

  predicate UpdateRunning(update: Option<Progress>) {
    update.Some? && !Terminal(update.value.phase)
  }

  /** Progress that has been silent for the lifetime of a command no longer counts. */
  predicate UpgradeInProgress(queue: seq<Command>, update: Option<Progress>, now: int) {
    UpdateQueued(queue, now) || (UpdateRunning(update) && now - update.value.updatedAt < COMMAND_TTL)
  }

  /** An active batch still has, or is going to have, work for the server. */
  predicate Busy(job: Option<Job>, server: string) {
    job.Some? && job.value.phase == Active &&
    exists row :: row in job.value.rows && row.server == server && (Waiting(row) || Running(row))
  }

  class HelperState {
    var identities: map<string, Identity>
    var queues: map<string, seq<Command>>
    var results: map<string, seq<Result>>
    var statuses: map<string, Status>
    var job: Option<Job>
    var intents: map<string, Intent>

    constructor ()
      ensures identities == map[] && queues == map[] && results == map[] && statuses == map[] && job == None &&
              intents == map[]
    {
      identities, queues, results, statuses, job, intents := map[], map[], map[], map[], None, map[];
    }
  }
}
